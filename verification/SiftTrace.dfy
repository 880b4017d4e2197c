/** The two sides of a trace together: for every sequence of writer calls, the reader gives back what
    the writer was told, and their states stay in step. */
module SiftTrace {
  import opened Collections
  import opened Bytes
  import opened SiftFormat
  import opened SiftImage
  import opened SiftMessages
  import opened SiftReading
  import opened SiftWriting

  // ---- what should come out, said without the codec ----

  /** The items a call stands for, and the instruction set in force after it. */
  function Meaning(prog: Program, isa: u32, c: Call): seq<Item> {
    match c
    case Execute(addr, size, addresses, isBranch, taken, isPredicate, executed, _) =>
      var s := SInst(addr, size, Known(CodeAt(prog.code, addr, size)));
      [Inst(s, addresses, isBranch, taken, isPredicate, executed, isa)]
    case Side(rec, _) => if rec.IsaChange? then [] else [Delivered(rec)]
  }

  function IsaAfter(isa: u32, c: Call): u32 {
    if c.Side? && c.rec.IsaChange? then c.rec.isa else isa
  }

  function Meanings(prog: Program, isa: u32, calls: seq<Call>): seq<Item>
    decreases |calls|
  {
    if calls == [] then [] else Meaning(prog, isa, calls[0]) + Meanings(prog, IsaAfter(isa, calls[0]), calls[1..])
  }

  function IsaAfterAll(isa: u32, calls: seq<Call>): u32
    decreases |calls|
  {
    if calls == [] then isa else IsaAfterAll(IsaAfter(isa, calls[0]), calls[1..])
  }

  lemma {:induction false} MeaningsSnoc(prog: Program, isa: u32, calls: seq<Call>, c: Call)
    ensures Meanings(prog, isa, calls + [c]) == Meanings(prog, isa, calls) + Meaning(prog, IsaAfterAll(isa, calls), c)
    ensures IsaAfterAll(isa, calls + [c]) == IsaAfter(IsaAfterAll(isa, calls), c)
    decreases |calls|
  {
    hide Meaning, IsaAfter;
    if calls == [] {
      assert [] + [c] == [c] && [c][1..] == [];
      assert Meaning(prog, isa, c) + [] == Meaning(prog, isa, c);
    } else {
      MeaningsSnoc(prog, IsaAfter(isa, calls[0]), calls[1..], c);
      assert (calls + [c])[1..] == calls[1..] + [c];
    }
  }

  /** The physical page first found for each virtual page touched so far. */
  function FirstSeen(cfg: Config, m: map<u64, u64>, pm: PageMap, vas: seq<u64>): map<u64, u64>
    decreases |vas|
  {
    if vas == [] then m else
    var vp := vas[0] / PAGE;
    FirstSeen(cfg, if cfg.mappings && vp !in m && Lookup(pm, vp) != 0 then m[vp := Lookup(pm, vp)] else m, pm, vas[1..])
  }

  function FirstSeenBy(cfg: Config, m: map<u64, u64>, calls: seq<Call>): map<u64, u64>
    decreases |calls|
  {
    if calls == [] then m else FirstSeenBy(cfg, FirstSeen(cfg, m, calls[0].pm, Touches(calls[0])), calls[1..])
  }

  // ---- the relation between the two states ----

  /** Every cached instruction is the one at its address, and every link leads to a cached instruction. */
  ghost predicate CacheInv(scache: map<u64, SInst>, next: map<u64, u64>, last: Option<u64>) {
    && (forall a :: a in scache ==> scache[a].addr == a)
    && (forall a :: a in next ==> a in scache && next[a] in scache)
    && (last.Some? ==> last.value in scache)
  }

  function CodeInst(prog: Program, a: u64): SInst {
    SInst(a, prog.sizeOf(a), Known(CodeAt(prog.code, a, prog.sizeOf(a))))
  }

  ghost predicate CachedCode(prog: Program, scache: map<u64, SInst>) {
    forall a :: a in scache ==> scache[a] == CodeInst(prog, a)
  }

  /** The bytes of every cached instruction are still in the pages. */
  ghost predicate CachedHeld(prog: Program, scache: map<u64, SInst>, img: Image) {
    forall a :: a in scache ==> Holds(img, prog.code, a, prog.sizeOf(a))
  }

  /** Everything the writer has marked as shipped is in the reader's pages; in page mode the last page of the address
      space, on which the page loop would not stop, is never among them. */
  ghost predicate Shipped(cfg: Config, prog: Program, icache: set<u64>, img: Image) {
    && Sound(img, prog.code)
    && (forall a :: a in icache ==> Holds(img, prog.code, a, if cfg.perInstruction then prog.sizeOf(a) else PAGE))
    && (!cfg.perInstruction ==> LAST_PAGE !in img && forall a :: a in icache ==> a % PAGE == 0)
  }

  ghost predicate InStep(cfg: Config, prog: Program, w: WState, r: RState) {
    && r.lastAddress == w.lastAddress
    && !r.seenEnd
    && r.vcache.Keys == w.va2pa
    && Shipped(cfg, prog, w.icache, r.icache)
    && CachedCode(prog, r.scache)
    && CachedHeld(prog, r.scache, r.icache)
    && CacheInv(r.scache, r.next, r.last)
  }

  ghost predicate Grows(prog: Program, img: Image, img': Image) {
    forall a: u64, n: nat :: Holds(img, prog.code, a, n) ==> Holds(img', prog.code, a, n)
  }

  // ---- code pages ----

  lemma ShipPage(cfg: Config, prog: Program, icache: set<u64>, base: u64, img: Image)
    requires !cfg.perInstruction && base % PAGE == 0 && base < LAST_PAGE && Shipped(cfg, prog, icache, img)
    ensures var img' := img[base := Known(CodeAt(prog.code, base, PAGE))];
            Shipped(cfg, prog, icache + {base}, img') && Grows(prog, img, img')
  {
    hide Holds, Sound, CodeAt, Known;
    PutPage(img, prog.code, base);
  }

  lemma GrowsOn(prog: Program, img: Image, img1: Image, img2: Image)
    requires Grows(prog, img, img1) && Grows(prog, img1, img2)
    ensures Grows(prog, img, img2)
  {
    hide Holds;
  }

  lemma {:induction false} RunPages(cfg: Config, prog: Program, icache: set<u64>, base: u64, end: u64, r: RState)
    requires !cfg.perInstruction && end < LAST_PAGE && base % PAGE == 0
    requires Shipped(cfg, prog, icache, r.icache)
    ensures var r' := Run(r, PageRecs(prog.code, icache, base, end));
            && r'.Some?
            && r'.value == r.(icache := r'.value.icache)
            && Shipped(cfg, prog, PageSet(icache, base, end), r'.value.icache)
            && Grows(prog, r.icache, r'.value.icache)
    decreases end + PAGE - base
  {
    hide Shipped, Grows, CodeAt, Known, Apply, Run;
    if base > end {
      RunNone(r);
      GrowsNot(prog, r.icache);
    } else {
      var rest := PageRecs(prog.code, icache + {base}, base + PAGE, end);
      if base in icache {
        assert icache + {base} == icache;
        assert [] + rest == rest;
        RunPages(cfg, prog, icache + {base}, base + PAGE, end, r);
      } else {
        var rec := Icache(base, CodeAt(prog.code, base, PAGE));
        var r1 := r.(icache := r.icache[base := Known(CodeAt(prog.code, base, PAGE))]);
        ShipPage(cfg, prog, icache, base, r.icache);
        ApplyIcache(r, base, CodeAt(prog.code, base, PAGE));
        RunPages(cfg, prog, icache + {base}, base + PAGE, end, r1);
        RunCons(r, rec, rest);
        GrowsOn(prog, r.icache, r1.icache, Run(r1, rest).value.icache);
      }
    }
  }

  lemma RunNone(r: RState)
    ensures Run(r, []) == Some(r)
  {
  }

  lemma GrowsNot(prog: Program, img: Image)
    ensures Grows(prog, img, img)
  {
    hide Holds;
  }

  lemma {:induction false} PageSetCovers(icache: set<u64>, base: u64, end: u64, p: u64)
    requires end < LAST_PAGE && base % PAGE == 0 && p % PAGE == 0
    requires p in icache || base <= p <= end
    ensures p in PageSet(icache, base, end)
    decreases end + PAGE - base
  {
    if base <= end {
      PageSetCovers(icache + {base}, base + PAGE, end, p);
    }
  }

  /** Pages that hold the code hold every instruction on them, also one that crosses a page end. */
  lemma PagesHold(cfg: Config, prog: Program, icache: set<u64>, img: Image, addr: u64, size: nat)
    requires !cfg.perInstruction && 1 <= size && addr + size <= LAST_PAGE
    requires Shipped(cfg, prog, PageSet(icache, PageOf(addr), EndPage(addr, size)), img)
    ensures Holds(img, prog.code, addr, size)
  {
    hide PageSet, ByteAt, PageOf, EndPage, Plus;
    forall i | 0 <= i < size
      ensures ByteAt(img, Plus(addr, i)) == Some(prog.code(Plus(addr, i)))
    {
      var x := addr + i;
      PageBetween(addr, size, i);
      PageSetCovers(icache, PageOf(addr), EndPage(addr, size), PageOf(x));
      assert Holds(img, prog.code, PageOf(x), PAGE);
    }
  }

  lemma PageBetween(addr: u64, size: nat, i: nat)
    requires i < size && addr + size <= LAST_PAGE
    ensures var x := addr + i;
            && PageOf(addr) <= PageOf(x) <= EndPage(addr, size) < LAST_PAGE
            && PageOf(addr) % PAGE == 0 && PageOf(x) % PAGE == 0
            && Plus(PageOf(x), x % PAGE) == x == Plus(addr, i)
  {
  }

  /** Whatever was shipped before, after the image records the instruction's bytes are in the reader's pages. */
  lemma RunImage(cfg: Config, prog: Program, w: WState, addr: u64, r: RState)
    requires 1 <= prog.sizeOf(addr) <= 15
    requires cfg.perInstruction || addr + prog.sizeOf(addr) <= LAST_PAGE
    requires Shipped(cfg, prog, w.icache, r.icache)
    ensures var size := prog.sizeOf(addr);
            var r' := Run(r, ImageRecs(cfg, prog.code, w.icache, addr, size));
            && r'.Some?
            && r'.value == r.(icache := r'.value.icache)
            && Shipped(cfg, prog, ImageSet(cfg, w.icache, addr, size), r'.value.icache)
            && Holds(r'.value.icache, prog.code, addr, size)
            && Grows(prog, r.icache, r'.value.icache)
  {
    hide Holds, Sound, CodeAt, Store, PageRecs, PageSet, Apply;
    var size := prog.sizeOf(addr);
    if !cfg.perInstruction {
      RunPages(cfg, prog, w.icache, PageOf(addr), EndPage(addr, size), r);
      PagesHold(cfg, prog, w.icache, Run(r, ImageRecs(cfg, prog.code, w.icache, addr, size)).value.icache, addr, size);
    } else if addr in w.icache {
      assert w.icache + {addr} == w.icache;
    } else {
      StoreCode(r.icache, prog.code, addr, size);
      var rec := IcacheVariable(addr, CodeAt(prog.code, addr, size));
      ApplyIcacheVariable(r, addr, CodeAt(prog.code, addr, size));
      RunOne(r, rec);
    }
  }

  // ---- page mappings ----

  lemma {:induction false} RunMaps(cfg: Config, sent: set<u64>, pm: PageMap, vas: seq<u64>, r: RState)
    requires r.vcache.Keys == sent
    ensures Run(r, MapRecs(cfg, sent, pm, vas)) == Some(r.(vcache := FirstSeen(cfg, r.vcache, pm, vas)))
    ensures FirstSeen(cfg, r.vcache, pm, vas).Keys == MapSet(cfg, sent, pm, vas)
    decreases |vas|
  {
    hide Apply, Lookup;
    if vas != [] {
      var vp := vas[0] / PAGE;
      if !cfg.mappings || Lookup(pm, vp) == 0 {
        RunMaps(cfg, sent, pm, vas[1..], r);
      } else if vp in sent {
        assert sent + {vp} == sent;
        RunMaps(cfg, sent, pm, vas[1..], r);
      } else {
        var rec := Logical2Physical(vp, Lookup(pm, vp));
        var r1 := r.(vcache := r.vcache[vp := Lookup(pm, vp)]);
        assert r1.vcache.Keys == sent + {vp};
        ApplyMapping(r, vp, Lookup(pm, vp));
        RunMaps(cfg, sent + {vp}, pm, vas[1..], r1);
        RunCons(r, rec, MapRecs(cfg, sent + {vp}, pm, vas[1..]));
      }
    }
  }

  // ---- one call ----

  /** Whether linked, cached or new, the instruction found at an address is the one the code has there. */
  lemma FindsCode(prog: Program, r: RState, addr: u64)
    requires CachedCode(prog, r.scache) && CacheInv(r.scache, r.next, r.last) &&
             Holds(r.icache, prog.code, addr, prog.sizeOf(addr))
    ensures FindStatic(r, addr, prog.sizeOf(addr)) ==
            Some(CodeInst(prog, addr))
  {
    hide Holds, Decode, Known, CodeAt;
    DecodeHolds(r.icache, prog.code, addr, prog.sizeOf(addr));
  }

  lemma AfterStaticKeeps(prog: Program, r: RState, addr: u64)
    requires CachedCode(prog, r.scache) && CachedHeld(prog, r.scache, r.icache) && CacheInv(r.scache, r.next, r.last)
    requires Holds(r.icache, prog.code, addr, prog.sizeOf(addr))
    ensures var r' := AfterStatic(r, addr, CodeInst(prog, addr));
            CachedCode(prog, r'.scache) && CachedHeld(prog, r'.scache, r'.icache) &&
            CacheInv(r'.scache, r'.next, r'.last)
  {
    hide Holds, CodeInst;
    assert CodeInst(prog, addr).addr == addr by { CodeInstAddr(prog, addr); }
  }

  lemma AfterStaticFrame(r: RState, addr: u64, s: SInst)
    ensures var r' := AfterStatic(r, addr, s); r' == r.(scache := r'.scache, next := r'.next, last := r'.last)
  {
  }

  lemma CodeInstAddr(prog: Program, a: u64)
    ensures CodeInst(prog, a).addr == a
  {
  }

  /** With its bytes in the pages, an instruction record gives back the instruction. */
  lemma ApplyMain(cfg: Config, prog: Program, w: WState, c: Call, r: RState)
    requires c.Execute? && ExecuteOk(cfg, prog, w, c)
    requires r.lastAddress == w.lastAddress && CachedCode(prog, r.scache) && CachedHeld(prog, r.scache, r.icache) &&
             CacheInv(r.scache, r.next, r.last)
    requires Holds(r.icache, prog.code, c.addr, c.size)
    ensures var a := Apply(r, MainRec(w, c));
            && a.Return?
            && a.r.lastAddress == Plus(c.addr, c.size)
            && a.r.log == r.log + Meaning(prog, r.isa, c)
            && a.r == r.(lastAddress := a.r.lastAddress, scache := a.r.scache, next := a.r.next, last := a.r.last,
                         log := a.r.log)
            && CachedCode(prog, a.r.scache) && CachedHeld(prog, a.r.scache, a.r.icache)
            && CacheInv(a.r.scache, a.r.next, a.r.last)
  {
    hide Holds, FindStatic, AfterStatic, Known, CodeAt, Plus, CachedCode, CachedHeld, CacheInv;
    FindsCode(prog, r, c.addr);
    AfterStaticKeeps(prog, r, c.addr);
    AfterStaticFrame(r, c.addr, CodeInst(prog, c.addr));
  }

  lemma ApplySide(cfg: Config, prog: Program, c: Call, r: RState)
    requires c.Side? && IsSideRecord(c.rec)
    ensures var a := Apply(r, c.rec);
            && !a.Abort?
            && a.r == r.(isa := IsaAfter(r.isa, c), log := r.log + Meaning(prog, r.isa, c))
  {
    if c.rec.IsaChange? {
      assert r.log + [] == r.log;
    }
  }

  /** One call: from states in step, the reader takes the call's records without a failed assertion, receives
      what the call means, and the states are in step again. */
  lemma RunCall(cfg: Config, prog: Program, w: WState, c: Call, r: RState)
    requires InStep(cfg, prog, w, r) && CallOk(cfg, prog, w, c)
    ensures var r' := Run(r, CallRecs(cfg, prog, w, c));
            && r'.Some?
            && InStep(cfg, prog, CallState(cfg, prog, w, c), r'.value)
            && r'.value.log == r.log + Meaning(prog, r.isa, c)
            && r'.value.isa == IsaAfter(r.isa, c)
            && r'.value.vcache == FirstSeen(cfg, r.vcache, c.pm, Touches(c))
  {
    hide ImageRecs, MapRecs, ImageSet, MapSet, Apply, Touches, MainRec, FirstSeen, Holds, Sound;
    var image := if c.Execute? then ImageRecs(cfg, prog.code, w.icache, c.addr, c.size) else [];
    var maps := MapRecs(cfg, w.va2pa, c.pm, Touches(c));
    var main := MainRec(w, c);
    if c.Execute? {
      RunImage(cfg, prog, w, c.addr, r);
    }
    var r1 := Run(r, image).value;
    RunMaps(cfg, w.va2pa, c.pm, Touches(c), r1);
    var r2 := Run(r1, maps).value;
    if c.Execute? {
      ApplyMain(cfg, prog, w, c, r2);
    } else {
      ApplySide(cfg, prog, c, r2);
      assert main == c.rec by { MainSide(w, c); }
    }
    var a := Apply(r2, main);
    assert Run(r2, [main]) == Some(a.r) by { RunOne(r2, main); }
    RunConcat(r, image, maps);
    RunConcat(r, image + maps, [main]);
  }

  lemma MainSide(w: WState, c: Call)
    requires c.Side?
    ensures MainRec(w, c) == c.rec
  {
  }

  lemma RunOne(r: RState, rec: Rec)
    requires !Apply(r, rec).Abort?
    ensures Run(r, [rec]) == Some(Apply(r, rec).r)
  {
    hide Apply;
    assert [rec][1..] == [];
  }

  // ---- whole traces ----

  lemma {:induction false} RunTrace(cfg: Config, prog: Program, w: WState, calls: seq<Call>, r: RState)
    requires InStep(cfg, prog, w, r) && TraceOk(cfg, prog, w, calls)
    ensures var r' := Run(r, TraceRecs(cfg, prog, w, calls));
            && r'.Some?
            && InStep(cfg, prog, TraceState(cfg, prog, w, calls), r'.value)
            && r'.value.log == r.log + Meanings(prog, r.isa, calls)
            && r'.value.vcache == FirstSeenBy(cfg, r.vcache, calls)
    decreases |calls|
  {
    hide CallRecs, CallState, CallOk, InStep, Meaning, FirstSeen, Touches, Run, IsaAfter;
    if calls == [] {
      RunNone(r);
      assert r.log + [] == r.log;
    } else {
      var c := calls[0];
      RunCall(cfg, prog, w, c, r);
      var r1 := Run(r, CallRecs(cfg, prog, w, c)).value;
      var w1 := CallState(cfg, prog, w, c);
      RunTrace(cfg, prog, w1, calls[1..], r1);
      RunConcat(r, CallRecs(cfg, prog, w, c), TraceRecs(cfg, prog, w1, calls[1..]));
      var more := Meanings(prog, r1.isa, calls[1..]);
      assert r.log + Meaning(prog, r.isa, c) + more == r.log + (Meaning(prog, r.isa, c) + more);
    }
  }

  lemma InitiallyInStep(cfg: Config, prog: Program)
    ensures InStep(cfg, prog, Fresh(), Initial())
  {
  }

  /** Whole-trace round trip: the bytes of any trace, read from the start with any handlers, give back exactly
      what the writer was told, in order; Read then reports the end, with nothing of the trace left over. */
  lemma RoundTrip(cfg: Config, prog: Program, calls: seq<Call>, h: Handlers, rest: seq<byte>)
    requires TraceOk(cfg, prog, Fresh(), calls)
    ensures var recs := TraceRecs(cfg, prog, Fresh(), calls);
            && AllWellFormed(recs)
            && var o := ReadAll(Initial(), PutAll(recs, Put(End, rest)), h, []);
            && o.result == TraceEnd
            && o.rest == rest
            && o.r.log == Meanings(prog, 0, calls)
            && o.r.lastAddress == TraceState(cfg, prog, Fresh(), calls).lastAddress
            && o.sent == Replies(Initial(), recs, h)
  {
    var recs := TraceRecs(cfg, prog, Fresh(), calls);
    TraceRecsShip(cfg, prog, Fresh(), calls);
    InitiallyInStep(cfg, prog);
    RunTrace(cfg, prog, Fresh(), calls, Initial());
    assert [] + Meanings(prog, 0, calls) == Meanings(prog, 0, calls);
    ReadAllRun(Initial(), recs, h, [], rest);
    assert [] + Replies(Initial(), recs, h) == Replies(Initial(), recs, h);
  }
}
