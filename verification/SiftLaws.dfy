/** Further laws of the trace: address translation, the exact limits of the instruction encodings, and the
    instruction cache against plain decoding. */
module SiftLaws {
  import opened Collections
  import opened Bytes
  import opened SiftFormat
  import opened SiftImage
  import opened SiftMessages
  import opened SiftReading
  import opened SiftWriting
  import opened SiftTrace

  // ---- address translation ----

  const MAX_PAGE: u64 := 0x10_0000_0000_0000   // 2^52

  lemma {:induction false} FirstSeenKeeps(cfg: Config, m: map<u64, u64>, pm: PageMap, vas: seq<u64>, vp: u64)
    ensures vp in m ==> vp in FirstSeen(cfg, m, pm, vas) && FirstSeen(cfg, m, pm, vas)[vp] == m[vp]
    ensures vp !in m && vp in FirstSeen(cfg, m, pm, vas) ==> FirstSeen(cfg, m, pm, vas)[vp] == Lookup(pm, vp)
    decreases |vas|
  {
    hide Lookup;
    if vas != [] {
      var v0 := vas[0] / PAGE;
      var m' := if cfg.mappings && v0 !in m && Lookup(pm, v0) != 0 then m[v0 := Lookup(pm, v0)] else m;
      FirstSeenKeeps(cfg, m', pm, vas[1..], vp);
    }
  }

  lemma {:induction false} FirstSeenCovers(cfg: Config, m: map<u64, u64>, pm: PageMap, vas: seq<u64>, va: u64)
    requires cfg.mappings && va in vas && Lookup(pm, va / PAGE) != 0
    ensures va / PAGE in FirstSeen(cfg, m, pm, vas)
    decreases |vas|
  {
    hide Lookup;
    var v0 := vas[0] / PAGE;
    var m' := if cfg.mappings && v0 !in m && Lookup(pm, v0) != 0 then m[v0 := Lookup(pm, v0)] else m;
    if va == vas[0] {
      FirstSeenKeeps(cfg, m', pm, vas[1..], v0);
    } else {
      FirstSeenCovers(cfg, m', pm, vas[1..], va);
    }
  }

  /** The mapping of a page never changes once seen. */
  lemma {:induction false} FirstSeenByKeeps(cfg: Config, m: map<u64, u64>, calls: seq<Call>, vp: u64)
    requires vp in m
    ensures vp in FirstSeenBy(cfg, m, calls) && FirstSeenBy(cfg, m, calls)[vp] == m[vp]
    decreases |calls|
  {
    hide FirstSeen, Touches;
    if calls != [] {
      FirstSeenKeeps(cfg, m, calls[0].pm, Touches(calls[0]), vp);
      FirstSeenByKeeps(cfg, FirstSeen(cfg, m, calls[0].pm, Touches(calls[0])), calls[1..], vp);
    }
  }

  /** Only the zero page can have no lookup result. */
  lemma LookupNonzero(pm: PageMap, vp: u64)
    requires vp != 0
    ensures Lookup(pm, vp) != 0
  {
  }

  /** Address translation agreement: from any states in step, after a call and any later calls, the reader translates
      every address the call touched outside page 0 to the page it had before if it was known then, else to the
      page the writer looks up in this call, at the unchanged offset. */
  lemma Translation(cfg: Config, prog: Program, w: WState, r: RState, c: Call, later: seq<Call>, va: u64)
    requires InStep(cfg, prog, w, r) && TraceOk(cfg, prog, w, [c] + later)
    requires cfg.mappings && va in Touches(c) && va / PAGE != 0
    ensures var vp := va / PAGE;
            var page := if vp in r.vcache then r.vcache[vp] else Lookup(c.pm, vp);
            var r' := Run(r, TraceRecs(cfg, prog, w, [c] + later));
            && r'.Some?
            && vp in r'.value.vcache
            && r'.value.vcache[vp] == page
            && (page < MAX_PAGE ==> Va2pa(r'.value, va) == page * PAGE + va % PAGE)
  {
    hide Lookup, TraceRecs, TraceOk, InStep, Touches, FirstSeen, Run;
    var calls := [c] + later;
    assert calls[0] == c && calls[1..] == later;
    RunTrace(cfg, prog, w, calls, r);
    var vp := va / PAGE;
    var m := FirstSeen(cfg, r.vcache, c.pm, Touches(c));
    LookupNonzero(c.pm, vp);
    FirstSeenCovers(cfg, r.vcache, c.pm, Touches(c), va);
    FirstSeenKeeps(cfg, r.vcache, c.pm, Touches(c), vp);
    FirstSeenByKeeps(cfg, m, later, vp);
  }

  // ---- the limits of the instruction encodings and of the page loop ----

  ghost predicate NoEmpty(scache: map<u64, SInst>) {
    forall a :: a in scache ==> scache[a].size != 0
  }

  /** The items after position `n` of the log hold no instruction of size 0. */
  ghost predicate NoEmptyAfter(log: seq<Item>, n: nat) {
    forall i :: n <= i < |log| && log[i].Inst? ==> log[i].sinst.size != 0
  }

  lemma ParsedSizes(s: seq<byte>)
    ensures ParseRec(s).Scanned? && (ParseRec(s).value.Simple? || ParseRec(s).value.Ext?) ==>
              ParseRec(s).value.size != 0
  {
    hide ParseOther;
  }

  lemma ApplyNoEmpty(r: RState, rec: Rec)
    requires NoEmpty(r.scache) && ((rec.Simple? || rec.Ext?) ==> rec.size != 0)
    ensures !Apply(r, rec).Abort? ==>
              NoEmpty(Apply(r, rec).r.scache) &&
              r.log <= Apply(r, rec).r.log && NoEmptyAfter(Apply(r, rec).r.log, |r.log|)
  {
    hide Decode, Store, Known;
  }

  /** No instruction of size 0 ever comes out of Read. */
  lemma {:induction false} ReadOneNoEmpty(r: RState, input: seq<byte>, h: Handlers, sent: seq<Msg>)
    requires NoEmpty(r.scache)
    ensures var o := ReadOne(r, input, h, sent);
            NoEmpty(o.r.scache) && r.log <= o.r.log && NoEmptyAfter(o.r.log, |r.log|)
    decreases |input|
  {
    hide ParseRec, Apply, Respond;
    var p := ParseRec(input);
    if !r.seenEnd && p.Scanned? {
      ParsedSizes(input);
      ApplyNoEmpty(r, p.value);
      match Apply(r, p.value)
      case Go(r') => ReadOneNoEmpty(r', p.rest, h, sent);
      case Ask(r') =>
        var ans := h(r'.log);
        if !Defers(p.value, ans) {
          ReadOneNoEmpty(r', p.rest, h, sent + [Respond(p.value, ans)]);
        }
      case _ =>
    }
  }

  /** Exactly when an instruction survives: its size is not 0, and its executed flag is set or travels. */
  predicate Survives(last: u64, c: Call)
    requires c.Execute?
  {
    c.size != 0 && (c.isPredicate || c.executed || c.addr != last)
  }

  lemma {:induction false} ReadRecord(r: RState, rec: Rec, rest: seq<byte>, h: Handlers)
    requires WellFormed(rec) && !r.seenEnd && Apply(r, rec).Return?
    ensures ReadOne(r, Put(rec, rest), h, []) == ReadOut(Instruction, Apply(r, rec).r, rest, [])
  {
    hide Apply, Put, ParseRec;
    ParsePut(rec, rest);
  }

  lemma EmptyIsLost(prog: Program, r: RState, c: Call, input: seq<byte>, h: Handlers)
    requires c.Execute? && c.size == 0 && NoEmpty(r.scache)
    ensures ReadOne(r, input, h, []).r.log != r.log + Meaning(prog, r.isa, c)
  {
    hide ReadOne, Known, CodeAt;
    var o := ReadOne(r, input, h, []);
    ReadOneNoEmpty(r, input, h, []);
    var m := Meaning(prog, r.isa, c);
    assert |m| == 1 && m[0].sinst.size == 0;
    assert (r.log + m)[|r.log|] == m[0];
  }

  /** A record of non-zero size is returned as an instruction; only the executed flag can differ. */
  lemma NonEmptyIsRead(prog: Program, r: RState, c: Call, rest: seq<byte>, h: Handlers)
    requires c.Execute? && 1 <= c.size < 16 && |c.addresses| <= MAX_DYNAMIC_ADDRESSES && c.size == prog.sizeOf(c.addr)
    requires !r.seenEnd && CachedCode(prog, r.scache) && CacheInv(r.scache, r.next, r.last)
    requires Holds(r.icache, prog.code, c.addr, c.size)
    ensures var o := ReadOne(r, InstructionBytes(r.lastAddress, c, rest), h, []);
            var simple := c.addr == r.lastAddress && !c.isPredicate;
            && o.result.Instruction?
            && o.r.log == r.log + Meaning(prog, r.isa, c.(executed := c.executed || simple))
  {
    hide InstructionBytes, Holds, CachedCode, CacheInv, Known, CodeAt, FindStatic, Put, ReadOne;
    var w := WState(r.lastAddress, {}, {});
    InstructionBytesPut(w, c, rest);
    FindsCode(prog, r, c.addr);
    ReadRecord(r, MainRec(w, c), rest, h);
  }

  /** The instruction the reader returns is the one the writer was given if and only if it survives. */
  lemma InstructionExact(prog: Program, r: RState, c: Call, rest: seq<byte>, h: Handlers)
    requires c.Execute? && c.size < 16 && |c.addresses| <= MAX_DYNAMIC_ADDRESSES && c.size == prog.sizeOf(c.addr)
    requires !r.seenEnd && NoEmpty(r.scache) && CachedCode(prog, r.scache) && CacheInv(r.scache, r.next, r.last)
    requires Holds(r.icache, prog.code, c.addr, c.size)
    ensures var o := ReadOne(r, InstructionBytes(r.lastAddress, c, rest), h, []);
            (o.result.Instruction? && o.r.log == r.log + Meaning(prog, r.isa, c)) <==> Survives(r.lastAddress, c)
  {
    hide InstructionBytes, Holds, CachedCode, CacheInv, Known, CodeAt, ReadOne, NoEmpty;
    if c.size == 0 {
      EmptyIsLost(prog, r, c, InstructionBytes(r.lastAddress, c, rest), h);
    } else {
      NonEmptyIsRead(prog, r, c, rest, h);
      var executed := c.executed || (c.addr == r.lastAddress && !c.isPredicate);
      var m := Meaning(prog, r.isa, c.(executed := executed));
      assert (r.log + m)[|r.log|].executed == executed;
      assert (r.log + Meaning(prog, r.isa, c))[|r.log|].executed == c.executed;
    }
  }

  /** The records that only fill the reader's tables. */
  predicate Fills(rec: Rec) {
    rec.Icache? || rec.IcacheVariable? || rec.Logical2Physical?
  }

  ghost predicate AllFill(recs: seq<Rec>) {
    forall i :: 0 <= i < |recs| ==> WellFormed(recs[i]) && Fills(recs[i])
  }

  lemma ApplyFills(r: RState, rec: Rec)
    requires Fills(rec)
    ensures var a := Apply(r, rec); a.Go? && a.r == r.(icache := a.r.icache, vcache := a.r.vcache)
  {
  }

  /** Read goes through such records, and nothing but the tables changes. */
  lemma {:induction false} ReadFills(r: RState, recs: seq<Rec>, rest: seq<byte>, h: Handlers, sent: seq<Msg>)
    requires AllFill(recs) && !r.seenEnd
    ensures var r' := Run(r, recs);
            && r'.Some? && r'.value == r.(icache := r'.value.icache, vcache := r'.value.vcache)
            && ReadOne(r, PutAll(recs, rest), h, sent) == ReadOne(r'.value, rest, h, sent)
    decreases |recs|
  {
    hide Apply, Put, ParseRec, WellFormed, Fills;
    if recs != [] {
      ApplyFills(r, recs[0]);
      ParsePut(recs[0], PutAll(recs[1..], rest));
      ReadFills(Apply(r, recs[0]).r, recs[1..], rest, h, sent);
    }
  }

  lemma {:induction false} PageRecsFill(code: Code, icache: set<u64>, base: u64, end: u64)
    requires end < LAST_PAGE
    ensures AllFill(PageRecs(code, icache, base, end))
    decreases end + PAGE - base
  {
    if base <= end {
      PageRecsFill(code, icache + {base}, base + PAGE, end);
    }
  }

  lemma {:induction false} MapRecsFill(cfg: Config, sent: set<u64>, pm: PageMap, vas: seq<u64>)
    ensures AllFill(MapRecs(cfg, sent, pm, vas))
    decreases |vas|
  {
    if vas != [] {
      MapRecsFill(cfg, sent, pm, vas[1..]);
      MapRecsFill(cfg, sent + {vas[0] / PAGE}, pm, vas[1..]);
    }
  }

  lemma NeedRecsFill(cfg: Config, code: Code, w: WState, c: Call)
    requires c.Execute? && c.size < 16 && LoopStops(cfg, c.addr, c.size)
    ensures AllFill(NeedRecs(cfg, code, w, c)) && AllWellFormed(NeedRecs(cfg, code, w, c))
  {
    hide PageRecs, MapRecs, Touches;
    MapRecsFill(cfg, w.va2pa, c.pm, Touches(c));
    if !cfg.perInstruction {
      PageRecsFill(code, w.icache, PageOf(c.addr), EndPage(c.addr, c.size));
    }
  }

  /** The code of an instruction is below the last page, where page mode can ship it. */
  predicate Arrives(cfg: Config, c: Call)
    requires c.Execute?
  {
    cfg.perInstruction || c.addr + c.size <= LAST_PAGE
  }

  /** An instruction whose bytes go round the end of the address space starts on the last page, and the page loop does
      nothing for it. */
  lemma WrapsFromLast(cfg: Config, code: Code, icache: set<u64>, addr: u64, size: nat)
    requires !cfg.perInstruction && 1 <= size < 16 && LoopStops(cfg, addr, size) && addr + size > LAST_PAGE
    ensures PageOf(addr) == LAST_PAGE && ImageRecs(cfg, code, icache, addr, size) == []
  {
  }

  lemma LastPageAbsent(img: Image, code: Code, addr: u64, size: nat)
    requires LAST_PAGE !in img && PageOf(addr) == LAST_PAGE && size > 0
    ensures !Holds(img, code, addr, size) && Decode(img, addr, size).None?
  {
    assert Plus(addr, 0) == addr;
    assert ByteAt(img, addr) == None;
  }

  /** When the page loop stops, the code of an instruction is complete in the reader's pages after the image records if
      and only if it is below the last page. */
  lemma CodeArrives(cfg: Config, prog: Program, w: WState, r: RState, c: Call)
    requires InStep(cfg, prog, w, r) && c.Execute? && 1 <= c.size < 16 && c.size == prog.sizeOf(c.addr)
    requires LoopStops(cfg, c.addr, c.size)
    ensures var r' := Run(r, ImageRecs(cfg, prog.code, w.icache, c.addr, c.size));
            r'.Some? && (Holds(r'.value.icache, prog.code, c.addr, c.size) <==> Arrives(cfg, c))
  {
    hide Holds, ImageRecs, Sound;
    if Arrives(cfg, c) {
      RunImage(cfg, prog, w, c.addr, r);
    } else {
      WrapsFromLast(cfg, prog.code, w.icache, c.addr, c.size);
      LastPageAbsent(r.icache, prog.code, c.addr, c.size);
    }
  }

  /** The reader after the records that come before an instruction's own. */
  lemma NeedsRun(cfg: Config, prog: Program, w: WState, r: RState, c: Call)
    requires InStep(cfg, prog, w, r) && c.Execute? && 1 <= c.size < 16 && c.size == prog.sizeOf(c.addr)
    requires LoopStops(cfg, c.addr, c.size)
    ensures var r' := Run(r, NeedRecs(cfg, prog.code, w, c));
            && r'.Some? && r'.value == r.(icache := r'.value.icache, vcache := r'.value.vcache)
            && (Arrives(cfg, c) ==> Holds(r'.value.icache, prog.code, c.addr, c.size))
            && (!Arrives(cfg, c) ==> r'.value.icache == r.icache)
  {
    hide Holds, Sound, ImageRecs, MapRecs, FirstSeen, Touches;
    var image, maps := ImageRecs(cfg, prog.code, w.icache, c.addr, c.size), MapRecs(cfg, w.va2pa, c.pm, Touches(c));
    if Arrives(cfg, c) {
      RunImage(cfg, prog, w, c.addr, r);
    } else {
      WrapsFromLast(cfg, prog.code, w.icache, c.addr, c.size);
    }
    var r1 := Run(r, image).value;
    RunMaps(cfg, w.va2pa, c.pm, Touches(c), r1);
    RunConcat(r, image, maps);
  }

  /** An instruction whose code cannot have arrived makes the reader's page-present assertion fail. */
  lemma WrappedAborts(cfg: Config, prog: Program, w: WState, r: RState, r1: RState, c: Call, rest: seq<byte>,
                      h: Handlers)
    requires InStep(cfg, prog, w, r) && c.Execute? && 1 <= c.size < 16 && c.size == prog.sizeOf(c.addr)
    requires |c.addresses| <= MAX_DYNAMIC_ADDRESSES && LoopStops(cfg, c.addr, c.size) && !Arrives(cfg, c)
    requires r1 == r.(vcache := r1.vcache)
    ensures ReadOne(r1, InstructionBytes(r1.lastAddress, c, rest), h, []).result == Aborted
  {
    hide Holds, Sound, Decode, Put, ParseRec, ReadOne, InstructionBytes;
    WrapsFromLast(cfg, prog.code, w.icache, c.addr, c.size);
    LastPageAbsent(r.icache, prog.code, c.addr, c.size);
    var rec := MainRec(w, c);
    InstructionBytesPut(w, c, rest);
    assert c.addr !in r.scache;
    assert FindStatic(r1, c.addr, c.size).None?;
    ReadAborts(r1, rec, rest, h);
  }

  lemma ReadAborts(r: RState, rec: Rec, rest: seq<byte>, h: Handlers)
    requires WellFormed(rec) && !r.seenEnd && Apply(r, rec).Abort?
    ensures ReadOne(r, Put(rec, rest), h, []).result == Aborted
  {
    hide Apply, Put, ParseRec;
    ParsePut(rec, rest);
  }

  /** Exactly when an instruction gets through: for every call whose page loop stops, from any states in step, reading
      what the writer writes for it gives the instruction it was given if and only if its size is not 0, its executed
      flag is set or travels, and in page mode its code is below the last page. */
  lemma CallExact(cfg: Config, prog: Program, w: WState, r: RState, c: Call, rest: seq<byte>, h: Handlers)
    requires InStep(cfg, prog, w, r) && NoEmpty(r.scache)
    requires c.Execute? && c.size < 16 && |c.addresses| <= MAX_DYNAMIC_ADDRESSES && c.size == prog.sizeOf(c.addr)
    requires LoopStops(cfg, c.addr, c.size)
    ensures AllWellFormed(NeedRecs(cfg, prog.code, w, c))
    ensures var need := NeedRecs(cfg, prog.code, w, c);
            var o := ReadOne(r, PutAll(need, InstructionBytes(w.lastAddress, c, rest)), h, []);
            (o.result.Instruction? && o.r.log == r.log + Meaning(prog, r.isa, c)) <==>
            Survives(w.lastAddress, c) && Arrives(cfg, c)
  {
    NeedRecsFill(cfg, prog.code, w, c);
    hide InstructionBytes, Holds, Sound, CachedCode, CacheInv, CachedHeld, Known, CodeAt, ReadOne, NoEmpty, NeedRecs;
    hide AllFill, PutAll;
    var need, bytes := NeedRecs(cfg, prog.code, w, c), InstructionBytes(w.lastAddress, c, rest);
    ReadFills(r, need, bytes, h, []);
    var r1 := Run(r, need).value;
    if c.size == 0 {
      EmptyIsLost(prog, r1, c, bytes, h);
    } else {
      NeedsRun(cfg, prog, w, r, c);
      if Arrives(cfg, c) {
        InstructionExact(prog, r1, c, rest, h);
      } else {
        WrappedAborts(cfg, prog, w, r, r1, c, rest, h);
      }
    }
  }

  // ---- the page loop at the top of the address space ----

  /** The value of base_addr after `n` rounds of the page loop, in 64-bit arithmetic. */
  function BaseAfter(base: u64, n: nat): u64 {
    (base + n * PAGE) % TWO64
  }

  /** The page loop of Writer::Instruction stops if and only if the last byte is not on the last page. */
  lemma PageLoopStops(base: u64, end: u64)
    requires base % PAGE == 0 && end % PAGE == 0
    ensures (exists n: nat :: BaseAfter(base, n) > end) <==> end != LAST_PAGE
  {
    if end == LAST_PAGE {
      forall n: nat
        ensures BaseAfter(base, n) <= end
      {
        assert (base + n * PAGE) % PAGE == 0;
        assert BaseAfter(base, n) % PAGE == 0;
      }
    } else if base > end {
      assert BaseAfter(base, 0) > end;
    } else {
      var n := (end - base) / PAGE + 1;
      assert base + n * PAGE == end + PAGE;
      assert BaseAfter(base, n) > end;
    }
  }

  // ---- the instruction cache against plain lookups ----

  /** A lookup by address alone, without the links. */
  function PlainFind(r: RState, addr: u64, size: nat): Option<SInst> {
    if addr in r.scache then
      if r.scache[addr].size == size then Some(r.scache[addr]) else None
    else
      var data := Decode(r.icache, addr, size);
      if data.None? then None else Some(SInst(addr, size, data.value))
  }

  /** Following the link gives what the map gives, except that it does not notice a size that has changed. */
  lemma LinkedIsPlain(r: RState, addr: u64, size: nat)
    ensures FindStatic(r, addr, size) == PlainFind(r, addr, size) <==>
            !(Linked(r, addr) && r.scache[addr].size != size)
  {
  }

  /** Any sequence of accesses. */
  function Accesses(r: RState, accesses: seq<(u64, nat)>): Option<RState>
    decreases |accesses|
  {
    if accesses == [] then Some(r) else
    var s := FindStatic(r, accesses[0].0, accesses[0].1);
    if s.None? then None else Accesses(AfterStatic(r, accesses[0].0, s.value), accesses[1..])
  }

  /** The same accesses looked up by address alone. */
  function PlainAccesses(r: RState, accesses: seq<(u64, nat)>): Option<RState>
    decreases |accesses|
  {
    if accesses == [] then Some(r) else
    var s := PlainFind(r, accesses[0].0, accesses[0].1);
    if s.None? then None else PlainAccesses(AfterStatic(r, accesses[0].0, s.value), accesses[1..])
  }

  /** As long as every address keeps one size, every access gives what the lookup by address gives, and fails where it
      fails. */
  lemma {:induction false} AccessesPlain(r: RState, accesses: seq<(u64, nat)>, sizeOf: u64 -> nat)
    requires forall a :: a in r.scache ==> r.scache[a].size == sizeOf(a)
    requires forall i :: 0 <= i < |accesses| ==> accesses[i].1 == sizeOf(accesses[i].0)
    ensures Accesses(r, accesses) == PlainAccesses(r, accesses)
    decreases |accesses|
  {
    hide Decode;
    if accesses != [] {
      var (addr, size) := accesses[0];
      assert size == sizeOf(addr);
      LinkedIsPlain(r, addr, size);
      var s := FindStatic(r, addr, size);
      if s.Some? {
        AccessesPlain(AfterStatic(r, addr, s.value), accesses[1..], sizeOf);
      }
    }
  }

  /** An address that does change its size: after any two instructions in turn, the link hands out the second one
      whatever size is asked for, where the lookup by address fails. */
  lemma SizeChangeUnnoticed(r: RState, b: u64, k: nat, a: u64, n: nat, m: nat)
    requires r.scache == map[] && r.next == map[] && r.last == None && a != b && m != n
    requires Decode(r.icache, b, k).Some? && Decode(r.icache, a, n).Some?
    ensures var r' := Accesses(r, [(b, k), (a, n), (b, k)]);
            && r'.Some?
            && FindStatic(r'.value, a, m) == Some(SInst(a, n, Decode(r.icache, a, n).value))
            && PlainFind(r'.value, a, m).None?
  {
    hide Decode;
    var first, second := SInst(b, k, Decode(r.icache, b, k).value), SInst(a, n, Decode(r.icache, a, n).value);
    var r1 := AfterStatic(r, b, first);
    var r2 := AfterStatic(r1, a, second);
    var r3 := AfterStatic(r2, b, first);
    var all: seq<(u64, nat)> := [(b, k), (a, n), (b, k)];
    assert all[1..] == [(a, n), (b, k)] && all[1..][1..] == [(b, k)] && all[1..][1..][1..] == [];
    assert Accesses(r2, all[1..][1..]) == Some(r3);
    assert Accesses(r1, all[1..]) == Some(r3);
  }

  /** Over any sequence of accesses: cached instructions are never replaced, a link once written stays, and every
      link leads from a cached instruction to a cached instruction with the right address. */
  lemma {:induction false} AccessesKeep(r: RState, accesses: seq<(u64, nat)>)
    requires CacheInv(r.scache, r.next, r.last) && Accesses(r, accesses).Some?
    ensures var r' := Accesses(r, accesses).value;
            && CacheInv(r'.scache, r'.next, r'.last)
            && (forall a :: a in r.scache ==> a in r'.scache && r'.scache[a] == r.scache[a])
            && (forall a :: a in r.next ==> a in r'.next && r'.next[a] == r.next[a])
            && (forall a :: a in r'.scache <==> a in r.scache || exists i :: 0 <= i < |accesses| && accesses[i].0 == a)
    decreases |accesses|
  {
    hide Decode;
    if accesses != [] {
      var (addr, size) := accesses[0];
      var r1 := AfterStatic(r, addr, FindStatic(r, addr, size).value);
      assert CacheInv(r1.scache, r1.next, r1.last);
      AccessesKeep(r1, accesses[1..]);
      var r' := Accesses(r, accesses).value;
      forall a
        ensures a in r'.scache <==> a in r.scache || exists i :: 0 <= i < |accesses| && accesses[i].0 == a
      {
        if exists i :: 0 <= i < |accesses| && accesses[i].0 == a {
          var i :| 0 <= i < |accesses| && accesses[i].0 == a;
          if i > 0 {
            assert accesses[1..][i - 1].0 == a;
          }
        }
        if exists i :: 0 <= i < |accesses[1..]| && accesses[1..][i].0 == a {
          var i :| 0 <= i < |accesses[1..]| && accesses[1..][i].0 == a;
          assert accesses[i + 1].0 == a;
        }
      }
    }
  }

  /** While the two sides are in step, every cached instruction is what decoding it again would give. */
  lemma CachedIsFresh(cfg: Config, prog: Program, w: WState, r: RState, a: u64)
    requires InStep(cfg, prog, w, r) && a in r.scache
    ensures Decode(r.icache, a, r.scache[a].size) == Some(r.scache[a].data)
    ensures r.scache[a].data == Known(CodeAt(prog.code, a, prog.sizeOf(a)))
  {
    hide Holds, Decode, Known, CodeAt;
    DecodeHolds(r.icache, prog.code, a, prog.sizeOf(a));
  }
}
