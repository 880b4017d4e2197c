/** Sift::Reader as an object: a byte stream to read from, code pages, and a cache of instruction objects linked to
    their likely successors (sift/sift_reader.h, sift/sift_reader.cc). */
module SiftReader {
  import opened Collections
  import opened Bytes
  import opened SiftFormat
  import opened SiftImage
  import opened SiftMessages
  import opened SiftReading
  import opened SiftWaiting

  class StaticInstruction {
    const addr: u64
    const size: nat
    const data: seq<Option<byte>>
    var next: StaticInstruction?

    constructor (addr: u64, size: nat, data: seq<Option<byte>>)
      ensures this.addr == addr && this.size == size && this.data == data && next == null
    {
      this.addr, this.size, this.data := addr, size, data;
      next := null;
    }

    function Value(): SInst {
      SInst(addr, size, data)
    }
  }

  lemma AfterStaticFields(r: RState, addr: u64, s: SInst)
    ensures AfterStatic(r, addr, s).log == r.log && AfterStatic(r, addr, s).isa == r.isa
  {
  }

  function PutMsgs(ms: seq<Msg>): seq<byte> {
    if ms == [] then [] else PutMsgs(ms[..|ms| - 1]) + PutMsg(ms[|ms| - 1], [])
  }

  lemma PutMsgsNone()
    ensures PutMsgs([]) == []
  {
  }

  lemma {:induction false} PutMsgsConcat(xs: seq<Msg>, ys: seq<Msg>)
    ensures PutMsgs(xs + ys) == PutMsgs(xs) + PutMsgs(ys)
    decreases |ys|
  {
    hide PutMsg;
    if ys == [] {
      assert xs + ys == xs;
    } else {
      var y := ys[|ys| - 1];
      PutMsgsConcat(xs, ys[..|ys| - 1]);
      assert (xs + ys)[..|xs + ys| - 1] == xs + ys[..|ys| - 1];
    }
  }

  lemma DecodeStep(img: Image, a: u64, size: nat)
    ensures size == 0 ==> Decode(img, a, size) == Some([])
    ensures size > 0 && PageOf(a) !in img ==> Decode(img, a, size).None?
    ensures size > 0 && PageOf(a) in img ==>
              var n := OnPage(a, size);
              var tail := Decode(img, NextPage(a), size - n);
              Decode(img, a, size) ==
              if tail.None? then None else Some(img[PageOf(a)][a % PAGE..a % PAGE + n] + tail.value)
  {
  }

  /** `dst` is the beginning of the decode, and what is left of it starts at `at`. */
  ghost predicate Copied(img: Image, addr: u64, size: nat, dst: seq<Option<byte>>, at: u64, left: nat) {
    var tail := Decode(img, at, left);
    Decode(img, addr, size) == if tail.None? then None else Some(dst + tail.value)
  }

  lemma CopiedNone(img: Image, addr: u64, size: nat)
    ensures Copied(img, addr, size, [], addr, size)
  {
    hide Decode;
    if Decode(img, addr, size).Some? {
      assert [] + Decode(img, addr, size).value == Decode(img, addr, size).value;
    }
  }

  lemma CopiedMore(img: Image, addr: u64, size: nat, dst: seq<Option<byte>>, at: u64, left: nat)
    requires left > 0 && Copied(img, addr, size, dst, at, left)
    ensures PageOf(at) !in img ==> Decode(img, addr, size).None?
    ensures PageOf(at) in img ==>
              var n := OnPage(at, left);
              Copied(img, addr, size, dst + img[PageOf(at)][at % PAGE..at % PAGE + n], NextPage(at), left - n)
  {
    hide Decode, PageOf, NextPage;
    DecodeStep(img, at, left);
    if PageOf(at) in img {
      var n := OnPage(at, left);
      var tail := Decode(img, NextPage(at), left - n);
      if tail.Some? {
        var part := img[PageOf(at)][at % PAGE..at % PAGE + n];
        assert dst + (part + tail.value) == dst + part + tail.value;
      }
    }
  }

  lemma CopiedAll(img: Image, addr: u64, size: nat, dst: seq<Option<byte>>, at: u64)
    requires Copied(img, addr, size, dst, at, 0)
    ensures Decode(img, addr, size) == Some(dst)
  {
    hide Decode;
    DecodeStep(img, at, 0);
    assert dst + [] == dst;
  }

  /** The answer that was put off is one that a magic request takes as 0. */
  lemma PostponedAnswer(q: Rec, mem: Memory, rest: seq<byte>)
    requires q.Magic?
    ensures WaitNext(q, mem, PutMsg(MagicResponse(0), rest)) == Done(Word(0), rest)
  {
    hide WaitNext, PutMsg;
    WaitForResponse(q, Answer(0, 0, 0, false, seq(EMU_REPLY_SIZE, i => 0)), mem, rest);
  }

  lemma MagicAppend(rest: seq<byte>)
    ensures PutMsg(MagicResponse(0), []) + rest == PutMsg(MagicResponse(0), rest)
  {
    hide Header, LE64;
    HeaderAppend(MAGIC_RESPONSE, 8, LE64(0) + [], rest);
    assert LE64(0) + [] + rest == LE64(0) + rest;
  }

  class Reader {
    var input: seq<byte>
    var response: seq<byte>
    var lastAddress: u64
    var icache: Image
    var scache: map<u64, StaticInstruction>
    var lastSinst: StaticInstruction?
    var vcache: map<u64, u64>
    var isa: u32
    var seenEnd: bool
    var log: seq<Item>

    ghost predicate Valid()
      reads this`scache, this`lastSinst, scache.Values
    {
      && (forall a :: a in scache ==> scache[a].addr == a)
      && (forall a :: a in scache && scache[a].next != null ==>
            scache[a].next.addr in scache && scache[scache[a].next.addr] == scache[a].next)
      && (lastSinst != null ==> lastSinst.addr in scache && scache[lastSinst.addr] == lastSinst)
    }

    ghost function Insts(): map<u64, SInst>
      reads this`scache
    {
      map a | a in scache :: scache[a].Value()
    }

    ghost function Links(): map<u64, u64>
      reads this`scache, scache.Values
    {
      map a | a in scache && scache[a].next != null :: scache[a].next.addr
    }

    /** The reader's state, with instruction objects known by their addresses. */
    ghost function View(): RState
      reads this`lastAddress, this`icache, this`scache, this`lastSinst, this`vcache, this`isa, this`seenEnd, this`log
      reads scache.Values
    {
      RState(lastAddress, icache, Insts(), Links(), if lastSinst == null then None else Some(lastSinst.addr),
             vcache, isa, seenEnd, log)
    }

    lemma ViewFields()
      ensures View().seenEnd == seenEnd && View().log == log
    {
    }

    constructor (input: seq<byte>)
      ensures Valid() && fresh(scache.Values)
      ensures View() == Initial() && this.input == input && response == []
    {
      this.input, response := input, [];
      lastAddress, icache, scache, lastSinst := 0, map[], map[], null;
      vcache, isa, seenEnd, log := map[], 0, false, [];
      new;
      assert Insts() == map[] && Links() == map[];
    }

    /** staticInfoInstruction's copying loop. */
    method CopyCode(addr: u64, size: nat) returns (data: Option<seq<Option<byte>>>)
      ensures data == Decode(icache, addr, size)
    {
      hide PageOf, NextPage, Decode, Copied;
      var dst: seq<Option<byte>> := [];
      var base: u64 := PageOf(addr);
      var left: nat := size;
      ghost var at: u64 := addr;
      CopiedNone(icache, addr, size);
      while left > 0
        invariant left <= size && base == PageOf(at)
        invariant at % PAGE == if dst == [] then addr % PAGE else 0
        invariant left == size ==> dst == []
        invariant Copied(icache, addr, size, dst, at, left)
      {
        var offset := if dst == [] then addr % PAGE else 0;
        var n := if left < PAGE - offset then left else PAGE - offset;
        CopiedMore(icache, addr, size, dst, at, left);
        if base !in icache {
          return None;
        }
        dst := dst + icache[base][offset..offset + n];
        left := left - n;
        base := NextPage(base);
        NextPageAligned(at);
        NextPageOf(at);
        at := NextPage(at);
      }
      data := Some(dst);
      CopiedAll(icache, addr, size, dst, at);
    }

    method AddStaticInstruction(addr: u64, size: nat, data: seq<Option<byte>>) returns (s: StaticInstruction)
      requires Valid() && addr !in scache
      modifies this`scache
      ensures Valid() && fresh(s) && scache == old(scache)[addr := s] && s.Value() == SInst(addr, size, data)
      ensures View() == old(View()).(scache := old(View()).scache[addr := s.Value()])
    {
      s := new StaticInstruction(addr, size, data);
      scache := scache[addr := s];
      assert Insts() == old(Insts())[addr := s.Value()];
      assert Links() == old(Links());
    }

    /** The first half of getStaticInstruction: by link, by map, or decoded and cached. */
    method FindStaticInstruction(addr: u64, size: nat) returns (s: StaticInstruction?)
      requires Valid()
      modifies this`scache
      ensures Valid() && fresh(scache.Values - old(scache.Values))
      ensures s == null ==> FindStatic(old(View()), addr, size).None? && View() == old(View())
      ensures s != null ==>
                && addr in scache && s == scache[addr]
                && FindStatic(old(View()), addr, size) == Some(s.Value())
                && View() == old(View()).(scache := old(View()).scache[addr := s.Value()])
      ensures forall a :: a in old(scache) ==> a in scache && scache[a] == old(scache)[a]
    {
      hide Decode;
      if lastSinst != null && lastSinst.next != null && lastSinst.next.addr == addr {
        s := lastSinst.next;
        assert Insts()[addr := s.Value()] == Insts();
      } else if addr in scache {
        if scache[addr].size != size {
          return null;
        }
        s := scache[addr];
        assert Insts()[addr := s.Value()] == Insts();
      } else {
        var data := CopyCode(addr, size);
        if data.None? {
          return null;
        }
        s := AddStaticInstruction(addr, size, data.value);
      }
    }

    /** The second half: link the previous instruction to this one unless it has a link, and remember this one. */
    method LinkStaticInstruction(s: StaticInstruction)
      requires Valid() && s.addr in scache && scache[s.addr] == s
      modifies this`lastSinst, scache.Values
      ensures Valid() && scache == old(scache)
      ensures View() == AfterStatic(old(View()), s.addr, s.Value())
      ensures forall a :: a in scache && old(scache[a].next) != null ==> scache[a].next == old(scache[a].next)
    {
      if lastSinst != null && lastSinst.next == null {
        lastSinst.next := s;
      }
      lastSinst := s;
      assert Insts()[s.addr := s.Value()] == Insts();
      assert Links() == AfterStatic(old(View()), s.addr, s.Value()).next;
    }

    /** getStaticInstruction; null stands for a failed assertion. */
    method GetStaticInstruction(addr: u64, size: nat) returns (s: StaticInstruction?)
      requires Valid()
      modifies this`scache, this`lastSinst, scache.Values
      ensures Valid() && fresh(scache.Values - old(scache.Values))
      ensures s == null ==> FindStatic(old(View()), addr, size).None? && View() == old(View())
      ensures s != null ==>
                && addr in scache && s == scache[addr]
                && FindStatic(old(View()), addr, size) == Some(s.Value())
                && View() == AfterStatic(old(View()), addr, s.Value())
      // one object an address, and a link is written once
      ensures forall a :: a in old(scache) ==> a in scache && scache[a] == old(scache)[a]
      ensures forall a :: a in old(scache) && old(scache[a].next) != null ==> scache[a].next == old(scache[a].next)
    {
      hide FindStatic;
      s := FindStaticInstruction(addr, size);
      if s != null {
        LinkStaticInstruction(s);
      }
    }

    /** The page-splitting loop of the RecOtherIcacheVariable case. */
    method StoreVariable(address: u64, bytes: seq<byte>)
      modifies this`icache
      ensures icache == Store(old(icache), address, bytes)
    {
      hide Splice;
      var at: u64 := address;
      var left := bytes;
      while left != []
        invariant Store(old(icache), address, bytes) == Store(icache, at, left)
        decreases |left|
      {
        var base: u64 := PageOf(at);
        ghost var img := icache;
        if base !in icache {
          icache := icache[base := Blank()];
        }
        var offset := at % PAGE;
        var n := if |left| < PAGE - offset then |left| else PAGE - offset;
        var page := Splice(icache[base], offset, left[..n]);
        icache := icache[base := page];
        assert icache == img[base := page];
        left := left[n..];
        at := (base + PAGE) % TWO64;
      }
    }

    /** The instruction part of Read; false is a failed assertion. */
    method ReadInstruction(rec: Rec) returns (ok: bool)
      requires Valid() && (rec.Simple? || rec.Ext?)
      modifies this`scache, this`lastSinst, this`lastAddress, this`log, scache.Values
      ensures Valid() && fresh(scache.Values - old(scache.Values))
      ensures !ok ==> Apply(old(View()), rec).Abort? && View() == old(View())
      ensures ok ==> Apply(old(View()), rec) == Return(View())
    {
      hide FindStatic, AfterStatic, Insts, Links, Apply;
      ApplyMain(View(), rec);
      var addr := if rec.Simple? then lastAddress else rec.addr;
      var isPredicate := rec.Ext? && rec.isPredicate;
      var executed := rec.Simple? || rec.executed;
      var s := GetStaticInstruction(addr, rec.size);
      if s == null {
        return false;
      }
      lastAddress := Plus(addr, rec.size);
      log := log + [Inst(s.Value(), rec.addresses, rec.isBranch, rec.taken, isPredicate, executed, isa)];
      ok := true;
      AfterStaticFields(old(View()), addr, s.Value());
    }

    /** The other records of Read, up to the answer of those that ask for one. */
    method ReadOther(rec: Rec)
      requires Valid() && !rec.Simple? && !rec.Ext?
      modifies this`icache, this`vcache, this`isa, this`seenEnd, this`log
      ensures Valid()
      ensures !Apply(old(View()), rec).Abort? && View() == Apply(old(View()), rec).r
    {
      hide Store, Known, Insts, Links, Apply;
      ghost var r := View();
      if rec.Icache? {
        icache := icache[rec.base := Known(rec.page)];
        ApplyIcache(r, rec.base, rec.page);
      } else if rec.IcacheVariable? {
        StoreVariable(rec.base, rec.data);
        ApplyIcacheVariable(r, rec.base, rec.data);
      } else if rec.Logical2Physical? {
        vcache := vcache[rec.vp := rec.pp];
        ApplyMapping(r, rec.vp, rec.pp);
      } else if rec.IsaChange? {
        isa := rec.isa;
        ApplyIsa(r, rec.isa);
      } else if rec.End? {
        seenEnd := true;
        ApplyEnd(r);
      } else if rec.Unknown? {
        ApplyUnknown(r, rec);
      } else {
        log := log + [Delivered(rec)];
        ApplyDelivered(r, rec);
      }
    }

    /** sendSimpleResponse and its siblings. */
    method Send(m: Msg)
      modifies this`response
      ensures response == old(response) + PutMsg(m, [])
    {
      response := response + PutMsg(m, []);
    }

    /** Delivers a record that is no instruction and not the end, and answers it if it asks; true if the answer is
        put off. */
    method Serve(rec: Rec, h: Handlers) returns (deferred: bool, sent: seq<Msg>)
      requires Valid() && !rec.Simple? && !rec.Ext? && !rec.End?
      modifies this`icache, this`vcache, this`isa, this`seenEnd, this`log, this`response
      ensures Valid() && !Apply(old(View()), rec).Abort? && View() == Apply(old(View()), rec).r
      ensures deferred <==> Asks(rec) && Defers(rec, h(log))
      ensures sent == if Asks(rec) && !Defers(rec, h(log)) then [Respond(rec, h(log))] else []
      ensures response == old(response) + PutMsgs(sent)
    {
      hide Apply, PutMsg, Insts, Links, Respond;
      ReadOther(rec);
      deferred, sent := false, [];
      if Asks(rec) {
        var ans := h(log);
        deferred := Defers(rec, ans);
        if !deferred {
          sent := [Respond(rec, ans)];
          Send(sent[0]);
        }
      }
    }

    /** One round of the Read loop; `done` tells whether Read returns. */
    method Round(h: Handlers, sent0: seq<Msg>) returns (done: bool, result: ReadResult, sent: seq<Msg>)
      requires Valid() && !seenEnd
      modifies this, scache.Values
      ensures Valid() && fresh(scache.Values - old(scache.Values))
      ensures ReadOne(old(View()), old(input), h, sent0) ==
              if done then ReadOut(result, View(), input, sent0 + sent) else ReadOne(View(), input, h, sent0 + sent)
      ensures !done ==> |input| < |old(input)|
      ensures response == old(response) + PutMsgs(sent)
    {
      hide ParseRec, Apply, PutMsg, Valid, View, Respond, ReadOne, Asks, Defers;
      ViewFields();
      sent, done, result := [], true, Starved;
      assert sent0 + [] == sent0;
      var p := ParseRec(input);
      ReadOneStops(View(), input, h, sent0);
      if p.Short? {
        result := Starved;
      } else if p.Malformed? {
        result := Aborted;
      } else if p.value.Simple? || p.value.Ext? {
        var ok := ReadInstruction(p.value);
        if ok {
          input := p.rest;
        }
        result := if ok then Instruction else Aborted;
      } else if p.value.End? {
        ReadOther(p.value);
        input := p.rest;
        result := TraceEnd;
      } else {
        ReadOneRound(View(), input, h, sent0);
        done, sent := Serve(p.value, h);
        ViewFields();
        input := p.rest;
        result := Deferred;
      }
    }

    /** Read: the next instruction, after everything before it has gone to the handlers and been answered. */
    method Read(h: Handlers) returns (result: ReadResult, sent: seq<Msg>)
      requires Valid()
      modifies this, scache.Values
      ensures Valid() && fresh(scache.Values - old(scache.Values))
      ensures ReadOne(old(View()), old(input), h, []) == ReadOut(result, View(), input, sent)
      ensures response == old(response) + PutMsgs(sent)
    {
      hide ParseRec, Apply, PutMsg, Insts, Links, Respond, ReadOne, PutMsgs;
      sent := [];
      PutMsgsNone();
      while !seenEnd
        invariant Valid() && fresh(scache.Values - old(scache.Values))
        invariant response == old(response) + PutMsgs(sent)
        invariant ReadOne(old(View()), old(input), h, []) == ReadOne(View(), input, h, sent)
        decreases |input|
      {
        var done, res, more := Round(h, sent);
        PutMsgsConcat(sent, more);
        sent := sent + more;
        if done {
          return res, sent;
        }
      }
      ReadOneStops(View(), input, h, sent);
      result := AfterEnd;
    }

    /** AccessMemory: a request on the response pipe, and what comes back on the input. */
    method AccessMemory(m: MemOp) returns (a: Access)
      requires Formed(m)
      modifies this`input, this`response
      ensures response == old(response) + PutMsg(RequestFor(m), [])
      ensures a == TakeMemory(m, old(input))
      ensures input == if a.Success? then a.rest else old(input)
      // the response that a direct access would have produced is taken for a success with its result
      ensures forall mem: Memory, rest: seq<byte> ::
                MemOpOk(m) && old(input) == PutMemResponse(m.addr, m.op, DirectResult(mem, m), rest) ==>
                a == Success(DirectResult(mem, m), rest)
    {
      hide TakeMemory, PutMemResponse, PutMsg;
      Send(RequestFor(m));
      a := TakeMemory(m, input);
      if a.Success? {
        input := a.rest;
      }
      forall mem: Memory, rest: seq<byte> |
             MemOpOk(m) && old(input) == PutMemResponse(m.addr, m.op, DirectResult(mem, m), rest)
        ensures a == Success(DirectResult(mem, m), rest)
      {
        TakeMemoryResponse(m, DirectResult(mem, m), rest);
      }
    }

    /** sendResponseAfterContextSwitch: the answer that was put off. A writer that waits on a magic request, having
        taken everything before it, returns 0 from that wait and leaves nothing of the answer behind. */
    method SendResponseAfterContextSwitch()
      modifies this`response
      ensures response == old(response) + PutMsg(MagicResponse(0), [])
      ensures forall q: Rec, mem: Memory, rest: seq<byte> :: q.Magic? ==>
                WaitNext(q, mem, response[|old(response)|..] + rest) == Done(Word(0), rest)
    {
      hide PutMsg, WaitNext;
      Send(MagicResponse(0));
      ghost var sent := PutMsg(MagicResponse(0), []);
      assert response[|old(response)|..] == sent;
      forall q: Rec, mem: Memory, rest: seq<byte> | q.Magic?
        ensures WaitNext(q, mem, sent + rest) == Done(Word(0), rest)
      {
        PostponedAnswer(q, mem, rest);
        MagicAppend(rest);
      }
    }
  }
}
