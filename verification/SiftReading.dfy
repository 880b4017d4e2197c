/** What Sift::Reader does with a trace, record by record (sift/sift_reader.cc). */
module SiftReading {
  import opened Collections
  import opened Bytes
  import opened SiftFormat
  import opened SiftImage
  import opened SiftMessages

  datatype SInst = SInst(addr: u64, size: nat, data: seq<Option<byte>>)

  /** What the simulator receives: an instruction from Read, or a record through one of the handlers. */
  datatype Item =
    | Inst(sinst: SInst, addresses: seq<u64>, isBranch: bool, taken: bool, isPredicate: bool, executed: bool, isa: u32)
    | Delivered(rec: Rec)

  /** The reader's fields. `next` holds the links between cached instructions, by address. */
  datatype RState = RState(
    lastAddress: u64, icache: Image, scache: map<u64, SInst>, next: map<u64, u64>, last: Option<u64>,
    vcache: map<u64, u64>, isa: u32, seenEnd: bool, log: seq<Item>)

  function Initial(): RState {
    RState(0, map[], map[], map[], None, map[], 0, false, [])
  }

  // ---- static instructions ----

  /** The previous instruction's link leads to this address. */
  predicate Linked(r: RState, addr: u64) {
    r.last.Some? && r.last.value in r.next && r.next[r.last.value] == addr && addr in r.scache
  }

  /** None is a failed assertion: a missing page, or a size that differs from the cached one. The linked
      path does not look at the size. */
  function FindStatic(r: RState, addr: u64, size: nat): Option<SInst> {
    if Linked(r, addr) then
      Some(r.scache[addr])
    else if addr in r.scache then
      if r.scache[addr].size == size then Some(r.scache[addr]) else None
    else
      var data := Decode(r.icache, addr, size);
      if data.None? then None else Some(SInst(addr, size, data.value))
  }

  function AfterStatic(r: RState, addr: u64, s: SInst): RState {
    r.(scache := r.scache[addr := s],
       next := if r.last.Some? && r.last.value !in r.next then r.next[r.last.value := addr] else r.next,
       last := Some(addr))
  }

  // ---- records ----

  datatype Applied = Go(r: RState) | Return(r: RState) | Ask(r: RState) | Finish(r: RState) | Abort

  function ApplyInstruction(r: RState, rec: Rec, addr: u64, isPredicate: bool, executed: bool): Applied
    requires rec.Simple? || rec.Ext?
  {
    var s := FindStatic(r, addr, rec.size);
    if s.None? then Abort else
    var item := Inst(s.value, rec.addresses, rec.isBranch, rec.taken, isPredicate, executed, r.isa);
    Return(AfterStatic(r, addr, s.value).(lastAddress := Plus(addr, rec.size), log := r.log + [item]))
  }

  function Deliver(r: RState, rec: Rec): RState {
    r.(log := r.log + [Delivered(rec)])
  }

  function Apply(r: RState, rec: Rec): (a: Applied)
    ensures a.Ask? <==> Asks(rec)
    ensures a.Return? || a.Abort? ==> rec.Simple? || rec.Ext?
    ensures a.Finish? <==> rec.End?
    ensures !a.Abort? && !rec.End? ==> a.r.seenEnd == r.seenEnd
  {
    match rec
    case Simple(_, _, _, _) => ApplyInstruction(r, rec, r.lastAddress, false, true)
    case Ext(_, _, _, _, isPredicate, executed, addr) => ApplyInstruction(r, rec, addr, isPredicate, executed)
    case Icache(base, page) => Go(r.(icache := r.icache[base := Known(page)]))
    case IcacheVariable(base, data) => Go(r.(icache := Store(r.icache, base, data)))
    case Logical2Physical(vp, pp) => Go(r.(vcache := r.vcache[vp := pp]))
    case IsaChange(isa) => Go(r.(isa := isa))
    case End => Finish(r.(seenEnd := true))
    case Unknown(_, _) => Go(r)
    case _ => if Asks(rec) then Ask(Deliver(r, rec)) else Go(Deliver(r, rec))
  }

  /** Reader::va2pa, for a trace that has physical addresses; 0 when the page is unknown. */
  function Va2pa(r: RState, va: u64): u64 {
    var vp := va / PAGE;
    if vp !in r.vcache then 0 else (r.vcache[vp] * PAGE % TWO64) + va % PAGE
  }

  // ---- the Read loop ----

  type Handlers = seq<Item> -> Answer

  datatype ReadResult = Instruction | Deferred | TraceEnd | AfterEnd | Starved | Aborted
  datatype ReadOut = ReadOut(result: ReadResult, r: RState, rest: seq<byte>, sent: seq<Msg>)

  /** One call of Read. The handlers see everything received so far and give the answers that are sent
      back; Starved is a read that finds the stream too short. */
  function ReadOne(r: RState, input: seq<byte>, h: Handlers, sent: seq<Msg>): ReadOut
    decreases |input|
  {
    if r.seenEnd then ReadOut(AfterEnd, r, input, sent) else
    var p := ParseRec(input);
    if p.Short? then ReadOut(Starved, r, input, sent) else
    if p.Malformed? then ReadOut(Aborted, r, input, sent) else
    match Apply(r, p.value)
    case Go(r') => ReadOne(r', p.rest, h, sent)
    case Return(r') => ReadOut(Instruction, r', p.rest, sent)
    case Ask(r') =>
      var ans := h(r'.log);
      if Defers(p.value, ans) then ReadOut(Deferred, r', p.rest, sent)
      else ReadOne(r', p.rest, h, sent + [Respond(p.value, ans)])
    case Finish(r') => ReadOut(TraceEnd, r', p.rest, sent)
    case Abort => ReadOut(Aborted, r, input, sent)
  }

  lemma {:induction false} ReadOneShrinks(r: RState, input: seq<byte>, h: Handlers, sent: seq<Msg>)
    ensures var o := ReadOne(r, input, h, sent);
            (o.result.Instruction? || o.result.Deferred? ==> |o.rest| < |input|)
    decreases |input|
  {
    hide ParseRec, Apply, Respond;
    var p := ParseRec(input);
    if !r.seenEnd && p.Scanned? {
      match Apply(r, p.value)
      case Go(r') => ReadOneShrinks(r', p.rest, h, sent);
      case Ask(r') =>
        var ans := h(r'.log);
        if !Defers(p.value, ans) {
          ReadOneShrinks(r', p.rest, h, sent + [Respond(p.value, ans)]);
        }
      case _ =>
    }
  }

  /** One round of the Read loop on a record that is no instruction and not the end. */
  lemma ReadOneRound(r: RState, input: seq<byte>, h: Handlers, sent: seq<Msg>)
    requires !r.seenEnd && ParseRec(input).Scanned?
    requires var rec := ParseRec(input).value; !rec.Simple? && !rec.Ext? && !rec.End?
    ensures var p := ParseRec(input);
            var r' := Apply(r, p.value).r;
            ReadOne(r, input, h, sent) ==
            if !Asks(p.value) then ReadOne(r', p.rest, h, sent)
            else if Defers(p.value, h(r'.log)) then ReadOut(Deferred, r', p.rest, sent)
            else ReadOne(r', p.rest, h, sent + [Respond(p.value, h(r'.log))])
  {
    hide ParseRec, Apply, Respond;
  }

  /** The ways a call of Read comes to its end. */
  lemma ReadOneStops(r: RState, input: seq<byte>, h: Handlers, sent: seq<Msg>)
    ensures var p := ParseRec(input);
            var o := ReadOne(r, input, h, sent);
            && (r.seenEnd ==> o == ReadOut(AfterEnd, r, input, sent))
            && (!r.seenEnd && p.Short? ==> o == ReadOut(Starved, r, input, sent))
            && (!r.seenEnd && p.Malformed? ==> o == ReadOut(Aborted, r, input, sent))
            && (!r.seenEnd && p.Scanned? && Apply(r, p.value).Abort? ==> o == ReadOut(Aborted, r, input, sent))
            && (!r.seenEnd && p.Scanned? && Apply(r, p.value).Return? ==>
                  o == ReadOut(Instruction, Apply(r, p.value).r, p.rest, sent))
            && (!r.seenEnd && p.Scanned? && p.value.End? ==> o == ReadOut(TraceEnd, Apply(r, p.value).r, p.rest, sent))
  {
    hide ParseRec, Apply, Respond;
  }

  /** Calling Read until it says the trace is over, or fails. */
  function ReadAll(r: RState, input: seq<byte>, h: Handlers, sent: seq<Msg>): ReadOut
    decreases |input|
  {
    ReadOneShrinks(r, input, h, sent);
    var o := ReadOne(r, input, h, sent);
    if o.result.Instruction? || o.result.Deferred? then ReadAll(o.r, o.rest, h, o.sent) else o
  }

  /** What was sent before does not matter to what comes next. */
  lemma {:induction false} ReadOneSent(r: RState, input: seq<byte>, h: Handlers, sent: seq<Msg>)
    ensures var o := ReadOne(r, input, h, []);
            ReadOne(r, input, h, sent) == o.(sent := sent + o.sent)
    decreases |input|
  {
    hide ParseRec, Apply, Defers, Respond;
    assert sent + [] == sent;
    if !r.seenEnd && ParseRec(input).Scanned? {
      var p := ParseRec(input);
      var a := Apply(r, p.value);
      if a.Go? {
        ReadOneSent(a.r, p.rest, h, sent);
      } else if a.Ask? && !Defers(p.value, h(a.r.log)) {
        var reply := [Respond(p.value, h(a.r.log))];
        ReadOneSent(a.r, p.rest, h, sent + reply);
        ReadOneSent(a.r, p.rest, h, reply);
        var more := ReadOne(a.r, p.rest, h, []).sent;
        assert [] + reply == reply && sent + reply + more == sent + (reply + more);
      }
    }
  }

  lemma {:induction false} ReadAllSent(r: RState, input: seq<byte>, h: Handlers, sent: seq<Msg>, sent': seq<Msg>)
    ensures var o, o' := ReadAll(r, input, h, sent), ReadAll(r, input, h, sent');
            o.result == o'.result && o.r == o'.r && o.rest == o'.rest
    decreases |input|
  {
    hide ReadOne;
    ReadOneSent(r, input, h, sent);
    ReadOneSent(r, input, h, sent');
    ReadOneShrinks(r, input, h, []);
    var o := ReadOne(r, input, h, []);
    if o.result.Instruction? || o.result.Deferred? {
      ReadAllSent(o.r, o.rest, h, sent + o.sent, sent' + o.sent);
    }
  }

  // ---- records without bytes ----

  /** The state after a sequence of records, None if an assertion fails. */
  function Run(r: RState, recs: seq<Rec>): Option<RState>
    decreases |recs|
  {
    if recs == [] then Some(r) else
    var a := Apply(r, recs[0]);
    if a.Abort? then None else Run(a.r, recs[1..])
  }

  lemma {:induction false} RunConcat(r: RState, xs: seq<Rec>, ys: seq<Rec>)
    requires Run(r, xs).Some?
    ensures Run(r, xs + ys) == Run(Run(r, xs).value, ys)
    decreases |xs|
  {
    hide Apply;
    if xs == [] {
      assert xs + ys == ys;
    } else {
      RunConcat(Apply(r, xs[0]).r, xs[1..], ys);
      assert (xs + ys)[1..] == xs[1..] + ys;
    }
  }

  lemma RunCons(r: RState, rec: Rec, rest: seq<Rec>)
    requires !Apply(r, rec).Abort?
    ensures Run(r, [rec] + rest) == Run(Apply(r, rec).r, rest)
  {
    hide Apply;
    assert ([rec] + rest)[1..] == rest;
  }

  ghost predicate NoEnd(recs: seq<Rec>) {
    forall i :: 0 <= i < |recs| ==> !recs[i].End?
  }

  lemma ApplyLogs(r: RState, rec: Rec)
    requires !Apply(r, rec).Abort?
    ensures r.log <= Apply(r, rec).r.log
  {
  }

  /** What was delivered stays delivered. */
  lemma {:induction false} RunLogs(r: RState, recs: seq<Rec>)
    requires Run(r, recs).Some?
    ensures r.log <= Run(r, recs).value.log
    decreases |recs|
  {
    hide Apply;
    if recs != [] {
      ApplyLogs(r, recs[0]);
      RunLogs(Apply(r, recs[0]).r, recs[1..]);
    }
  }

  /** The responses a sequence of records draws, given the handlers. */
  function Replies(r: RState, recs: seq<Rec>, h: Handlers): seq<Msg>
    decreases |recs|
  {
    if recs == [] then [] else
    var a := Apply(r, recs[0]);
    if a.Abort? then [] else
    (if a.Ask? && !Defers(recs[0], h(a.r.log)) then [Respond(recs[0], h(a.r.log))] else []) +
    Replies(a.r, recs[1..], h)
  }

  // Single cases of Apply, for proofs that go on without its definition.

  lemma ApplyIcache(r: RState, base: u64, page: CodePage)
    ensures Apply(r, Icache(base, page)) == Go(r.(icache := r.icache[base := Known(page)]))
  {
  }

  lemma ApplyIcacheVariable(r: RState, base: u64, data: seq<byte>)
    ensures Apply(r, IcacheVariable(base, data)) == Go(r.(icache := Store(r.icache, base, data)))
  {
  }

  lemma ApplyMapping(r: RState, vp: u64, pp: u64)
    ensures Apply(r, Logical2Physical(vp, pp)) == Go(r.(vcache := r.vcache[vp := pp]))
  {
  }

  lemma ApplyMain(r: RState, rec: Rec)
    requires rec.Simple? || rec.Ext?
    ensures Apply(r, rec) == if rec.Simple? then ApplyInstruction(r, rec, r.lastAddress, false, true)
                             else ApplyInstruction(r, rec, rec.addr, rec.isPredicate, rec.executed)
  {
  }

  lemma ApplyIsa(r: RState, isa: u32)
    ensures Apply(r, IsaChange(isa)) == Go(r.(isa := isa))
  {
  }

  lemma ApplyUnknown(r: RState, rec: Rec)
    requires rec.Unknown?
    ensures Apply(r, rec) == Go(r)
  {
  }

  predicate IsDelivered(rec: Rec) {
    Asks(rec) || rec.CacheOnly? || rec.Output? || rec.RoutineChange? || rec.RoutineAnnounce?
  }

  lemma ApplyDelivered(r: RState, rec: Rec)
    requires IsDelivered(rec)
    ensures Apply(r, rec) == if Asks(rec) then Ask(Deliver(r, rec)) else Go(Deliver(r, rec))
  {
  }

  lemma ApplyEnd(r: RState)
    ensures Apply(r, End) == Finish(r.(seenEnd := true))
  {
  }

  lemma EndFits()
    ensures WellFormed(End)
  {
  }

  /** Reading the bytes of records that raise no failed assertion does what the records do, answers every
      request once in order, and stops at the end record with nothing else consumed. */
  lemma {:induction false} ReadAllRun(r: RState, recs: seq<Rec>, h: Handlers, sent: seq<Msg>, rest: seq<byte>)
    requires AllWellFormed(recs) && NoEnd(recs) && !r.seenEnd
    requires Run(r, recs).Some?
    ensures WellFormed(End)
    ensures ReadAll(r, PutAll(recs, Put(End, rest)), h, sent) ==
            ReadOut(TraceEnd, Run(r, recs).value.(seenEnd := true), rest, sent + Replies(r, recs, h))
    decreases |recs|
  {
    EndFits();
    hide ParseRec, Put, Respond, Apply, WellFormed, Defers;
    var input := PutAll(recs, Put(End, rest));
    if recs == [] {
      ParsePut(End, rest);
      assert Apply(r, End) == Finish(r.(seenEnd := true)) by { ApplyEnd(r); }
      assert sent + [] == sent;
    } else {
      var tail := PutAll(recs[1..], Put(End, rest));
      ParsePut(recs[0], tail);
      var a := Apply(r, recs[0]);
      var reply := if a.Ask? && !Defers(recs[0], h(a.r.log)) then [Respond(recs[0], h(a.r.log))] else [];
      ReadAllRun(a.r, recs[1..], h, sent + reply, rest);
      assert sent + reply + Replies(a.r, recs[1..], h) == sent + Replies(r, recs, h);
      assert sent + [] == sent;
    }
  }
}
