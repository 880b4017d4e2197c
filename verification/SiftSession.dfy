/** A Writer object and a Reader object together: every call of a trace made on the one comes out of the other. */
module SiftSession {
  import opened Collections
  import opened Bytes
  import opened SiftFormat
  import opened SiftImage
  import opened SiftMessages
  import opened SiftReading
  import opened SiftWriting
  import opened SiftTrace
  import opened SiftWaiting
  import opened SiftWriter
  import opened SiftReader

  /** A string as it travels, with its terminator. */
  ghost predicate Terminated(s: seq<byte>) {
    s != [] && s[|s| - 1] == 0
  }

  /** The records that the writer's methods can be asked for. */
  ghost predicate Performable(c: Call) {
    c.Side? && c.rec.RoutineAnnounce? ==>
      Terminated(c.rec.name) && Terminated(c.rec.imgname) && Terminated(c.rec.filename)
  }

  lemma CStringBack(s: seq<byte>)
    requires Terminated(s) && |s| < TWO16
    ensures CString(s[..|s| - 1]) == s
  {
    assert s[..|s| - 1] + [0] == s;
  }

  lemma SideRecs(cfg: Config, prog: Program, w: WState, c: Call)
    requires c.Side? && CallOk(cfg, prog, w, c)
    ensures var maps := MapRecs(cfg, w.va2pa, c.pm, Touches(c));
            && AllWellFormed(maps) && WellFormed(c.rec) && AllWellFormed(CallRecs(cfg, prog, w, c))
            && PutAll(CallRecs(cfg, prog, w, c), []) == PutAll(maps, []) + Put(c.rec, [])
            && (Touches(c) == [] ==> PutAll(CallRecs(cfg, prog, w, c), []) == Put(c.rec, []))
    ensures CallState(cfg, prog, w, c) == w.(va2pa := MapSet(cfg, w.va2pa, c.pm, Touches(c)))
    ensures Touches(c) == [] ==> CallState(cfg, prog, w, c) == w
  {
    hide MapRecs, MapSet, Put, PutAll, Touches;
    var maps := MapRecs(cfg, w.va2pa, c.pm, Touches(c));
    MapRecsShip(cfg, w.va2pa, c.pm, Touches(c));
    hide WellFormed;
    assert CallRecs(cfg, prog, w, c) == maps + [c.rec];
    AppendOne([], maps, c.rec);
    assert [] + PutAll(maps, []) == PutAll(maps, []) && [] + PutAll(maps + [c.rec], []) == PutAll(maps + [c.rec], []);
    if Touches(c) == [] {
      MapNone(cfg, w.va2pa, c.pm);
      PutAllNone();
      assert [] + Put(c.rec, []) == Put(c.rec, []);
    }
  }

  /** One call of a trace, made on the object. A blocking call finds its answer on the response stream. */
  method Perform(w: Writer, c: Call, ghost prog: Program, ghost ans: Answer, ghost rest: seq<byte>)
    requires w.code == prog.code && CallOk(w.cfg, prog, w.View(), c) && Performable(c)
    requires c.Side? && Asks(c.rec) ==> w.response == PutMsg(Respond(c.rec, ans), rest)
    modifies w
    ensures AllWellFormed(CallRecs(w.cfg, prog, old(w.View()), c))
    ensures w.output == old(w.output) + PutAll(CallRecs(w.cfg, prog, old(w.View()), c), [])
    ensures w.View() == CallState(w.cfg, prog, old(w.View()), c)
    ensures w.response == if c.Side? && Asks(c.rec) then rest else old(w.response)
  {
    if c.Execute? {
      PerformInstruction(w, c, prog);
    } else if Asks(c.rec) {
      PerformRequest(w, c, prog, ans, rest);
    } else {
      PerformSide(w, c, prog);
    }
  }

  method PerformInstruction(w: Writer, c: Call, ghost prog: Program)
    requires c.Execute? && w.code == prog.code && CallOk(w.cfg, prog, w.View(), c)
    modifies w
    ensures AllWellFormed(CallRecs(w.cfg, prog, old(w.View()), c))
    ensures w.output == old(w.output) + PutAll(CallRecs(w.cfg, prog, old(w.View()), c), [])
    ensures w.View() == CallState(w.cfg, prog, old(w.View()), c) && w.response == old(w.response)
  {
    hide PutAll, CallRecs, NeedRecs, InstructionBytes, CallState, AfterInstruction, AllWellFormed, CallOk, LoopStops,
        Touches;
    CallFits(w.cfg, prog, w.View(), c);
    InstructionIsCall(w.cfg, prog, w.View(), c);
    ghost var out := w.output;
    ghost var need, own := PutAll(NeedRecs(w.cfg, prog.code, w.View(), c), []), InstructionBytes(w.lastAddress, c, []);
    assert out + need + own == out + (need + own);
    w.Instruction(c.addr, c.size, c.addresses, c.isBranch, c.taken, c.isPredicate, c.executed, c.pm);
  }

  lemma CallFits(cfg: Config, prog: Program, w: WState, c: Call)
    requires CallOk(cfg, prog, w, c)
    ensures c.Execute? ==> c.size < 16 && |c.addresses| <= MAX_DYNAMIC_ADDRESSES && LoopStops(cfg, c.addr, c.size)
    ensures c.Side? ==> IsSideRecord(c.rec) && WellFormed(c.rec) && HasArguments(c.rec)
  {
  }

  method PerformRequest(w: Writer, c: Call, ghost prog: Program, ghost ans: Answer, ghost rest: seq<byte>)
    requires c.Side? && Asks(c.rec) && CallOk(w.cfg, prog, w.View(), c)
    requires w.response == PutMsg(Respond(c.rec, ans), rest)
    modifies w
    ensures AllWellFormed(CallRecs(w.cfg, prog, old(w.View()), c))
    ensures w.output == old(w.output) + PutAll(CallRecs(w.cfg, prog, old(w.View()), c), [])
    ensures w.View() == CallState(w.cfg, prog, old(w.View()), c) && w.response == rest
  {
    hide PutAll, CallRecs, CallState, AllWellFormed, MapRecs, MapSet, Touches, Await, RequestBytes, Put, PutMsg,
        Respond;
    hide CallOk, WellFormed, Sendable, HasArguments, OutcomeOf;
    CallFits(w.cfg, prog, w.View(), c);
    SideRecs(w.cfg, prog, w.View(), c);
    RequestBytesPut(c.rec);
    AwaitAnswer(c.rec, ans, w.mem, rest);
    ghost var out := w.output;
    ghost var maps := PutAll(MapRecs(w.cfg, w.va2pa, c.pm, Touches(c)), []);
    assert out + maps + Put(c.rec, []) + [] == out + (maps + Put(c.rec, []));
    var last := w.Request(c.rec, c.pm);
  }

  lemma AwaitAnswer(q: Rec, ans: Answer, mem: Memory, rest: seq<byte>)
    requires Asks(q)
    ensures Await(q, mem, [], PutMsg(Respond(q, ans), rest)) == AwaitOut(Done(OutcomeOf(q, ans), rest), mem, [])
  {
    hide WaitNext, PutMsg, Respond, OutcomeOf;
    WaitForResponse(q, ans, mem, rest);
  }

  lemma SideTouches(c: Call)
    requires c.Side? && !Asks(c.rec)
    ensures Touches(c) == if c.rec.CacheOnly? then [c.rec.eip, c.rec.address] else []
  {
  }

  method PerformSide(w: Writer, c: Call, ghost prog: Program)
    requires c.Side? && !Asks(c.rec) && CallOk(w.cfg, prog, w.View(), c) && Performable(c)
    modifies w
    ensures AllWellFormed(CallRecs(w.cfg, prog, old(w.View()), c))
    ensures w.output == old(w.output) + PutAll(CallRecs(w.cfg, prog, old(w.View()), c), [])
    ensures w.View() == CallState(w.cfg, prog, old(w.View()), c) && w.response == old(w.response)
  {
    hide PutAll, CallRecs, CallState, AllWellFormed, MapRecs, MapSet, Put, CallOk, Touches, CString;
    CallFits(w.cfg, prog, w.View(), c);
    SideRecs(w.cfg, prog, w.View(), c);
    SideTouches(c);
    var r := c.rec;
    if r.CacheOnly? {
      ghost var out := w.output;
      ghost var maps := PutAll(MapRecs(w.cfg, w.va2pa, c.pm, Touches(c)), []);
      assert out + maps + Put(r, []) == out + (maps + Put(r, []));
      w.CacheOnly(r.icount8, r.kind, r.eip, r.address, c.pm);
    } else if r.Output? {
      w.Output(r.fd, r.data);
    } else if r.RoutineChange? {
      w.RoutineChange(r.event, r.eip, r.esp, r.callEip);
    } else if r.RoutineAnnounce? {
      CStringBack(r.name);
      CStringBack(r.imgname);
      CStringBack(r.filename);
      w.RoutineAnnounce(r.eip, r.name[..|r.name| - 1], r.imgname[..|r.imgname| - 1], r.offset, r.line, r.column,
                        r.filename[..|r.filename| - 1]);
    } else {
      w.ISAChange(r.isa);
    }
  }

  /** The answers to the blocking calls of a trace, as they stand on the response stream. */
  function PutReplies(calls: seq<Call>, answers: seq<Answer>): seq<byte>
    requires |answers| == |calls|
    decreases |calls|
  {
    if calls == [] then []
    else
      var more := PutReplies(calls[1..], answers[1..]);
      if calls[0].Side? && Asks(calls[0].rec) then PutMsg(Respond(calls[0].rec, answers[0]), more) else more
  }

  lemma RepliesStep(calls: seq<Call>, answers: seq<Answer>, i: nat)
    requires |answers| == |calls| && i < |calls|
    ensures var more := PutReplies(calls[i + 1..], answers[i + 1..]);
            PutReplies(calls[i..], answers[i..]) ==
            if calls[i].Side? && Asks(calls[i].rec) then PutMsg(Respond(calls[i].rec, answers[i]), more) else more
  {
    hide PutMsg, Respond;
    assert calls[i..][1..] == calls[i + 1..] && answers[i..][1..] == answers[i + 1..];
  }

  /** The rest of a trace, taken apart at its first call. */
  lemma TraceStep(cfg: Config, prog: Program, w: WState, calls: seq<Call>, i: nat)
    requires i < |calls| && TraceOk(cfg, prog, w, calls[i..])
    ensures CallOk(cfg, prog, w, calls[i]) && TraceOk(cfg, prog, CallState(cfg, prog, w, calls[i]), calls[i + 1..])
    ensures var recs, more := CallRecs(cfg, prog, w, calls[i]),
                              TraceRecs(cfg, prog, CallState(cfg, prog, w, calls[i]), calls[i + 1..]);
            && AllWellFormed(recs) && AllWellFormed(more) && AllWellFormed(TraceRecs(cfg, prog, w, calls[i..]))
            && PutAll(TraceRecs(cfg, prog, w, calls[i..]), []) == PutAll(recs, []) + PutAll(more, [])
  {
    hide CallOk, CallState, CallRecs, Ships, PutAll;
    assert calls[i..][1..] == calls[i + 1..];
    var w' := CallState(cfg, prog, w, calls[i]);
    var recs, more := CallRecs(cfg, prog, w, calls[i]), TraceRecs(cfg, prog, w', calls[i + 1..]);
    ShippedFit(cfg, prog, w, calls[i]);
    ShippedFitAll(cfg, prog, w', calls[i + 1..]);
    AppendAll([], recs, more);
    assert [] + PutAll(recs, []) == PutAll(recs, []) && [] + PutAll(recs + more, []) == PutAll(recs + more, []);
  }

  lemma ShippedFit(cfg: Config, prog: Program, w: WState, c: Call)
    requires CallOk(cfg, prog, w, c)
    ensures AllWellFormed(CallRecs(cfg, prog, w, c))
  {
    hide CallOk, CallRecs, WellFormed;
    CallRecsShip(cfg, prog, w, c);
  }

  lemma ShippedFitAll(cfg: Config, prog: Program, w: WState, calls: seq<Call>)
    requires TraceOk(cfg, prog, w, calls)
    ensures AllWellFormed(TraceRecs(cfg, prog, w, calls))
  {
    hide TraceOk, TraceRecs, WellFormed;
    TraceRecsShip(cfg, prog, w, calls);
  }

  /** All calls of a trace, made one after the other. */
  method PerformAll(w: Writer, calls: seq<Call>, ghost answers: seq<Answer>, ghost prog: Program)
    requires w.code == prog.code && TraceOk(w.cfg, prog, w.View(), calls)
    requires |answers| == |calls| && w.response == PutReplies(calls, answers)
    requires forall i :: 0 <= i < |calls| ==> Performable(calls[i])
    modifies w
    ensures AllWellFormed(TraceRecs(w.cfg, prog, old(w.View()), calls))
    ensures w.output == old(w.output) + PutAll(TraceRecs(w.cfg, prog, old(w.View()), calls), [])
    ensures w.response == []
  {
    hide TraceOk, TraceRecs, PutAll, CallRecs, CallState, CallOk, PutReplies, PutMsg, Respond, AllWellFormed,
        Performable;
    ghost var v := w.View();
    ghost var all := TraceRecs(w.cfg, prog, v, calls);
    ShippedFitAll(w.cfg, prog, v, calls);
    assert calls[0..] == calls && answers[0..] == answers;
    for i := 0 to |calls|
      invariant TraceOk(w.cfg, prog, w.View(), calls[i..])
      invariant AllWellFormed(TraceRecs(w.cfg, prog, w.View(), calls[i..]))
      invariant w.output + PutAll(TraceRecs(w.cfg, prog, w.View(), calls[i..]), []) == old(w.output) + PutAll(all, [])
      invariant w.response == PutReplies(calls[i..], answers[i..])
    {
      TraceStep(w.cfg, prog, w.View(), calls, i);
      RepliesStep(calls, answers, i);
      ghost var out, recs := w.output, PutAll(CallRecs(w.cfg, prog, w.View(), calls[i]), []);
      ghost var more := PutAll(TraceRecs(w.cfg, prog, CallState(w.cfg, prog, w.View(), calls[i]), calls[i + 1..]), []);
      assert out + (recs + more) == out + recs + more;
      Perform(w, calls[i], prog, answers[i], PutReplies(calls[i + 1..], answers[i + 1..]));
    }
    assert calls[|calls|..] == [] && answers[|calls|..] == [];
    NothingLeft(w.cfg, prog, w.View());
    assert w.output + [] == w.output;
  }

  lemma NothingLeft(cfg: Config, prog: Program, w: WState)
    ensures TraceOk(cfg, prog, w, []) && TraceRecs(cfg, prog, w, []) == [] && PutAll([], []) == [] &&
            PutReplies([], []) == []
  {
  }

  /** Reading until the trace is over. */
  method ReadTrace(input: seq<byte>, h: Handlers) returns (result: ReadResult, items: seq<Item>)
    ensures var o := ReadAll(Initial(), input, h, []); result == o.result && items == o.r.log
  {
    hide ReadOne;
    var r := new Reader(input);
    result := Instruction;
    ghost var all := ReadAll(Initial(), input, h, []);
    while result == Instruction || result == Deferred
      invariant r.Valid() && fresh(r) && fresh(r.scache.Values)
      invariant if result == Instruction || result == Deferred then
                  var o := ReadAll(r.View(), r.input, h, []); o.result == all.result && o.r == all.r
                else result == all.result && r.View() == all.r
      decreases result == Instruction || result == Deferred, |r.input|
    {
      hide ReadAll;
      ghost var before, ahead := r.View(), r.input;
      ReadOneShrinks(before, ahead, h, []);
      ReadAllStep(before, ahead, h);
      var sent;
      result, sent := r.Read(h);
      ReadAllSent(r.View(), r.input, h, sent, []);
    }
    items := r.log;
  }

  lemma ReadAllStep(r: RState, input: seq<byte>, h: Handlers)
    ensures var o := ReadOne(r, input, h, []);
            ReadAll(r, input, h, []) ==
            if o.result.Instruction? || o.result.Deferred? then ReadAll(o.r, o.rest, h, o.sent) else o
  {
    hide ReadOne;
  }

  /** From object to object: whatever calls are made on a writer, a reader of what it wrote gives back what they
      mean. */
  method WriteThenRead(cfg: Config, prog: Program, calls: seq<Call>, answers: seq<Answer>, h: Handlers)
    returns (result: ReadResult, items: seq<Item>)
    requires TraceOk(cfg, prog, Fresh(), calls) && |answers| == |calls|
    requires forall i :: 0 <= i < |calls| ==> Performable(calls[i])
    ensures result == TraceEnd && items == Meanings(prog, 0, calls)
  {
    hide TraceOk, TraceRecs, PutAll, PutReplies, ReadAll, Performable, Meanings, TraceState, Put, Replies;
    var w := new Writer(cfg, prog.code, PutReplies(calls, answers), map[]);
    PerformAll(w, calls, answers, prog);
    w.End();
    RoundTrip(cfg, prog, calls, h, []);
    ghost var recs := TraceRecs(cfg, prog, Fresh(), calls);
    PutAllAppend(recs, [], Put(End, []));
    assert [] + Put(End, []) == Put(End, []) && [] + PutAll(recs, []) == PutAll(recs, []);
    result, items := ReadTrace(w.output, h);
  }
}
