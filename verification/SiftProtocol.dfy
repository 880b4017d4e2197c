/** Writer and reader joined by two pipes: the writer streams a trace and blocks on requests, the reader consumes it,
    runs handlers that may reach into the front end's memory, and answers. Every step of either side is a transition;
    what holds in every reachable state is proved over all runs. */
module SiftProtocol {
  import opened Bytes
  import opened SiftFormat
  import opened SiftImage
  import opened SiftMessages
  import opened SiftReading
  import opened SiftWriting
  import opened SiftTrace
  import opened SiftWaiting

  datatype WriterAt = Running | Waiting(q: Rec) | WriterFailed

  /** Where the reader is: reading, inside a handler, inside an AccessMemory call of a handler (which will return to
      `back`), or with a magic request left unanswered until the context switch. `expected` is what a direct access
      would have returned when the call was made. */
  datatype ReaderAt =
    | Reading
    | Handling(q: Rec)
    | Postponed(q: Rec)
    | Accessing(m: MemOp, expected: seq<byte>, back: ReaderAt)
    | ReaderFailed

  /** `out` and `resp` are the bytes in the two pipes. The history: `told`, the calls made; `flight`, the records in
      `out`; `asked`, the requests made; `answered`, what the reader's handlers decided; `returned`, what the writer's
      blocking calls returned; `direct`, the front-end memory as the accesses made so far would leave it if made
      directly. */
  datatype State = State(
    w: WState, wat: WriterAt, r: RState, rat: ReaderAt, out: seq<byte>, resp: seq<byte>, mem: Memory,
    told: seq<Call>, flight: seq<Rec>, asked: seq<Rec>, answered: seq<Outcome>, returned: seq<Outcome>, direct: Memory)

  datatype Step =
    | WriterCalls(c: Call)
    | WriterReceives
    | ReaderReads
    | ReaderAccesses(m: MemOp)
    | AccessReturns
    | ReaderReplies(ans: Answer)
    | ReaderResumes

  ghost predicate Init(s: State) {
    && s.w == Fresh() && s.wat == Running && s.r == Initial() && s.rat == Reading
    && s.out == [] && s.resp == [] && s.told == [] && s.flight == []
    && s.asked == [] && s.answered == [] && s.returned == [] && s.direct == s.mem
  }

  // ---- steps of the writer ----

  /** A call appends its records; one that asks then waits. The program may have changed its memory before the call. */
  ghost predicate Calls(cfg: Config, prog: Program, s: State, s': State, c: Call) {
    && s.wat.Running? && CallOk(cfg, prog, s.w, c)
    && AllWellFormed(CallRecs(cfg, prog, s.w, c))
    && s' == s.(w := CallState(cfg, prog, s.w, c),
                wat := if c.Side? && Asks(c.rec) then Waiting(c.rec) else Running,
                out := s.out + PutAll(CallRecs(cfg, prog, s.w, c), []),
                mem := s'.mem, direct := s'.mem, told := s.told + [c],
                flight := s.flight + CallRecs(cfg, prog, s.w, c),
                asked := if c.Side? && Asks(c.rec) then s.asked + [c.rec] else s.asked)
  }

  ghost predicate Receives(s: State, s': State) {
    && s.wat.Waiting? && Asks(s.wat.q)
    && var step := WaitNext(s.wat.q, s.mem, s.resp);
    match step
    case Blocked => false
    case Done(outcome, rest) => s' == s.(wat := Running, resp := rest, returned := s.returned + [outcome])
    case Again(mem, out, rest) => s' == s.(mem := mem, out := s.out + out, resp := rest)
    case GaveUp(rest) => s' == s.(wat := WriterFailed, resp := rest)
    case Crashed => s' == s.(wat := WriterFailed)
    case Stopped => s' == s.(wat := WriterFailed)
  }

  // ---- steps of the reader ----

  /** One record of Read; a stream that is too short keeps it waiting. */
  ghost predicate Reads(s: State, s': State) {
    && s.rat.Reading? && !s.r.seenEnd
    && var p := ParseRec(s.out);
    match p
    case Short => false
    case Malformed => s' == s.(rat := ReaderFailed)
    case Scanned(rec, rest) =>
      var a := Apply(s.r, rec);
      if a.Abort? then s' == s.(rat := ReaderFailed)
      else s' == s.(r := a.r, out := rest, rat := if a.Ask? then Handling(rec) else Reading,
                    flight := if s.flight == [] then [] else s.flight[1..])
  }

  ghost predicate InHandler(rat: ReaderAt) {
    (rat.Handling? || rat.Postponed?) && Serves(rat.q)
  }

  ghost predicate Accesses(s: State, s': State, m: MemOp) {
    && InHandler(s.rat) && MemOpOk(m)
    && s' == s.(rat := Accessing(m, DirectResult(s.direct, m), s.rat), resp := s.resp + PutMsg(RequestFor(m), []),
                direct := DirectEffect(s.direct, m))
  }

  ghost predicate Returns(s: State, s': State) {
    && s.rat.Accessing?
    && match TakeMemory(s.rat.m, s.out)
       case Pending => false
       case Bad => s' == s.(rat := ReaderFailed)
       case Success(data, rest) => s' == s.(rat := s.rat.back, out := rest)
  }

  ghost predicate Replies(s: State, s': State, ans: Answer) {
    && s.rat.Handling? && Asks(s.rat.q)
    && s' == if Defers(s.rat.q, ans) then s.(rat := Postponed(s.rat.q))
             else s.(rat := Reading, resp := s.resp + PutMsg(Respond(s.rat.q, ans), []),
                     answered := s.answered + [OutcomeOf(s.rat.q, ans)])
  }

  ghost predicate Resumes(s: State, s': State) {
    && s.rat.Postponed?
    && s' == s.(rat := Reading, resp := s.resp + PutMsg(MagicResponse(0), []), answered := s.answered + [Word(0)])
  }

  ghost predicate NextStep(cfg: Config, prog: Program, s: State, s': State, step: Step) {
    match step
    case WriterCalls(c) => Calls(cfg, prog, s, s', c)
    case WriterReceives => Receives(s, s')
    case ReaderReads => Reads(s, s')
    case ReaderAccesses(m) => Accesses(s, s', m)
    case AccessReturns => Returns(s, s')
    case ReaderReplies(ans) => Replies(s, s', ans)
    case ReaderResumes => Resumes(s, s')
  }

  ghost predicate Next(cfg: Config, prog: Program, s: State, s': State) {
    exists step :: NextStep(cfg, prog, s, s', step)
  }

  ghost predicate IsRun(cfg: Config, prog: Program, run: seq<State>) {
    |run| > 0 && Init(run[0]) && forall i :: 0 <= i < |run| - 1 ==> Next(cfg, prog, run[i], run[i + 1])
  }

  // ---- the invariant ----

  ghost predicate NoAsks(recs: seq<Rec>) {
    forall i :: 0 <= i < |recs| ==> !Asks(recs[i])
  }

  /** The bytes in the pipe are the records in flight, and reading them would bring the reader in step. */
  ghost predicate Streams(cfg: Config, prog: Program, s: State) {
    && AllShip(s.flight)
    && s.out == PutAll(s.flight, [])
    && Run(s.r, s.flight).Some?
    && InStep(cfg, prog, s.w, Run(s.r, s.flight).value)
  }

  ghost predicate RequestInFlight(cfg: Config, prog: Program, s: State) {
    && s.wat.Waiting? && s.rat.Reading? && s.resp == [] && s.mem == s.direct && s.answered == s.returned
    && s.flight != [] && s.flight[|s.flight| - 1] == s.wat.q && NoAsks(s.flight[..|s.flight| - 1])
    && Streams(cfg, prog, s)
  }

  ghost predicate AnswerInFlight(cfg: Config, prog: Program, s: State) {
    && s.wat.Waiting? && Asks(s.wat.q) && s.rat.Reading? && s.mem == s.direct
    && s.out == [] && s.flight == [] && InStep(cfg, prog, s.w, s.r)
    && exists ans: Answer :: s.resp == PutMsg(Respond(s.wat.q, ans), []) &&
        s.answered == s.returned + [OutcomeOf(s.wat.q, ans)]
  }

  ghost predicate AtHandler(cfg: Config, prog: Program, s: State, rat: ReaderAt) {
    && s.wat.Waiting? && (rat == Handling(s.wat.q) || (rat == Postponed(s.wat.q) && s.wat.q.Magic?))
    && s.answered == s.returned && s.flight == [] && InStep(cfg, prog, s.w, s.r)
  }

  ghost predicate AccessInFlight(cfg: Config, prog: Program, s: State) {
    && s.wat.Waiting? && s.rat.Accessing? && MemOpOk(s.rat.m) && Serves(s.wat.q)
    && AtHandler(cfg, prog, s, s.rat.back)
    && |s.rat.expected| == (if s.rat.m.op == MEM_READ then s.rat.m.size else 0)
    && ((s.out == [] && s.resp == PutMsg(RequestFor(s.rat.m), []) &&
         s.direct == DirectEffect(s.mem, s.rat.m) && s.rat.expected == DirectResult(s.mem, s.rat.m)) ||
        (s.resp == [] && s.mem == s.direct &&
         s.out == PutMemResponse(s.rat.m.addr, s.rat.m.op, s.rat.expected, [])))
  }

  /** An outcome of the type the request's response carries. */
  predicate Fits(q: Rec, o: Outcome) {
    match q
    case Syscall(_, _) => o.Word?
    case Magic(_, _, _) => o.Word?
    case NewThread => o.Code?
    case Join(_) => o.Code?
    case Fork => o.Code?
    case InstructionCount(_) => o.ModeIs?
    case Sync => o.ModeIs?
    case Emu(_, _) => o.Emulated?
    case _ => false
  }

  /** The requests so far and the outcomes so far correspond one to one, but for the one being waited for. */
  ghost predicate Matched(s: State) {
    && |s.asked| == |s.returned| + (if s.wat.Waiting? then 1 else 0)
    && (s.wat.Waiting? ==> s.asked[|s.returned|] == s.wat.q)
    && forall i :: 0 <= i < |s.returned| ==> Fits(s.asked[i], s.returned[i])
  }

  ghost predicate Inv(cfg: Config, prog: Program, s: State) {
    && Matched(s)
    && (s.wat.Waiting? ==> Asks(s.wat.q))
    && (|| (s.wat.Running? && s.rat.Reading? && s.resp == [] && s.mem == s.direct && s.answered == s.returned &&
            NoAsks(s.flight) && Streams(cfg, prog, s))
        || RequestInFlight(cfg, prog, s)
        || (s.wat.Waiting? && AtHandler(cfg, prog, s, s.rat) && s.out == [] && s.resp == [] && s.mem == s.direct)
        || AccessInFlight(cfg, prog, s)
        || AnswerInFlight(cfg, prog, s))
  }

  /** What has been delivered, and what the records in flight will deliver, is what the writer was told. */
  ghost predicate Delivers(prog: Program, s: State) {
    var r := Run(s.r, s.flight);
    r.Some? && r.value.log == Meanings(prog, 0, s.told) && r.value.isa == IsaAfterAll(0, s.told)
  }

  ghost predicate Sound(cfg: Config, prog: Program, s: State) {
    Inv(cfg, prog, s) && Delivers(prog, s)
  }

  // ---- each step keeps it ----

  lemma CallEnds(cfg: Config, prog: Program, w: WState, c: Call)
    requires CallOk(cfg, prog, w, c)
    ensures var recs := CallRecs(cfg, prog, w, c);
            && recs != [] && NoAsks(recs[..|recs| - 1])
            && (c.Side? ==> recs[|recs| - 1] == c.rec)
            && (c.Execute? ==> !Asks(recs[|recs| - 1]))
  {
    MapRecsAskNothing(cfg, w.va2pa, c.pm, Touches(c));
    if c.Execute? && !cfg.perInstruction {
      PageRecsAskNothing(prog.code, w.icache, PageOf(c.addr), EndPage(c.addr, c.size));
    }
  }

  lemma {:induction false} PageRecsAskNothing(code: Code, icache: set<u64>, base: u64, end: u64)
    requires end < LAST_PAGE
    ensures NoAsks(PageRecs(code, icache, base, end))
    decreases end + PAGE - base
  {
    if base <= end {
      PageRecsAskNothing(code, icache + {base}, base + PAGE, end);
    }
  }

  lemma {:induction false} MapRecsAskNothing(cfg: Config, sent: set<u64>, pm: PageMap, vas: seq<u64>)
    ensures NoAsks(MapRecs(cfg, sent, pm, vas))
    decreases |vas|
  {
    if vas != [] {
      MapRecsAskNothing(cfg, sent, pm, vas[1..]);
      MapRecsAskNothing(cfg, sent + {vas[0] / PAGE}, pm, vas[1..]);
    }
  }

  lemma StreamsOn(cfg: Config, prog: Program, s: State, s': State, c: Call)
    requires Streams(cfg, prog, s) && Calls(cfg, prog, s, s', c)
    ensures Streams(cfg, prog, s')
  {
    hide CallRecs, InStep, Put, Apply, CallOk, CallState;
    var recs := CallRecs(cfg, prog, s.w, c);
    CallRecsShip(cfg, prog, s.w, c);
    var r := Run(s.r, s.flight).value;
    RunCall(cfg, prog, s.w, c, r);
    RunConcat(s.r, s.flight, recs);
    PutAllConcat(s.flight, recs, []);
    PutAllAppend(s.flight, [], PutAll(recs, []));
    assert [] + PutAll(recs, []) == PutAll(recs, []);
  }

  lemma CallsKeeps(cfg: Config, prog: Program, s: State, s': State, c: Call)
    requires Inv(cfg, prog, s) && Calls(cfg, prog, s, s', c)
    ensures Inv(cfg, prog, s')
  {
    hide Streams, CallRecs, PutAll, CallOk, CallState, InStep;
    StreamsOn(cfg, prog, s, s', c);
    var recs := CallRecs(cfg, prog, s.w, c);
    CallEnds(cfg, prog, s.w, c);
    assert s'.flight[..|s'.flight| - 1] == s.flight + recs[..|recs| - 1];
  }

  /** The first record in flight is what the reader parses, and taking it leaves the rest in flight. */
  lemma StreamsHead(cfg: Config, prog: Program, s: State)
    requires Streams(cfg, prog, s) && s.flight != []
    ensures AllWellFormed(s.flight[1..])
    ensures ParseRec(s.out) == Scanned(s.flight[0], PutAll(s.flight[1..], []))
    ensures !Apply(s.r, s.flight[0]).Abort? && !s.flight[0].End?
    ensures Run(Apply(s.r, s.flight[0]).r, s.flight[1..]) == Run(s.r, s.flight)
  {
    hide Put, ParseRec, Apply, InStep, WellFormed;
    assert Ships(s.flight[0]);
    ParsePut(s.flight[0], PutAll(s.flight[1..], []));
  }

  lemma StreamsNext(cfg: Config, prog: Program, s: State, s': State)
    requires Streams(cfg, prog, s) && s.flight != [] && !s.r.seenEnd && Reads(s, s')
    ensures !s'.rat.ReaderFailed? && Streams(cfg, prog, s')
    ensures s'.flight == s.flight[1..] && s'.rat == if Asks(s.flight[0]) then Handling(s.flight[0]) else Reading
    ensures s' == s.(r := s'.r, out := s'.out, rat := s'.rat, flight := s'.flight)
    ensures Run(s'.r, s'.flight) == Run(s.r, s.flight)
  {
    hide Put, ParseRec, Apply, InStep, WellFormed, PutAll;
    StreamsHead(cfg, prog, s);
  }

  /** An empty pipe gives the reader nothing to parse. */
  lemma StreamsEmpty(cfg: Config, prog: Program, s: State)
    requires Streams(cfg, prog, s) && s.flight == []
    ensures s.out == [] && InStep(cfg, prog, s.w, s.r)
  {
    hide InStep;
  }

  lemma ReadsKeeps(cfg: Config, prog: Program, s: State, s': State)
    requires Inv(cfg, prog, s) && Reads(s, s')
    ensures Inv(cfg, prog, s')
  {
    hide Streams, InStep, Apply, PutMsg, WaitNext;
    if s.flight == [] {
      if s.wat.Running? {
        StreamsEmpty(cfg, prog, s);
      }
      assert false;
    } else {
      StreamsNext(cfg, prog, s, s');
      if s.wat.Running? {
        assert !Asks(s.flight[0]);
        assert NoAsks(s'.flight);
      } else if |s.flight| == 1 {
        StreamsEmpty(cfg, prog, s');
      } else {
        var n := |s.flight| - 1;
        assert s.flight[..n][0] == s.flight[0];
        assert s'.flight[..n - 1] == s.flight[..n][1..];
      }
    }
  }

  lemma AccessesKeeps(cfg: Config, prog: Program, s: State, s': State, m: MemOp)
    requires Inv(cfg, prog, s) && Accesses(s, s', m)
    ensures Inv(cfg, prog, s')
  {
    hide Streams, InStep, PutMsg, ReadMemory, WriteMemory;
    assert [] + PutMsg(RequestFor(m), []) == PutMsg(RequestFor(m), []);
  }

  lemma RepliesKeeps(cfg: Config, prog: Program, s: State, s': State, ans: Answer)
    requires Inv(cfg, prog, s) && Replies(s, s', ans)
    ensures Inv(cfg, prog, s')
  {
    hide Streams, InStep, PutMsg;
    assert [] + PutMsg(Respond(s.rat.q, ans), []) == PutMsg(Respond(s.rat.q, ans), []);
  }

  lemma ResumesKeeps(cfg: Config, prog: Program, s: State, s': State)
    requires Inv(cfg, prog, s) && Resumes(s, s')
    ensures Inv(cfg, prog, s')
  {
    hide Streams, InStep, PutMsg;
    var ans := Answer(0, 0, 0, false, seq(EMU_REPLY_SIZE, i => 0));
    assert [] + PutMsg(Respond(s.rat.q, ans), []) == PutMsg(Respond(s.rat.q, ans), []);
  }

  lemma ReturnsKeeps(cfg: Config, prog: Program, s: State, s': State)
    requires Inv(cfg, prog, s) && Returns(s, s')
    ensures Inv(cfg, prog, s')
  {
    hide Streams, InStep, PutMsg, PutMemResponse, ReadMemory, WriteMemory, TakeMemory;
    assert AccessInFlight(cfg, prog, s);
    TakeNothing(s.rat.m);
    TakeMemoryResponse(s.rat.m, s.rat.expected, []);
  }

  lemma TakeNothing(m: MemOp)
    ensures TakeMemory(m, []) == Pending
  {
  }

  lemma WaitNothing(q: Rec, mem: Memory)
    requires Asks(q)
    ensures WaitNext(q, mem, []) == Blocked
  {
  }

  lemma ReceivesKeeps(cfg: Config, prog: Program, s: State, s': State)
    requires Inv(cfg, prog, s) && Receives(s, s')
    ensures Inv(cfg, prog, s')
  {
    hide Streams, InStep, PutMsg, PutMemResponse, ReadMemory, WriteMemory, WaitNext;
    WaitNothing(s.wat.q, s.mem);
    if AccessInFlight(cfg, prog, s) {
      WaitServes(s.wat.q, s.rat.m, s.mem, []);
      assert [] + s'.out == s'.out;
    } else {
      assert AnswerInFlight(cfg, prog, s);
      var ans: Answer :| s.resp == PutMsg(Respond(s.wat.q, ans), []) &&
          s.answered == s.returned + [OutcomeOf(s.wat.q, ans)];
      WaitForResponse(s.wat.q, ans, s.mem, []);
      StreamsQuiet(cfg, prog, s');
    }
  }

  lemma StreamsQuiet(cfg: Config, prog: Program, s: State)
    requires s.out == [] && s.flight == [] && InStep(cfg, prog, s.w, s.r)
    ensures Streams(cfg, prog, s)
  {
    hide InStep;
  }

  lemma CallsDeliver(cfg: Config, prog: Program, s: State, s': State, c: Call)
    requires Streams(cfg, prog, s) && Delivers(prog, s) && Calls(cfg, prog, s, s', c)
    ensures Delivers(prog, s')
  {
    hide CallRecs, InStep, CallOk, CallState, PutAll, Meaning, Meanings, IsaAfterAll, Run;
    var r := Run(s.r, s.flight).value;
    RunCall(cfg, prog, s.w, c, r);
    RunConcat(s.r, s.flight, CallRecs(cfg, prog, s.w, c));
    MeaningsSnoc(prog, 0, s.told, c);
  }

  lemma ReadsDeliver(cfg: Config, prog: Program, s: State, s': State)
    requires Inv(cfg, prog, s) && Delivers(prog, s) && Reads(s, s')
    ensures Delivers(prog, s')
  {
    hide Streams, InStep, Apply, PutMsg, WaitNext, Run, Meanings, IsaAfterAll;
    if s.flight == [] {
      if s.wat.Running? {
        StreamsEmpty(cfg, prog, s);
      }
      assert false;
    } else {
      StreamsNext(cfg, prog, s, s');
    }
  }

  lemma StepDelivers(cfg: Config, prog: Program, s: State, s': State, step: Step)
    requires Inv(cfg, prog, s) && Delivers(prog, s) && NextStep(cfg, prog, s, s', step)
    ensures Delivers(prog, s')
  {
    hide Delivers, Streams, Reads, Receives, Accesses, Returns, Replies, Resumes, InStep;
    if step.WriterCalls? {
      RunningStreams(cfg, prog, s);
      hide Inv, Calls;
      CallsDeliver(cfg, prog, s, s', step.c);
    } else if step.ReaderReads? {
      ReadsDeliver(cfg, prog, s, s');
    } else {
      hide Inv, Calls;
      OtherSteps(cfg, prog, s, s', step);
      SameDelivers(prog, s, s');
    }
  }

  lemma RunningStreams(cfg: Config, prog: Program, s: State)
    requires Inv(cfg, prog, s) && s.wat.Running?
    ensures Streams(cfg, prog, s)
  {
    hide Streams, InStep, PutMsg, PutMemResponse;
  }

  /** Only a call and a read touch what is in flight. */
  lemma OtherSteps(cfg: Config, prog: Program, s: State, s': State, step: Step)
    requires NextStep(cfg, prog, s, s', step) && !step.WriterCalls? && !step.ReaderReads?
    ensures s'.r == s.r && s'.flight == s.flight && s'.told == s.told
  {
    hide WaitNext, TakeMemory, PutMsg, Respond, OutcomeOf, DirectResult, DirectEffect;
  }

  lemma SameDelivers(prog: Program, s: State, s': State)
    requires Delivers(prog, s) && s'.r == s.r && s'.flight == s.flight && s'.told == s.told
    ensures Delivers(prog, s')
  {
  }

  lemma StepKeeps(cfg: Config, prog: Program, s: State, s': State, step: Step)
    requires Sound(cfg, prog, s) && NextStep(cfg, prog, s, s', step)
    ensures Sound(cfg, prog, s')
  {
    StepDelivers(cfg, prog, s, s', step);
    hide Inv, Delivers, Calls, Receives, Reads, Accesses, Returns, Replies, Resumes;
    match step
    case WriterCalls(c) => CallsKeeps(cfg, prog, s, s', c);
    case WriterReceives => ReceivesKeeps(cfg, prog, s, s');
    case ReaderReads => ReadsKeeps(cfg, prog, s, s');
    case ReaderAccesses(m) => AccessesKeeps(cfg, prog, s, s', m);
    case AccessReturns => ReturnsKeeps(cfg, prog, s, s');
    case ReaderReplies(ans) => RepliesKeeps(cfg, prog, s, s', ans);
    case ReaderResumes => ResumesKeeps(cfg, prog, s, s');
  }

  lemma InitKeeps(cfg: Config, prog: Program, s: State)
    requires Init(s)
    ensures Sound(cfg, prog, s)
  {
    hide InStep;
    InitiallyInStep(cfg, prog);
    StreamsQuiet(cfg, prog, s);
  }

  lemma {:induction false} RunKeeps(cfg: Config, prog: Program, run: seq<State>, i: nat)
    requires IsRun(cfg, prog, run) && i < |run|
    ensures Sound(cfg, prog, run[i])
    decreases i
  {
    hide Sound, NextStep;
    if i == 0 {
      InitKeeps(cfg, prog, run[0]);
    } else {
      RunKeeps(cfg, prog, run, i - 1);
      assert Next(cfg, prog, run[i - 1], run[i - 1 + 1]);
      var step :| NextStep(cfg, prog, run[i - 1], run[i], step);
      StepKeeps(cfg, prog, run[i - 1], run[i], step);
    }
  }

  // ---- what that means ----

  /** Nothing has failed; a running writer has had one outcome of the right type for every request, the one the
      reader's handler decided, and no byte is left on its pipe; a reader in a handler has consumed every byte sent,
      is in step with the writer, and serves the request the writer waits on; a finished memory access returns what a
      direct access would have, and leaves nothing behind. What the simulator has received is always the beginning of
      what the writer was told, and all of it when no record is in flight. */
  ghost predicate Safe(cfg: Config, prog: Program, s: State) {
    && !s.wat.WriterFailed? && !s.rat.ReaderFailed?
    && (s.wat.Running? ==>
          && s.resp == [] && s.rat.Reading? && s.mem == s.direct && s.returned == s.answered
          && |s.asked| == |s.returned| && forall i :: 0 <= i < |s.asked| ==> Fits(s.asked[i], s.returned[i]))
    && (s.rat.Handling? || s.rat.Postponed? ==>
          && s.wat == Waiting(s.rat.q) && s.out == [] && s.resp == [] && s.mem == s.direct
          && s.r.lastAddress == s.w.lastAddress && s.r.vcache.Keys == s.w.va2pa)
    && (s.rat.Accessing? ==> TakeMemory(s.rat.m, s.out) in {Pending, Success(s.rat.expected, [])})
    && s.r.log <= Meanings(prog, 0, s.told) && (s.flight == [] ==> s.r.log == Meanings(prog, 0, s.told))
    && (s.rat.Handling? || s.rat.Postponed? || s.rat.Accessing? ==> s.flight == [])
  }

  lemma DeliversSafe(prog: Program, s: State)
    requires Delivers(prog, s)
    ensures s.r.log <= Meanings(prog, 0, s.told) && (s.flight == [] ==> s.r.log == Meanings(prog, 0, s.told))
  {
    hide Meanings, IsaAfterAll, Apply;
    RunLogs(s.r, s.flight);
  }

  lemma InStepFields(cfg: Config, prog: Program, w: WState, r: RState)
    requires InStep(cfg, prog, w, r)
    ensures r.lastAddress == w.lastAddress && r.vcache.Keys == w.va2pa
  {
  }

  lemma InvSafe(cfg: Config, prog: Program, s: State)
    requires Sound(cfg, prog, s)
    ensures Safe(cfg, prog, s)
  {
    hide Delivers, Meanings, Streams, InStep, PutMsg, PutMemResponse, ReadMemory, WriteMemory, TakeMemory, Respond;
    DeliversSafe(prog, s);
    if s.rat.Handling? || s.rat.Postponed? {
      InStepFields(cfg, prog, s.w, s.r);
    }
    if s.rat.Accessing? {
      TakeNothing(s.rat.m);
      TakeMemoryResponse(s.rat.m, s.rat.expected, []);
    }
  }

  /** Protocol synchrony and nested memory: every state of every run is safe. */
  lemma RunSafe(cfg: Config, prog: Program, run: seq<State>)
    requires IsRun(cfg, prog, run)
    ensures forall i :: 0 <= i < |run| ==> Safe(cfg, prog, run[i])
  {
    hide Safe, Sound, IsRun;
    forall i | 0 <= i < |run|
      ensures Safe(cfg, prog, run[i])
    {
      RunKeeps(cfg, prog, run, i);
      InvSafe(cfg, prog, run[i]);
    }
  }

  /** No deadlock: while the writer waits, one of the two sides can go on without it being told anything new. */
  lemma WaitingGoesOn(cfg: Config, prog: Program, s: State)
    requires Inv(cfg, prog, s) && s.wat.Waiting?
    ensures exists s', step :: NextStep(cfg, prog, s, s', step) && !step.WriterCalls? && !step.ReaderAccesses?
  {
    hide Streams, PutMsg, PutMemResponse, ReadMemory, WriteMemory, TakeMemory, WaitNext, InStep, Apply, ParseRec,
        PutAll;
    if RequestInFlight(cfg, prog, s) {
      StreamsHead(cfg, prog, s);
      var a := Apply(s.r, s.flight[0]);
      StreamsOpen(cfg, prog, s);
      var s' := s.(r := a.r, out := PutAll(s.flight[1..], []), rat := if a.Ask? then Handling(s.flight[0]) else Reading,
                   flight := s.flight[1..]);
      assert NextStep(cfg, prog, s, s', ReaderReads);
    } else if AnswerInFlight(cfg, prog, s) {
      var ans: Answer :| s.resp == PutMsg(Respond(s.wat.q, ans), []) &&
          s.answered == s.returned + [OutcomeOf(s.wat.q, ans)];
      WaitForResponse(s.wat.q, ans, s.mem, []);
      var s' := s.(wat := Running, resp := [], returned := s.returned + [OutcomeOf(s.wat.q, ans)]);
      assert NextStep(cfg, prog, s, s', WriterReceives);
    } else if AccessInFlight(cfg, prog, s) {
      var m := s.rat.m;
      WaitServes(s.wat.q, m, s.mem, []);
      TakeMemoryResponse(m, s.rat.expected, []);
      MemResponseSome(m, s.rat.expected);
      if s.out == [] {
        var out := PutMemResponse(m.addr, m.op, DirectResult(s.mem, m), []);
        var s' := s.(mem := DirectEffect(s.mem, m), out := s.out + out, resp := []);
        assert NextStep(cfg, prog, s, s', WriterReceives);
      } else {
        assert NextStep(cfg, prog, s, s.(rat := s.rat.back, out := []), AccessReturns);
      }
    } else if s.rat.Postponed? {
      var s' := s.(rat := Reading, resp := s.resp + PutMsg(MagicResponse(0), []), answered := s.answered + [Word(0)]);
      assert NextStep(cfg, prog, s, s', ReaderResumes);
    } else {
      var ans := Answer(0, 0, 0, false, seq(EMU_REPLY_SIZE, i => 0));
      var s' := s.(rat := Reading, resp := s.resp + PutMsg(Respond(s.rat.q, ans), []),
                   answered := s.answered + [OutcomeOf(s.rat.q, ans)]);
      assert NextStep(cfg, prog, s, s', ReaderReplies(ans));
    }
  }

  lemma StreamsOpen(cfg: Config, prog: Program, s: State)
    requires Streams(cfg, prog, s)
    ensures !s.r.seenEnd
  {
    RunOpen(s.r, s.flight);
  }

  lemma {:induction false} RunOpen(r: RState, recs: seq<Rec>)
    requires Run(r, recs).Some? && AllShip(recs) && !Run(r, recs).value.seenEnd
    ensures !r.seenEnd
    decreases |recs|
  {
    hide Apply, WellFormed;
    if recs != [] {
      RunOpen(Apply(r, recs[0]).r, recs[1..]);
      assert Ships(recs[0]);
    }
  }
}
