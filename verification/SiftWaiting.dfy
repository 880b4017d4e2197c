/** The writer waiting for an answer: it serves memory requests until the response to its own request arrives
    (sift/sift_writer.cc, the loops of the blocking calls and handleMemoryRequest), and the reader's side of a memory
    request (sift/sift_reader.cc, AccessMemory). */
module SiftWaiting {
  import opened Bytes
  import opened SiftFormat
  import opened SiftImage
  import opened SiftMessages

  // ---- front-end memory ----

  type Memory = map<u64, byte>

  /** A read fills a zeroed buffer. */
  function ReadMemory(mem: Memory, addr: u64, n: nat): (s: seq<byte>)
    ensures |s| == n
  {
    seq<byte>(n, i requires 0 <= i < n => if Plus(addr, i) in mem then mem[Plus(addr, i)] else 0)
  }

  function WriteMemory(mem: Memory, addr: u64, data: seq<byte>): Memory
    decreases |data|
  {
    if data == [] then mem else WriteMemory(mem[addr := data[0]], Plus(addr, 1), data[1..])
  }

  // ---- memory messages ----

  /** One AccessMemory call: `data` is what a write stores, `size` the length asked for. */
  datatype MemOp = MemOp(op: u32, lock: u32, addr: u64, size: u32, data: seq<byte>)

  /** Only a write sends data, as much as its size says. */
  ghost predicate Formed(m: MemOp) {
    if m.op == MEM_WRITE then |m.data| == m.size else m.data == []
  }

  /** The accesses that get an answer: not empty, and a write must leave room for its length in the length field. */
  ghost predicate MemOpOk(m: MemOp) {
    Formed(m) && 0 < m.size && (m.op == MEM_READ || (m.op == MEM_WRITE && m.size < TWO32 - 20))
  }

  function RequestFor(m: MemOp): Msg {
    MemoryRequest(m.addr, m.size, m.lock, m.op, m.data)
  }

  /** What accessing the front-end memory directly would do. */
  function DirectResult(mem: Memory, m: MemOp): seq<byte> {
    if m.op == MEM_READ then ReadMemory(mem, m.addr, m.size) else []
  }

  function DirectEffect(mem: Memory, m: MemOp): Memory {
    if m.op == MEM_WRITE then WriteMemory(mem, m.addr, m.data) else mem
  }

  /** The length field has 32 bits. */
  function PutMemResponse(addr: u64, op: u32, data: seq<byte>, rest: seq<byte>): seq<byte> {
    Header(MEMORY_RESPONSE, (12 + |data|) % TWO32, LE64(addr) + (LE32(op) + (data + rest)))
  }

  // ---- the writer's loops ----

  /** What a blocking call returns. */
  datatype Outcome = Word(word: u64) | Code(code: i32) | ModeIs(mode: u32) | Emulated(handled: byte, reply: seq<byte>)

  datatype WaitStep =
    | Blocked
    | Done(outcome: Outcome, rest: seq<byte>)
    | GaveUp(rest: seq<byte>)
    | Crashed
    | Stopped
    | Again(mem: Memory, out: seq<byte>, rest: seq<byte>)

  function AnswerKind(q: Rec): byte
    requires Asks(q)
  {
    match q
    case InstructionCount(_) => SYNC_RESPONSE
    case Syscall(_, _) => SYSCALL_RESPONSE
    case NewThread => NEW_THREAD_RESPONSE
    case Join(_) => JOIN_RESPONSE
    case Sync => SYNC_RESPONSE
    case Fork => FORK_RESPONSE
    case Magic(_, _, _) => MAGIC_RESPONSE
    case Emu(_, _) => EMU_RESPONSE
  }

  /** The calls whose loop serves memory requests. */
  predicate Serves(q: Rec) {
    q.Syscall? || q.Sync? || q.Magic? || q.Emu?
  }

  function TakeWord(size: u32, s: seq<byte>, bad: WaitStep): WaitStep {
    if size != 8 then bad else
    var v := Get64(s);
    if v.Scanned? then Done(Word(v.value), v.rest) else Blocked
  }

  function TakeCode(size: u32, s: seq<byte>, bad: WaitStep): WaitStep {
    if size != 4 then bad else
    var v := Get32(s);
    if v.Scanned? then Done(Code(ToSigned(v.value)), v.rest) else Blocked
  }

  function TakeMode(size: u32, s: seq<byte>, bad: WaitStep): WaitStep {
    if size != 4 then bad else
    var v := Get32(s);
    if v.Scanned? then Done(ModeIs(v.value), v.rest) else Blocked
  }

  function TakeEmu(size: u32, s: seq<byte>): WaitStep {
    if size < 1 || size > 1 + EMU_REPLY_SIZE then Crashed else
    var v := Get8(s);
    if !v.Scanned? then Blocked else
    var reply := GetBytes(size - 1, v.rest);
    if reply.Scanned? then Done(Emulated(v.value, reply.value), reply.rest) else Blocked
  }

  function TakeAnswer(q: Rec, size: u32, s: seq<byte>): WaitStep
    requires Asks(q)
  {
    if q.Emu? then TakeEmu(size, s)
    else if q.Magic? then TakeWord(size, s, Crashed)
    else if q.Syscall? then TakeWord(size, s, GaveUp(s))
    else if q.InstructionCount? || q.Sync? then TakeMode(size, s, GaveUp(s))
    else TakeCode(size, s, GaveUp(s))
  }

  function MemHead(s: seq<byte>): Scan<(u64, u32, u32, u32)> {
    var (addr, s1) :- Get64(s);
    var (size, s2) :- Get32(s1);
    var (lock, s3) :- Get32(s2);
    var (op, s4) :- Get32(s3);
    Scanned((addr, size, lock, op), s4)
  }

  /** handleMemoryRequest: a request it does not like is dropped without an answer. */
  function HandleMemory(mem: Memory, total: u32, s: seq<byte>): WaitStep {
    if total < 20 then Again(mem, [], s) else
    var head := MemHead(s);
    if !head.Scanned? then Blocked else
    var (addr, size, lock, op) := head.value;
    var payload := total - 20;
    if op == MEM_READ && payload == 0 && size > 0 then
      Again(mem, PutMemResponse(addr, op, ReadMemory(mem, addr, size), []), head.rest)
    else if op == MEM_WRITE && payload > 0 && payload == size then
      var data := GetBytes(payload, head.rest);
      if !data.Scanned? then Blocked
      else Again(WriteMemory(mem, addr, data.value), PutMemResponse(addr, op, [], []), data.rest)
    else
      Again(mem, [], head.rest)
  }

  /** One round of the loop of a blocking call, on the bytes received so far. */
  function WaitNext(q: Rec, mem: Memory, s: seq<byte>): WaitStep
    requires Asks(q)
  {
    var h := GetHeader(s);
    if !h.Scanned? then Blocked else
    var (kind, size) := h.value;
    if s[0] != 0 then if q.Magic? || q.Emu? then Crashed else GaveUp(h.rest)
    else if kind == AnswerKind(q) then TakeAnswer(q, size, h.rest)
    else if kind == SHUTDOWN then Stopped
    else if kind == MEMORY_REQUEST && Serves(q) then HandleMemory(mem, size, h.rest)
    else if q.Syscall? then Again(mem, [], h.rest)
    else if q.Magic? then Crashed
    else GaveUp(h.rest)
  }

  lemma WaitNextShrinks(q: Rec, mem: Memory, s: seq<byte>)
    requires Asks(q)
    ensures WaitNext(q, mem, s).Again? ==> |WaitNext(q, mem, s).rest| < |s|
  {
    hide LE32, LE64, UnLE32, UnLE64, PutMemResponse, WriteMemory, ReadMemory, TakeAnswer;
    assert !GetHeader(s).Scanned? || !TakeAnswer(q, GetHeader(s).value.1, GetHeader(s).rest).Again? by {
      if GetHeader(s).Scanned? {
        TakeAnswerEnds(q, GetHeader(s).value.1, GetHeader(s).rest);
      }
    }
  }

  lemma TakeAnswerEnds(q: Rec, size: u32, s: seq<byte>)
    requires Asks(q)
    ensures !TakeAnswer(q, size, s).Again?
  {
  }

  datatype AwaitOut = AwaitOut(last: WaitStep, mem: Memory, out: seq<byte>)

  /** The whole loop, on everything that will be received. */
  function Await(q: Rec, mem: Memory, out: seq<byte>, s: seq<byte>): AwaitOut
    requires Asks(q)
    decreases |s|
  {
    WaitNextShrinks(q, mem, s);
    var step := WaitNext(q, mem, s);
    if step.Again? then Await(q, step.mem, out + step.out, step.rest) else AwaitOut(step, mem, out)
  }

  lemma AwaitStep(q: Rec, mem: Memory, out: seq<byte>, s: seq<byte>)
    requires Asks(q)
    ensures var step := WaitNext(q, mem, s);
            if step.Again? then
              |step.rest| < |s| && Await(q, mem, out, s) == Await(q, step.mem, out + step.out, step.rest)
            else
              Await(q, mem, out, s) == AwaitOut(step, mem, out)
  {
    hide WaitNext;
    WaitNextShrinks(q, mem, s);
  }

  // ---- the reader's side ----

  datatype Access = Pending | Success(data: seq<byte>, rest: seq<byte>) | Bad

  /** What AccessMemory makes of the bytes that come back. */
  function TakeMemory(m: MemOp, s: seq<byte>): Access {
    var h := GetHeader(s);
    if !h.Scanned? then Pending else
    if h.value.0 != MEMORY_RESPONSE then Bad else
    var addr := Get64(h.rest);
    if !addr.Scanned? then Pending else
    var op := Get32(addr.rest);
    if !op.Scanned? then Pending else
    if addr.value != m.addr then Bad else
    var payload := (h.value.1 - 12) % TWO32;
    if m.op == MEM_READ then
      if payload != m.size then Bad else
      var data := GetBytes(m.size, op.rest);
      if data.Scanned? then Success(data.value, data.rest) else Pending
    else if m.op == MEM_WRITE then
      if payload != 0 then Bad else Success([], op.rest)
    else
      Bad
  }

  // ---- one message at a time ----

  function OutcomeOf(q: Rec, ans: Answer): Outcome
    requires Asks(q)
  {
    if q.Emu? then Emulated(Bit(ans.handled), ans.reply)
    else if q.Magic? || q.Syscall? then Word(ans.word)
    else if q.InstructionCount? || q.Sync? then ModeIs(ans.mode)
    else Code(ans.code)
  }

  lemma WaitForEmu(q: Rec, ans: Answer, mem: Memory, rest: seq<byte>)
    requires q.Emu?
    ensures WaitNext(q, mem, PutMsg(Respond(q, ans), rest)) == Done(OutcomeOf(q, ans), rest)
  {
    hide LE16, LE32, LE64, UnLE16, UnLE32, UnLE64, HandleMemory, GetHeader, Header;
    var s := ans.reply + rest;
    GetPutHeader(EMU_RESPONSE, 1 + |ans.reply|, [Bit(ans.handled)] + s);
    HeaderZero(EMU_RESPONSE, 1 + |ans.reply|, [Bit(ans.handled)] + s);
    assert Get8([Bit(ans.handled)] + s) == Scanned(Bit(ans.handled), s);
    assert GetBytes(|ans.reply|, s) == Scanned(ans.reply, rest);
  }

  /** The response to a request ends the wait with the handler's answer, and takes nothing more off the stream. */
  lemma WaitForResponse(q: Rec, ans: Answer, mem: Memory, rest: seq<byte>)
    requires Asks(q)
    ensures WaitNext(q, mem, PutMsg(Respond(q, ans), rest)) == Done(OutcomeOf(q, ans), rest)
  {
    hide LE16, LE32, LE64, UnLE16, UnLE32, UnLE64, HandleMemory, TakeEmu;
    if q.Emu? {
      WaitForEmu(q, ans, mem, rest);
    }
  }

  lemma MemHeadPut(m: MemOp, rest: seq<byte>)
    ensures MemHead(LE64(m.addr) + (LE32(m.size) + (LE32(m.lock) + (LE32(m.op) + rest)))) ==
            Scanned((m.addr, m.size, m.lock, m.op), rest)
  {
    hide LE32, LE64, UnLE32, UnLE64;
  }

  /** A memory request gets one response, with the result and the effect of a direct access, and the wait goes on. */
  lemma WaitServes(q: Rec, m: MemOp, mem: Memory, rest: seq<byte>)
    requires Serves(q) && MemOpOk(m)
    ensures WaitNext(q, mem, PutMsg(RequestFor(m), rest)) ==
            Again(DirectEffect(mem, m), PutMemResponse(m.addr, m.op, DirectResult(mem, m), []), rest)
  {
    hide LE32, LE64, UnLE32, UnLE64, PutMemResponse, ReadMemory, WriteMemory, MemHead, GetHeader, PutMsg;
    RequestHeader(m, rest);
    MemHeadPut(m, m.data + rest);
    assert m.data == [] ==> m.data + rest == rest;
  }

  lemma HeaderZero(kind: byte, size: u32, rest: seq<byte>)
    ensures Header(kind, size, rest) != [] && Header(kind, size, rest)[0] == 0
  {
  }

  /** The reader takes the response for a success with the direct result. */
  lemma TakeMemoryResponse(m: MemOp, data: seq<byte>, rest: seq<byte>)
    requires MemOpOk(m) && |data| == if m.op == MEM_READ then m.size else 0
    ensures TakeMemory(m, PutMemResponse(m.addr, m.op, data, rest)) == Success(data, rest)
  {
    hide LE32, LE64, UnLE32, UnLE64, Header, GetHeader;
    var s := LE64(m.addr) + (LE32(m.op) + (data + rest));
    GetPutHeader(MEMORY_RESPONSE, (12 + |data|) % TWO32, s);
    assert data == [] ==> data + rest == rest;
  }

  // ---- where nested memory access does not work ----

  /** The bytes of a request after its header. */
  function RequestBody(m: MemOp, rest: seq<byte>): seq<byte> {
    LE64(m.addr) + (LE32(m.size) + (LE32(m.lock) + (LE32(m.op) + (m.data + rest))))
  }

  /** The length field of a write that is too long goes round to less than the fixed part of a request. */
  ghost predicate Overlong(m: MemOp) {
    m.op == MEM_WRITE && m.size >= TWO32 - 20
  }

  /** A request sent while the writer waits in a call is answered if and only if the call's loop serves memory requests,
      the access is not empty, and it is a read, or a write whose length fits the length field. A loop that serves
      requests drops the others without an answer, and leaves an overlong write's bytes on the stream; the other calls
      give up with the request's bytes on the stream. */
  lemma AnsweredExactly(q: Rec, m: MemOp, mem: Memory, rest: seq<byte>)
    requires Asks(q) && Formed(m)
    ensures var step := WaitNext(q, mem, PutMsg(RequestFor(m), rest));
            && ((step.Again? && step.out != []) <==>
                Serves(q) && 0 < m.size && (m.op == MEM_READ || (m.op == MEM_WRITE && m.size < TWO32 - 20)))
            && (Serves(q) && !MemOpOk(m) ==> step == Again(mem, [], if Overlong(m) then RequestBody(m, rest) else rest))
            && (!Serves(q) ==> step == GaveUp(RequestBody(m, rest)))
  {
    hide LE32, LE64, UnLE32, UnLE64, PutMemResponse, ReadMemory, WriteMemory, MemHead, Header, GetHeader;
    if Serves(q) {
      if MemOpOk(m) {
        WaitServes(q, m, mem, rest);
        MemResponseSome(m, DirectResult(mem, m));
      } else {
        DroppedRequest(q, m, mem, rest);
      }
    } else {
      RequestHeader(m, rest);
    }
  }

  lemma RequestHeader(m: MemOp, rest: seq<byte>)
    ensures GetHeader(PutMsg(RequestFor(m), rest)) ==
            Scanned((MEMORY_REQUEST, (20 + |m.data|) % TWO32), RequestBody(m, rest))
    ensures PutMsg(RequestFor(m), rest) != [] && PutMsg(RequestFor(m), rest)[0] == 0
  {
    hide LE32, LE64, Header, GetHeader;
    GetPutHeader(MEMORY_REQUEST, (20 + |m.data|) % TWO32, RequestBody(m, rest));
    HeaderZero(MEMORY_REQUEST, (20 + |m.data|) % TWO32, RequestBody(m, rest));
  }

  lemma DroppedRequest(q: Rec, m: MemOp, mem: Memory, rest: seq<byte>)
    requires Serves(q) && Formed(m) && !MemOpOk(m)
    ensures WaitNext(q, mem, PutMsg(RequestFor(m), rest)) ==
            Again(mem, [], if Overlong(m) then RequestBody(m, rest) else rest)
  {
    hide LE32, LE64, UnLE32, UnLE64, PutMemResponse, ReadMemory, WriteMemory, MemHead, GetHeader, PutMsg;
    RequestHeader(m, rest);
    MemHeadPut(m, m.data + rest);
    assert m.data == [] ==> m.data + rest == rest;
  }

  lemma MemResponseSome(m: MemOp, data: seq<byte>)
    ensures PutMemResponse(m.addr, m.op, data, []) != []
  {
  }

  // ---- a whole wait ----

  ghost predicate AllMemOpOk(ms: seq<MemOp>) {
    forall i :: 0 <= i < |ms| ==> MemOpOk(ms[i])
  }

  function PutRequests(ms: seq<MemOp>, rest: seq<byte>): seq<byte>
    requires AllMemOpOk(ms)
  {
    if ms == [] then rest else PutMsg(RequestFor(ms[0]), PutRequests(ms[1..], rest))
  }

  /** The memory after a sequence of direct accesses, and the responses that carry their results. */
  function DirectEffects(mem: Memory, ms: seq<MemOp>): Memory
    decreases |ms|
  {
    if ms == [] then mem else DirectEffects(DirectEffect(mem, ms[0]), ms[1..])
  }

  function DirectResponses(mem: Memory, ms: seq<MemOp>): seq<byte>
    decreases |ms|
  {
    if ms == [] then [] else
    PutMemResponse(ms[0].addr, ms[0].op, DirectResult(mem, ms[0]), []) +
    DirectResponses(DirectEffect(mem, ms[0]), ms[1..])
  }

  /** A call that serves memory requests, sent any sequence of them and then its response, performs each as a direct
      access in order, answers each once, and returns the response. */
  lemma {:induction false} AwaitSession(q: Rec, ms: seq<MemOp>, ans: Answer, mem: Memory, out: seq<byte>,
                                        rest: seq<byte>)
    requires Serves(q) && AllMemOpOk(ms)
    ensures Await(q, mem, out, PutRequests(ms, PutMsg(Respond(q, ans), rest))) ==
            AwaitOut(Done(OutcomeOf(q, ans), rest), DirectEffects(mem, ms), out + DirectResponses(mem, ms))
    decreases |ms|
  {
    hide WaitNext, PutMsg, PutMemResponse, DirectEffect, DirectResult, Respond, OutcomeOf;
    if ms == [] {
      WaitForResponse(q, ans, mem, rest);
      assert out + [] == out;
    } else {
      var tail := PutRequests(ms[1..], PutMsg(Respond(q, ans), rest));
      WaitServes(q, ms[0], mem, tail);
      var reply := PutMemResponse(ms[0].addr, ms[0].op, DirectResult(mem, ms[0]), []);
      var mem' := DirectEffect(mem, ms[0]);
      AwaitSession(q, ms[1..], ans, mem', out + reply, rest);
      assert out + reply + DirectResponses(mem', ms[1..]) == out + (reply + DirectResponses(mem', ms[1..]));
    }
  }

  /** A byte read back after a write is the one written; other bytes are left alone. */
  lemma {:induction false} WriteMemoryAt(mem: Memory, addr: u64, data: seq<byte>, x: u64)
    requires |data| <= TWO64
    ensures var mem' := WriteMemory(mem, addr, data);
            if Ahead(addr, x) < |data| then x in mem' && mem'[x] == data[Ahead(addr, x)]
            else (x in mem' <==> x in mem) && (x in mem ==> mem'[x] == mem[x])
    decreases |data|
  {
    hide Plus, Ahead;
    if data != [] {
      WriteMemoryAt(mem[addr := data[0]], Plus(addr, 1), data[1..], x);
      AheadOne(addr, x);
    }
  }

  lemma AheadOne(a: u64, x: u64)
    ensures Ahead(Plus(a, 1), x) == if x == a then TWO64 - 1 else Ahead(a, x) - 1
    ensures Ahead(a, x) == 0 <==> x == a
  {
  }
}
