/** The messages that go back from the reader to the writer, and the memory messages nested in them. */
module SiftMessages {
  import opened Bytes
  import opened SiftFormat

  const MEM_READ: u32 := 1
  const MEM_WRITE: u32 := 2

  type EmuReply = s: seq<byte> | |s| == EMU_REPLY_SIZE witness seq(EMU_REPLY_SIZE, i => 0)

  datatype Msg =
    | SyscallResponse(word: u64)
    | NewThreadResponse(code: i32)
    | JoinResponse(code: i32)
    | SyncResponse(mode: u32)
    | ForkResponse(code: i32)
    | MagicResponse(word: u64)
    | EmuResponse(handled: byte, reply: EmuReply)
    | MemoryRequest(addr: u64, size: u32, lock: u32, op: u32, payload: seq<byte>)
    | Shutdown

  /** The length field of a memory request has 32 bits, like its size. */
  function PutMsg(m: Msg, rest: seq<byte>): seq<byte> {
    match m
    case SyscallResponse(word) => Header(SYSCALL_RESPONSE, 8, LE64(word) + rest)
    case NewThreadResponse(code) => Header(NEW_THREAD_RESPONSE, 4, LE32(ToUnsigned(code)) + rest)
    case JoinResponse(code) => Header(JOIN_RESPONSE, 4, LE32(ToUnsigned(code)) + rest)
    case SyncResponse(mode) => Header(SYNC_RESPONSE, 4, LE32(mode) + rest)
    case ForkResponse(code) => Header(FORK_RESPONSE, 4, LE32(ToUnsigned(code)) + rest)
    case MagicResponse(word) => Header(MAGIC_RESPONSE, 8, LE64(word) + rest)
    case EmuResponse(handled, reply) => Header(EMU_RESPONSE, 1 + |reply|, [handled] + (reply + rest))
    case MemoryRequest(addr, size, lock, op, payload) =>
      Header(MEMORY_REQUEST, (20 + |payload|) % TWO32,
             LE64(addr) + (LE32(size) + (LE32(lock) + (LE32(op) + (payload + rest)))))
    case Shutdown => Header(SHUTDOWN, 0, rest)
  }

  /** The answer of a back-end handler: each handler fills the part its request reads. */
  datatype Answer = Answer(word: u64, code: i32, mode: u32, handled: bool, reply: EmuReply)

  /** The writer calls that block until the reader answers. */
  predicate Asks(r: Rec) {
    r.InstructionCount? || r.Syscall? || r.NewThread? || r.Join? || r.Sync? || r.Fork? || r.Magic? || r.Emu?
  }

  function Respond(q: Rec, ans: Answer): (m: Msg)
    requires Asks(q)
    ensures !m.MemoryRequest? && !m.Shutdown?
  {
    match q
    case InstructionCount(_) => SyncResponse(ans.mode)
    case Syscall(_, _) => SyscallResponse(ans.word)
    case NewThread => NewThreadResponse(ans.code)
    case Join(_) => JoinResponse(ans.code)
    case Sync => SyncResponse(ans.mode)
    case Fork => ForkResponse(ans.code)
    case Magic(_, _, _) => MagicResponse(ans.word)
    case Emu(_, _) => EmuResponse(Bit(ans.handled), ans.reply)
  }

  /** A magic request answered with 42 gets no response now. */
  predicate Defers(q: Rec, ans: Answer) {
    q.Magic? && ans.word == 42
  }
}
