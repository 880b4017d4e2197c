/** The records of a SIFT trace, their byte layout and the reader's way of telling them apart
    (sift/sift_format.h). */
module SiftFormat {
  import opened Bytes

  const MAX_DYNAMIC_ADDRESSES := 2
  const PAGE := 4096               // PAGE_SIZE_SIFT and ICACHE_SIZE
  const EMU_REQUEST_SIZE := 8      // sizeof(EmuRequest): its largest member is two 32-bit registers
  const EMU_REPLY_SIZE := 48       // sizeof(EmuReply): six 64-bit counters

  // RecOtherType
  const ICACHE: byte := 0
  const OUTPUT: byte := 1
  const SYSCALL_REQUEST: byte := 2
  const SYSCALL_RESPONSE: byte := 3
  const NEW_THREAD: byte := 4
  const NEW_THREAD_RESPONSE: byte := 5
  const MEMORY_REQUEST: byte := 6
  const MEMORY_RESPONSE: byte := 7
  const JOIN: byte := 8
  const JOIN_RESPONSE: byte := 9
  const ICACHE_VARIABLE: byte := 11
  const SYNC: byte := 12
  const SYNC_RESPONSE: byte := 13
  const LOGICAL2PHYSICAL: byte := 14
  const MAGIC: byte := 15
  const MAGIC_RESPONSE: byte := 16
  const ROUTINE_CHANGE: byte := 17
  const ROUTINE_ANNOUNCE: byte := 18
  const EMU: byte := 19
  const EMU_RESPONSE: byte := 20
  const FORK: byte := 21
  const FORK_RESPONSE: byte := 22
  const INSTRUCTION_COUNT: byte := 23
  const CACHE_ONLY: byte := 24
  const ISA_CHANGE: byte := 25
  const SHUTDOWN: byte := 26
  const END: byte := 255

  type CodePage = s: seq<byte> | |s| == PAGE witness seq(PAGE, i => 0)

  /** One record of the stream that goes from the writer to the reader. Routine names are held as
      they travel, with their terminating zero. */
  datatype Rec =
    | Simple(size: nat, addresses: seq<u64>, isBranch: bool, taken: bool)
    | Ext(size: nat, addresses: seq<u64>, isBranch: bool, taken: bool, isPredicate: bool, executed: bool, addr: u64)
    | Icache(base: u64, page: CodePage)
    | IcacheVariable(base: u64, data: seq<byte>)
    | Logical2Physical(vp: u64, pp: u64)
    | InstructionCount(icount: u32)
    | CacheOnly(icount8: byte, kind: byte, eip: u64, address: u64)
    | Output(fd: byte, data: seq<byte>)
    | Syscall(number: u16, data: seq<byte>)
    | NewThread
    | Join(thread: i32)
    | Sync
    | Fork
    | Magic(a: u64, b: u64, c: u64)
    | Emu(emuType: u16, request: seq<byte>)
    | RoutineChange(event: byte, eip: u64, esp: u64, callEip: u64)
    | RoutineAnnounce(eip: u64, name: seq<byte>, imgname: seq<byte>, offset: u64, line: u32, column: u32,
                      filename: seq<byte>)
    | IsaChange(isa: u32)
    | End
    | Unknown(kind: byte, data: seq<byte>)

  /** What fits the fields of the layout, and what the reader's assertions accept. */
  ghost predicate WellFormed(r: Rec) {
    match r
    case Simple(size, addresses, _, _) => 1 <= size <= 15 && |addresses| <= MAX_DYNAMIC_ADDRESSES
    case Ext(size, addresses, _, _, _, _, _) => 1 <= size <= 15 && |addresses| <= MAX_DYNAMIC_ADDRESSES
    case IcacheVariable(_, data) => |data| < TWO32 - 8
    case Output(_, data) => 0 < |data| < TWO32 - 1
    case Syscall(_, data) => 0 < |data| < TWO32 - 2
    case Emu(_, request) => |request| == EMU_REQUEST_SIZE
    case RoutineAnnounce(_, name, imgname, _, _, _, filename) =>
      |name| < TWO16 && |imgname| < TWO16 && |filename| < TWO16
    case Unknown(kind, data) => !KnownToRead(kind) && |data| < TWO32
    case _ => true
  }

  // The type codes that have a case of their own in Reader::Read.

  predicate IsImage(kind: byte) {
    kind == ICACHE || kind == ICACHE_VARIABLE || kind == LOGICAL2PHYSICAL
  }

  predicate IsRequest(kind: byte) {
    kind == SYSCALL_REQUEST || kind == NEW_THREAD || kind == JOIN || kind == SYNC || kind == FORK ||
    kind == MAGIC || kind == EMU
  }

  predicate IsSide(kind: byte) {
    kind == INSTRUCTION_COUNT || kind == CACHE_ONLY || kind == OUTPUT || kind == ROUTINE_CHANGE ||
    kind == ROUTINE_ANNOUNCE || kind == ISA_CHANGE || kind == END
  }

  predicate KnownToRead(kind: byte) {
    IsImage(kind) || IsRequest(kind) || IsSide(kind)
  }

  // ---- layout ----
  // Each function gives the record's bytes followed by `rest`, so that what is read back off the
  // front of the stream is visible in the shape of the expression.

  function Bit(b: bool): (r: nat)
    ensures r == 0 || r == 1
  {
    if b then 1 else 0
  }

  function Header(kind: byte, size: u32, rest: seq<byte>): seq<byte> {
    [0] + ([kind] + (LE32(size) + rest))
  }

  function PutAddresses(addresses: seq<u64>, rest: seq<byte>): seq<byte> {
    if addresses == [] then rest else LE64(addresses[0]) + PutAddresses(addresses[1..], rest)
  }

  function PutString(b: seq<byte>, rest: seq<byte>): seq<byte>
    requires |b| < TWO16
  {
    LE16(|b|) + (b + rest)
  }

  function PutLocation(offset: u64, line: u32, column: u32, filename: seq<byte>, rest: seq<byte>): seq<byte>
    requires |filename| < TWO16
  {
    LE64(offset) + (LE32(line) + (LE32(column) + PutString(filename, rest)))
  }

  function SimpleByte(size: nat, n: nat, isBranch: bool, taken: bool): byte
    requires size < 16 && n < 4
  {
    size + 16 * n + 64 * Bit(isBranch) + 128 * Bit(taken)
  }

  function FlagsByte(n: nat, isBranch: bool, taken: bool, isPredicate: bool, executed: bool): byte
    requires n < 4
  {
    n + 4 * Bit(isBranch) + 8 * Bit(taken) + 16 * Bit(isPredicate) + 32 * Bit(executed)
  }

  function Put(r: Rec, rest: seq<byte>): seq<byte>
    requires WellFormed(r)
  {
    match r
    case Simple(size, addresses, isBranch, taken) =>
      [SimpleByte(size, |addresses|, isBranch, taken)] + PutAddresses(addresses, rest)
    case Ext(size, addresses, isBranch, taken, isPredicate, executed, addr) =>
      [16 * size] + ([FlagsByte(|addresses|, isBranch, taken, isPredicate, executed)] +
                     (LE64(addr) + PutAddresses(addresses, rest)))
    case Icache(base, page) => Header(ICACHE, 8 + PAGE, LE64(base) + (page + rest))
    case IcacheVariable(base, data) => Header(ICACHE_VARIABLE, 8 + |data|, LE64(base) + (data + rest))
    case Logical2Physical(vp, pp) => Header(LOGICAL2PHYSICAL, 16, LE64(vp) + (LE64(pp) + rest))
    case InstructionCount(icount) => Header(INSTRUCTION_COUNT, 4, LE32(icount) + rest)
    case CacheOnly(icount, kind, eip, address) =>
      Header(CACHE_ONLY, 18, [icount] + ([kind] + (LE64(eip) + (LE64(address) + rest))))
    case Output(fd, data) => Header(OUTPUT, 1 + |data|, [fd] + (data + rest))
    case Syscall(number, data) => Header(SYSCALL_REQUEST, 2 + |data|, LE16(number) + (data + rest))
    case NewThread => Header(NEW_THREAD, 0, rest)
    case Join(thread) => Header(JOIN, 4, LE32(ToUnsigned(thread)) + rest)
    case Sync => Header(SYNC, 0, rest)
    case Fork => Header(FORK, 0, rest)
    case Magic(a, b, c) => Header(MAGIC, 24, LE64(a) + (LE64(b) + (LE64(c) + rest)))
    case Emu(emuType, request) => Header(EMU, 2 + |request|, LE16(emuType) + (request + rest))
    case RoutineChange(event, eip, esp, callEip) =>
      Header(ROUTINE_CHANGE, 25, [event] + (LE64(eip) + (LE64(esp) + (LE64(callEip) + rest))))
    case RoutineAnnounce(eip, name, imgname, offset, line, column, filename) =>
      Header(ROUTINE_ANNOUNCE, 30 + |name| + |imgname| + |filename|,
             LE64(eip) + PutString(name, PutString(imgname, PutLocation(offset, line, column, filename, rest))))
    case IsaChange(isa) => Header(ISA_CHANGE, 4, LE32(isa) + rest)
    case End => Header(END, 0, rest)
    case Unknown(kind, data) => Header(kind, |data|, data + rest)
  }

  ghost predicate AllWellFormed(recs: seq<Rec>) {
    forall i :: 0 <= i < |recs| ==> WellFormed(recs[i])
  }

  function PutAll(recs: seq<Rec>, rest: seq<byte>): seq<byte>
    requires AllWellFormed(recs)
  {
    if recs == [] then rest else Put(recs[0], PutAll(recs[1..], rest))
  }

  // ---- reading ----

  function GetAddresses(n: nat, s: seq<byte>): (r: Scan<seq<u64>>)
    ensures r.Scanned? ==> |r.value| == n && |r.rest| <= |s|
  {
    if n == 0 then Scanned([], s) else
    var (a, s1) :- Get64(s);
    var (more, s2) :- GetAddresses(n - 1, s1);
    Scanned([a] + more, s2)
  }

  function ParseSimple(s: seq<byte>): (r: Scan<Rec>)
    requires |s| > 0
    ensures r.Scanned? ==> |r.rest| < |s|
  {
    var b := s[0];
    var n := b / 16 % 4;
    if n > MAX_DYNAMIC_ADDRESSES then Malformed else
    var (addresses, s1) :- GetAddresses(n, s[1..]);
    Scanned(Simple(b % 16, addresses, b / 64 % 2 == 1, b / 128 == 1), s1)
  }

  function ParseExt(s: seq<byte>): (r: Scan<Rec>)
    requires |s| > 0
    ensures r.Scanned? ==> |r.rest| < |s|
  {
    var size := s[0] / 16;
    var (f, s1) :- Get8(s[1..]);
    var n := f % 4;
    var (addr, s2) :- Get64(s1);
    if n > MAX_DYNAMIC_ADDRESSES then Malformed else
    var (addresses, s3) :- GetAddresses(n, s2);
    Scanned(Ext(size, addresses, f / 4 % 2 == 1, f / 8 % 2 == 1, f / 16 % 2 == 1, f / 32 % 2 == 1, addr), s3)
  }

  function GetHeader(s: seq<byte>): (r: Scan<(byte, u32)>)
    ensures r.Scanned? ==> |r.rest| < |s|
  {
    var (zero, s0) :- Get8(s);
    var (kind, s1) :- Get8(s0);
    var (size, s2) :- Get32(s1);
    Scanned((kind, size), s2)
  }

  function ParseImage(kind: byte, size: u32, s: seq<byte>): (r: Scan<Rec>)
    requires IsImage(kind)
    ensures r.Scanned? ==> |r.rest| <= |s| && !r.value.Simple? && !r.value.Ext?
  {
    if kind == ICACHE then
      if size != 8 + PAGE then Malformed else
      var (base, s1) :- Get64(s);
      var (page, s2) :- GetBytes(PAGE, s1);
      Scanned(Icache(base, page), s2)
    else if kind == ICACHE_VARIABLE then
      if size < 8 then Malformed else
      var (base, s1) :- Get64(s);
      var (data, s2) :- GetBytes(size - 8, s1);
      Scanned(IcacheVariable(base, data), s2)
    else
      if size != 16 then Malformed else
      var (vp, s1) :- Get64(s);
      var (pp, s2) :- Get64(s1);
      Scanned(Logical2Physical(vp, pp), s2)
  }

  /** A length-prefixed string. */
  function GetString(s: seq<byte>): (r: Scan<seq<byte>>)
    ensures r.Scanned? ==> |r.rest| <= |s|
  {
    var (n, s1) :- Get16(s);
    GetBytes(n, s1)
  }

  function ParseLocation(eip: u64, name: seq<byte>, imgname: seq<byte>, s: seq<byte>): (r: Scan<Rec>)
    ensures r.Scanned? ==> |r.rest| <= |s| && !r.value.Simple? && !r.value.Ext?
  {
    var (offset, s1) :- Get64(s);
    var (line, s2) :- Get32(s1);
    var (column, s3) :- Get32(s2);
    var (filename, s4) :- GetString(s3);
    Scanned(RoutineAnnounce(eip, name, imgname, offset, line, column, filename), s4)
  }

  function ParseAnnounce(s: seq<byte>): (r: Scan<Rec>)
    ensures r.Scanned? ==> |r.rest| <= |s| && !r.value.Simple? && !r.value.Ext?
  {
    var (eip, s1) :- Get64(s);
    var (name, s2) :- GetString(s1);
    var (imgname, s3) :- GetString(s2);
    ParseLocation(eip, name, imgname, s3)
  }

  function ParseCacheOnly(s: seq<byte>): (r: Scan<Rec>)
    ensures r.Scanned? ==> |r.rest| <= |s| && r.value.CacheOnly?
  {
    var (icount, s1) :- Get8(s);
    var (k, s2) :- Get8(s1);
    var (eip, s3) :- Get64(s2);
    var (address, s4) :- Get64(s3);
    Scanned(CacheOnly(icount, k, eip, address), s4)
  }

  function ParseRoutineChange(s: seq<byte>): (r: Scan<Rec>)
    ensures r.Scanned? ==> |r.rest| <= |s| && r.value.RoutineChange?
  {
    var (event, s1) :- Get8(s);
    var (eip, s2) :- Get64(s1);
    var (esp, s3) :- Get64(s2);
    var (callEip, s4) :- Get64(s3);
    Scanned(RoutineChange(event, eip, esp, callEip), s4)
  }

  function ParseSide(kind: byte, size: u32, s: seq<byte>): (r: Scan<Rec>)
    requires IsSide(kind)
    ensures r.Scanned? ==> |r.rest| <= |s| && !r.value.Simple? && !r.value.Ext?
  {
    if kind == INSTRUCTION_COUNT then
      if size != 4 then Malformed else
      var (icount, s1) :- Get32(s);
      Scanned(InstructionCount(icount), s1)
    else if kind == CACHE_ONLY then
      if size != 18 then Malformed else ParseCacheOnly(s)
    else if kind == OUTPUT then
      if size <= 1 then Malformed else
      var (fd, s1) :- Get8(s);
      var (data, s2) :- GetBytes(size - 1, s1);
      Scanned(Output(fd, data), s2)
    else if kind == ROUTINE_CHANGE then
      if size != 25 then Malformed else ParseRoutineChange(s)
    else if kind == ROUTINE_ANNOUNCE then
      ParseAnnounce(s)
    else if kind == ISA_CHANGE then
      if size != 4 then Malformed else
      var (isa, s1) :- Get32(s);
      Scanned(IsaChange(isa), s1)
    else
      if size != 0 then Malformed else Scanned(End, s)
  }

  function ParseRequest(kind: byte, size: u32, s: seq<byte>): (r: Scan<Rec>)
    requires IsRequest(kind)
    ensures r.Scanned? ==> |r.rest| <= |s| && !r.value.Simple? && !r.value.Ext?
  {
    if kind == SYSCALL_REQUEST then
      if size <= 2 then Malformed else
      var (number, s1) :- Get16(s);
      var (data, s2) :- GetBytes(size - 2, s1);
      Scanned(Syscall(number, data), s2)
    else if kind == NEW_THREAD then
      if size != 0 then Malformed else Scanned(NewThread, s)
    else if kind == JOIN then
      if size != 4 then Malformed else
      var (thread, s1) :- Get32(s);
      Scanned(Join(ToSigned(thread)), s1)
    else if kind == SYNC then
      if size != 0 then Malformed else Scanned(Sync, s)
    else if kind == FORK then
      if size != 0 then Malformed else Scanned(Fork, s)
    else if kind == MAGIC then
      if size != 24 then Malformed else
      var (a, s1) :- Get64(s);
      var (b, s2) :- Get64(s1);
      var (c, s3) :- Get64(s2);
      Scanned(Magic(a, b, c), s3)
    else
      if size < 2 || size > 2 + EMU_REQUEST_SIZE then Malformed else
      var (emuType, s1) :- Get16(s);
      var (request, s2) :- GetBytes(size - 2, s1);
      Scanned(Emu(emuType, request), s2)
  }

  function ParseOther(kind: byte, size: u32, s: seq<byte>): (r: Scan<Rec>)
    ensures r.Scanned? ==> |r.rest| <= |s| && !r.value.Simple? && !r.value.Ext?
  {
    if IsImage(kind) then
      ParseImage(kind, size, s)
    else if IsRequest(kind) then
      ParseRequest(kind, size, s)
    else if IsSide(kind) then
      ParseSide(kind, size, s)
    else
      var (data, s1) :- GetBytes(size, s);
      Scanned(Unknown(kind, data), s1)
  }

  /** The next record, told apart by the nibbles of the first byte. */
  function ParseRec(s: seq<byte>): (r: Scan<Rec>)
    ensures r.Scanned? ==> |r.rest| < |s|
  {
    if s == [] then
      Short
    else if s[0] == 0 then
      var (h, s1) :- GetHeader(s);
      ParseOther(h.0, h.1, s1)
    else if s[0] % 16 != 0 then
      ParseSimple(s)
    else
      ParseExt(s)
  }

  // ---- reading what was written ----

  lemma {:induction false} GetPutAddresses(addresses: seq<u64>, rest: seq<byte>)
    ensures GetAddresses(|addresses|, PutAddresses(addresses, rest)) == Scanned(addresses, rest)
  {
    if addresses != [] {
      GetPutAddresses(addresses[1..], rest);
      assert addresses == [addresses[0]] + addresses[1..];
    }
  }

  lemma {:induction false} GetPutHeader(kind: byte, size: u32, rest: seq<byte>)
    ensures GetHeader(Header(kind, size, rest)) == Scanned((kind, size), rest)
    ensures ParseRec(Header(kind, size, rest)) == ParseOther(kind, size, rest)
  {
    hide LE32, UnLE32, ParseOther;
  }

  lemma {:induction false} SimpleByteFields(size: nat, n: nat, isBranch: bool, taken: bool)
    requires 1 <= size < 16 && n < 4
    ensures var b := SimpleByte(size, n, isBranch, taken);
            b != 0 && b % 16 == size && b / 16 % 4 == n && (b / 64 % 2 == 1) == isBranch && (b / 128 == 1) == taken
  {
  }

  lemma {:induction false} FlagsByteFields(n: nat, isBranch: bool, taken: bool, isPredicate: bool, executed: bool)
    requires n < 4
    ensures var f := FlagsByte(n, isBranch, taken, isPredicate, executed);
            f % 4 == n && (f / 4 % 2 == 1) == isBranch && (f / 8 % 2 == 1) == taken &&
            (f / 16 % 2 == 1) == isPredicate && (f / 32 % 2 == 1) == executed
  {
  }

  lemma {:induction false} ParsePutSimple(r: Rec, rest: seq<byte>)
    requires WellFormed(r) && r.Simple?
    ensures ParseRec(Put(r, rest)) == Scanned(r, rest)
  {
    hide LE16, LE32, LE64, UnLE16, UnLE32, UnLE64;
    var s := Put(r, rest);
    SimpleByteFields(r.size, |r.addresses|, r.isBranch, r.taken);
    GetPutAddresses(r.addresses, rest);
    assert s[1..] == PutAddresses(r.addresses, rest);
  }

  lemma {:induction false} ParsePutExt(r: Rec, rest: seq<byte>)
    requires WellFormed(r) && r.Ext?
    ensures ParseRec(Put(r, rest)) == Scanned(r, rest)
  {
    hide LE16, LE32, LE64, UnLE16, UnLE32, UnLE64;
    var s := Put(r, rest);
    var f := FlagsByte(|r.addresses|, r.isBranch, r.taken, r.isPredicate, r.executed);
    var tail := LE64(r.addr) + PutAddresses(r.addresses, rest);
    assert s[1..] == [f] + tail;
    assert s[0] % 16 == 0 && s[0] / 16 == r.size;
    assert Get8(s[1..]) == Scanned(f, tail);
    FlagsByteFields(|r.addresses|, r.isBranch, r.taken, r.isPredicate, r.executed);
    GetPutAddresses(r.addresses, rest);
  }

  lemma GetPutString(b: seq<byte>, rest: seq<byte>)
    requires |b| < TWO16
    ensures GetString(PutString(b, rest)) == Scanned(b, rest)
  {
    assert Get16(LE16(|b|) + (b + rest)) == Scanned(|b|, b + rest);
  }

  lemma {:induction false} ParsePutImage(r: Rec, rest: seq<byte>)
    requires WellFormed(r) && (r.Icache? || r.IcacheVariable? || r.Logical2Physical?)
    ensures ParseRec(Put(r, rest)) == Scanned(r, rest)
  {
    hide LE16, LE32, LE64, UnLE16, UnLE32, UnLE64;
  }

  lemma {:induction false} ParsePutRequest(r: Rec, rest: seq<byte>)
    requires WellFormed(r)
    requires r.Syscall? || r.NewThread? || r.Join? || r.Sync? || r.Fork? || r.Magic? || r.Emu?
    ensures ParseRec(Put(r, rest)) == Scanned(r, rest)
  {
    hide LE16, LE32, LE64, UnLE16, UnLE32, UnLE64;
  }

  lemma {:induction false} ParsePutLocation(r: Rec, rest: seq<byte>)
    requires WellFormed(r) && r.RoutineAnnounce?
    ensures ParseLocation(r.eip, r.name, r.imgname, PutLocation(r.offset, r.line, r.column, r.filename, rest)) ==
            Scanned(r, rest)
  {
    hide LE16, LE32, LE64, UnLE16, UnLE32, UnLE64, PutString, GetString;
    GetPutString(r.filename, rest);
  }

  lemma {:induction false} ParsePutAnnounce(r: Rec, rest: seq<byte>)
    requires WellFormed(r) && r.RoutineAnnounce?
    ensures ParseRec(Put(r, rest)) == Scanned(r, rest)
  {
    hide LE16, LE32, LE64, UnLE16, UnLE32, UnLE64, PutString, GetString, ParseLocation, PutLocation, Header, GetHeader;
    var s3 := PutLocation(r.offset, r.line, r.column, r.filename, rest);
    var s1 := PutString(r.name, PutString(r.imgname, s3));
    GetPutHeader(ROUTINE_ANNOUNCE, 30 + |r.name| + |r.imgname| + |r.filename|, LE64(r.eip) + s1);
    GetPutString(r.name, PutString(r.imgname, s3));
    GetPutString(r.imgname, s3);
    ParsePutLocation(r, rest);
  }

  lemma {:induction false} ParsePutSide(r: Rec, rest: seq<byte>)
    requires WellFormed(r)
    requires r.InstructionCount? || r.Output? || r.IsaChange? || r.End? || r.Unknown?
    ensures ParseRec(Put(r, rest)) == Scanned(r, rest)
  {
    hide LE16, LE32, LE64, UnLE16, UnLE32, UnLE64, ParseRec, Header, GetHeader;
    if r.InstructionCount? {
      GetPutHeader(INSTRUCTION_COUNT, 4, LE32(r.icount) + rest);
    } else if r.Output? {
      GetPutHeader(OUTPUT, 1 + |r.data|, [r.fd] + (r.data + rest));
      assert Get8([r.fd] + (r.data + rest)) == Scanned(r.fd, r.data + rest);
    } else if r.IsaChange? {
      GetPutHeader(ISA_CHANGE, 4, LE32(r.isa) + rest);
    } else if r.End? {
      GetPutHeader(END, 0, rest);
    } else {
      GetPutHeader(r.kind, |r.data|, r.data + rest);
    }
  }

  lemma {:induction false} ParsePutEvent(r: Rec, rest: seq<byte>)
    requires WellFormed(r) && (r.CacheOnly? || r.RoutineChange?)
    ensures ParseRec(Put(r, rest)) == Scanned(r, rest)
  {
    hide LE16, LE32, LE64, UnLE16, UnLE32, UnLE64;
    if r.CacheOnly? {
      var s2 := LE64(r.eip) + (LE64(r.address) + rest);
      assert Get8([r.icount8] + ([r.kind] + s2)) == Scanned(r.icount8, [r.kind] + s2);
      assert Get8([r.kind] + s2) == Scanned(r.kind, s2);
    } else {
      var s1 := LE64(r.eip) + (LE64(r.esp) + (LE64(r.callEip) + rest));
      assert Get8([r.event] + s1) == Scanned(r.event, s1);
    }
  }

  /** Every record comes back from the front of any stream it starts, and nothing after it is touched. */
  lemma {:induction false} ParsePut(r: Rec, rest: seq<byte>)
    requires WellFormed(r)
    ensures ParseRec(Put(r, rest)) == Scanned(r, rest)
  {
    hide ParseRec, Put;
    if r.Simple? {
      ParsePutSimple(r, rest);
    } else if r.Ext? {
      ParsePutExt(r, rest);
    } else if r.Icache? || r.IcacheVariable? || r.Logical2Physical? {
      ParsePutImage(r, rest);
    } else if r.Syscall? || r.NewThread? || r.Join? || r.Sync? || r.Fork? || r.Magic? || r.Emu? {
      ParsePutRequest(r, rest);
    } else if r.RoutineAnnounce? {
      ParsePutAnnounce(r, rest);
    } else if r.CacheOnly? || r.RoutineChange? {
      ParsePutEvent(r, rest);
    } else {
      ParsePutSide(r, rest);
    }
  }

  // ---- appending ----

  lemma {:induction false} PutAddressesAppend(addresses: seq<u64>, a: seq<byte>, b: seq<byte>)
    ensures PutAddresses(addresses, a + b) == PutAddresses(addresses, a) + b
  {
    if addresses != [] {
      PutAddressesAppend(addresses[1..], a, b);
    }
  }

  lemma Assoc(x: seq<byte>, a: seq<byte>, b: seq<byte>)
    ensures x + (a + b) == (x + a) + b
  {
  }

  lemma HeaderAppend(kind: byte, size: u32, a: seq<byte>, b: seq<byte>)
    ensures Header(kind, size, a + b) == Header(kind, size, a) + b
  {
    hide LE32;
  }

  lemma PutStringAppend(s: seq<byte>, a: seq<byte>, b: seq<byte>)
    requires |s| < TWO16
    ensures PutString(s, a + b) == PutString(s, a) + b
  {
    hide LE16;
  }

  lemma {:induction false} PutAppendInstruction(r: Rec, a: seq<byte>, b: seq<byte>)
    requires WellFormed(r) && (r.Simple? || r.Ext?)
    ensures Put(r, a + b) == Put(r, a) + b
  {
    hide LE64, SimpleByte, FlagsByte;
    PutAddressesAppend(r.addresses, a, b);
  }

  lemma {:induction false} PutAppendSyscall(r: Rec, a: seq<byte>, b: seq<byte>)
    requires WellFormed(r)
    requires r.Syscall? || r.NewThread? || r.Join? || r.Sync? || r.Fork? || r.Emu? || r.End?
    ensures Put(r, a + b) == Put(r, a) + b
  {
    hide LE16, LE32, LE64, Header;
    match r
    case Syscall(number, data) =>
      Assoc(data, a, b); Assoc(LE16(number), data + a, b);
      HeaderAppend(SYSCALL_REQUEST, 2 + |data|, LE16(number) + (data + a), b);
    case NewThread => HeaderAppend(NEW_THREAD, 0, a, b);
    case Join(thread) =>
      Assoc(LE32(ToUnsigned(thread)), a, b);
      HeaderAppend(JOIN, 4, LE32(ToUnsigned(thread)) + a, b);
    case Sync => HeaderAppend(SYNC, 0, a, b);
    case Fork => HeaderAppend(FORK, 0, a, b);
    case Emu(emuType, request) =>
      Assoc(request, a, b); Assoc(LE16(emuType), request + a, b);
      HeaderAppend(EMU, 2 + |request|, LE16(emuType) + (request + a), b);
    case End => HeaderAppend(END, 0, a, b);
  }

  lemma {:induction false} PutAppendData(r: Rec, a: seq<byte>, b: seq<byte>)
    requires WellFormed(r)
    requires r.Icache? || r.IcacheVariable? || r.Logical2Physical? || r.Output? || r.InstructionCount? ||
             r.IsaChange? ||
             r.Unknown?
    ensures Put(r, a + b) == Put(r, a) + b
  {
    hide LE16, LE32, LE64, Header;
    match r
    case Icache(base, page) =>
      Assoc(page, a, b); Assoc(LE64(base), page + a, b);
      HeaderAppend(ICACHE, 8 + PAGE, LE64(base) + (page + a), b);
    case IcacheVariable(base, data) =>
      Assoc(data, a, b); Assoc(LE64(base), data + a, b);
      HeaderAppend(ICACHE_VARIABLE, 8 + |data|, LE64(base) + (data + a), b);
    case Logical2Physical(vp, pp) =>
      Assoc(LE64(pp), a, b); Assoc(LE64(vp), LE64(pp) + a, b);
      HeaderAppend(LOGICAL2PHYSICAL, 16, LE64(vp) + (LE64(pp) + a), b);
    case Output(fd, data) =>
      Assoc(data, a, b); Assoc([fd], data + a, b);
      HeaderAppend(OUTPUT, 1 + |data|, [fd] + (data + a), b);
    case InstructionCount(icount) =>
      Assoc(LE32(icount), a, b);
      HeaderAppend(INSTRUCTION_COUNT, 4, LE32(icount) + a, b);
    case IsaChange(isa) =>
      Assoc(LE32(isa), a, b);
      HeaderAppend(ISA_CHANGE, 4, LE32(isa) + a, b);
    case Unknown(kind, data) =>
      Assoc(data, a, b);
      HeaderAppend(kind, |data|, data + a, b);
  }

  lemma {:induction false} PutAppendEvent(r: Rec, a: seq<byte>, b: seq<byte>)
    requires WellFormed(r) && (r.CacheOnly? || r.Magic? || r.RoutineChange? || r.RoutineAnnounce?)
    ensures Put(r, a + b) == Put(r, a) + b
  {
    hide LE16, LE32, LE64, Header, PutString;
    match r
    case CacheOnly(icount, kind, eip, address) =>
      Assoc(LE64(address), a, b); Assoc(LE64(eip), LE64(address) + a, b);
      Assoc([kind], LE64(eip) + (LE64(address) + a), b);
      Assoc([icount], [kind] + (LE64(eip) + (LE64(address) + a)), b);
      HeaderAppend(CACHE_ONLY, 18, [icount] + ([kind] + (LE64(eip) + (LE64(address) + a))), b);
    case Magic(x, y, z) =>
      Assoc(LE64(z), a, b); Assoc(LE64(y), LE64(z) + a, b); Assoc(LE64(x), LE64(y) + (LE64(z) + a), b);
      HeaderAppend(MAGIC, 24, LE64(x) + (LE64(y) + (LE64(z) + a)), b);
    case RoutineChange(event, eip, esp, callEip) =>
      Assoc(LE64(callEip), a, b); Assoc(LE64(esp), LE64(callEip) + a, b);
      Assoc(LE64(eip), LE64(esp) + (LE64(callEip) + a), b);
      Assoc([event], LE64(eip) + (LE64(esp) + (LE64(callEip) + a)), b);
      HeaderAppend(ROUTINE_CHANGE, 25, [event] + (LE64(eip) + (LE64(esp) + (LE64(callEip) + a))), b);
    case RoutineAnnounce(eip, name, imgname, offset, line, column, filename) =>
      PutStringAppend(filename, a, b);
      var s3 := PutString(filename, a);
      Assoc(LE32(column), s3, b); Assoc(LE32(line), LE32(column) + s3, b);
      Assoc(LE64(offset), LE32(line) + (LE32(column) + s3), b);
      var s2 := PutLocation(offset, line, column, filename, a);
      PutStringAppend(imgname, s2, b);
      PutStringAppend(name, PutString(imgname, s2), b);
      var s0 := PutString(name, PutString(imgname, s2));
      Assoc(LE64(eip), s0, b);
      HeaderAppend(ROUTINE_ANNOUNCE, 30 + |name| + |imgname| + |filename|, LE64(eip) + s0, b);
  }

  /** A record's bytes do not depend on what follows. */
  lemma {:induction false} PutAppend(r: Rec, a: seq<byte>, b: seq<byte>)
    requires WellFormed(r)
    ensures Put(r, a + b) == Put(r, a) + b
  {
    hide Put;
    if r.Simple? || r.Ext? {
      PutAppendInstruction(r, a, b);
    } else if r.CacheOnly? || r.Magic? || r.RoutineChange? || r.RoutineAnnounce? {
      PutAppendEvent(r, a, b);
    } else if r.Syscall? || r.NewThread? || r.Join? || r.Sync? || r.Fork? || r.Emu? || r.End? {
      PutAppendSyscall(r, a, b);
    } else {
      PutAppendData(r, a, b);
    }
  }

  lemma {:induction false} PutAllAppend(recs: seq<Rec>, a: seq<byte>, b: seq<byte>)
    requires AllWellFormed(recs)
    ensures PutAll(recs, a + b) == PutAll(recs, a) + b
  {
    hide Put;
    if recs != [] {
      PutAllAppend(recs[1..], a, b);
      PutAppend(recs[0], PutAll(recs[1..], a), b);
    }
  }

  lemma {:induction false} PutAllConcat(xs: seq<Rec>, ys: seq<Rec>, rest: seq<byte>)
    requires AllWellFormed(xs) && AllWellFormed(ys)
    ensures AllWellFormed(xs + ys)
    ensures PutAll(xs + ys, rest) == PutAll(xs, PutAll(ys, rest))
  {
    hide Put;
    if xs == [] {
      assert xs + ys == ys;
    } else {
      PutAllConcat(xs[1..], ys, rest);
      assert (xs + ys)[1..] == xs[1..] + ys;
    }
  }
}
