/** What Sift::Writer puts in a trace, call by call (sift/sift_writer.cc). */
module SiftWriting {
  import opened Bytes
  import opened SiftFormat
  import opened SiftImage
  import opened SiftMessages

  const SYS_WRITE: u16 := 1     // x86-64 system call numbers
  const SYS_FUTEX: u16 := 202
  const LAST_PAGE: u64 := 0xffff_ffff_ffff_f000

  datatype Config = Config(perInstruction: bool, mappings: bool)

  /** The traced program: its code, and the size of the instruction at each address. */
  datatype Program = Program(code: Code, sizeOf: u64 -> nat)

  /** The mapped pages of the process at some moment, as /proc/self/pagemap tells them. */
  type PageMap = m: map<u64, u64> | forall vp :: vp in m ==> m[vp] != 0

  /** Writer::va2pa_lookup: a page that is not mapped stands for itself. */
  function Lookup(pm: PageMap, vp: u64): u64 {
    if 0xf_ffff_ffff_f600 <= vp < 0xf_ffff_ffff_ffff then vp else if vp in pm then pm[vp] else vp
  }

  datatype Call =
    | Execute(addr: u64, size: nat, addresses: seq<u64>, isBranch: bool, taken: bool, isPredicate: bool, executed: bool,
              pm: PageMap)
    | Side(rec: Rec, pm: PageMap)

  datatype WState = WState(lastAddress: u64, icache: set<u64>, va2pa: set<u64>)

  function Fresh(): WState {
    WState(0, {}, {})
  }

  // ---- what the writer asks of its callers ----

  predicate IsSideRecord(rec: Rec) {
    Asks(rec) || rec.CacheOnly? || rec.Output? || rec.RoutineChange? || rec.RoutineAnnounce? || rec.IsaChange?
  }

  /** The short form carries no executed flag, and size 0 would turn the record into another kind. */
  ghost predicate ExecuteOk(cfg: Config, prog: Program, w: WState, c: Call)
    requires c.Execute?
  {
    && 1 <= c.size <= 15
    && c.size == prog.sizeOf(c.addr)
    && |c.addresses| <= MAX_DYNAMIC_ADDRESSES
    && (c.isPredicate || c.executed || c.addr != w.lastAddress)
    && (cfg.perInstruction || c.addr + c.size <= LAST_PAGE)
  }

  /** The arguments of futex and write that the writer looks at are there. */
  predicate HasArguments(rec: Rec) {
    (rec.Syscall? && rec.number == SYS_FUTEX ==> |rec.data| >= 8) &&
    (rec.Syscall? && rec.number == SYS_WRITE ==> |rec.data| >= 16)
  }

  ghost predicate CallOk(cfg: Config, prog: Program, w: WState, c: Call) {
    match c
    case Execute(_, _, _, _, _, _, _, _) => ExecuteOk(cfg, prog, w, c)
    case Side(rec, _) =>
      IsSideRecord(rec) && WellFormed(rec) && HasArguments(rec)
  }

  // ---- code pages ----

  /** The page of an instruction's last byte, in 64-bit arithmetic. */
  function EndPage(addr: u64, size: nat): u64 {
    PageOf((addr + size - 1) % TWO64)
  }

  /** The page loop stops unless its last page is the last one of the address space. */
  predicate LoopStops(cfg: Config, addr: u64, size: nat) {
    cfg.perInstruction || EndPage(addr, size) < LAST_PAGE
  }

  /** The loop over the pages from `base` to `end`. */
  function PageRecs(code: Code, icache: set<u64>, base: u64, end: u64): seq<Rec>
    requires end < LAST_PAGE
    decreases end + PAGE - base
  {
    if base > end then [] else
    (if base in icache then [] else [Icache(base, CodeAt(code, base, PAGE))]) +
    PageRecs(code, icache + {base}, base + PAGE, end)
  }

  function PageSet(icache: set<u64>, base: u64, end: u64): set<u64>
    requires end < LAST_PAGE
    decreases end + PAGE - base
  {
    if base > end then icache else PageSet(icache + {base}, base + PAGE, end)
  }

  function ImageRecs(cfg: Config, code: Code, icache: set<u64>, addr: u64, size: nat): seq<Rec>
    requires LoopStops(cfg, addr, size)
  {
    if !cfg.perInstruction then PageRecs(code, icache, PageOf(addr), EndPage(addr, size))
    else if addr in icache then []
    else [IcacheVariable(addr, CodeAt(code, addr, size))]
  }

  function ImageSet(cfg: Config, icache: set<u64>, addr: u64, size: nat): set<u64>
    requires LoopStops(cfg, addr, size)
  {
    if cfg.perInstruction then icache + {addr} else PageSet(icache, PageOf(addr), EndPage(addr, size))
  }

  // ---- page mappings ----

  /** send_va2pa for a list of addresses; a page whose lookup gives 0 is left for later. */
  function MapRecs(cfg: Config, sent: set<u64>, pm: PageMap, vas: seq<u64>): seq<Rec>
    decreases |vas|
  {
    if vas == [] then [] else
    var vp := vas[0] / PAGE;
    if !cfg.mappings || vp in sent || Lookup(pm, vp) == 0 then MapRecs(cfg, sent, pm, vas[1..])
    else [Logical2Physical(vp, Lookup(pm, vp))] + MapRecs(cfg, sent + {vp}, pm, vas[1..])
  }

  function MapSet(cfg: Config, sent: set<u64>, pm: PageMap, vas: seq<u64>): set<u64>
    decreases |vas|
  {
    if vas == [] then sent else
    var vp := vas[0] / PAGE;
    MapSet(cfg, if !cfg.mappings || Lookup(pm, vp) == 0 then sent else sent + {vp}, pm, vas[1..])
  }

  /** The addresses whose mapping a call makes sure of. */
  function Touches(c: Call): seq<u64> {
    match c
    case Execute(addr, _, addresses, _, _, _, _, _) => [addr] + addresses
    case Side(rec, _) =>
      if rec.CacheOnly? then [rec.eip, rec.address]
      else if rec.Syscall? && rec.number == SYS_FUTEX && |rec.data| >= 8 then [UnLE64(rec.data[..8])]
      else if rec.Syscall? && rec.number == SYS_WRITE && |rec.data| >= 16 then [UnLE64(rec.data[8..16])]
      else []
  }

  // ---- calls ----

  function MainRec(w: WState, c: Call): Rec {
    match c
    case Side(rec, _) => rec
    case Execute(addr, size, addresses, isBranch, taken, isPredicate, executed, _) =>
      if addr == w.lastAddress && !isPredicate then Simple(size, addresses, isBranch, taken)
      else Ext(size, addresses, isBranch, taken, isPredicate, executed, addr)
  }

  /** What an instruction needs to have arrived before its record. */
  function NeedRecs(cfg: Config, code: Code, w: WState, c: Call): seq<Rec>
    requires c.Execute? && LoopStops(cfg, c.addr, c.size)
  {
    ImageRecs(cfg, code, w.icache, c.addr, c.size) + MapRecs(cfg, w.va2pa, c.pm, Touches(c))
  }

  /** The bytes of an instruction's own record, for every size that the writer's assertion lets through. */
  function InstructionBytes(last: u64, c: Call, rest: seq<byte>): seq<byte>
    requires c.Execute? && c.size < 16 && |c.addresses| <= MAX_DYNAMIC_ADDRESSES
  {
    if c.addr == last && !c.isPredicate then
      [SimpleByte(c.size, |c.addresses|, c.isBranch, c.taken)] + PutAddresses(c.addresses, rest)
    else
      [16 * c.size] + ([FlagsByte(|c.addresses|, c.isBranch, c.taken, c.isPredicate, c.executed)] +
                       (LE64(c.addr) + PutAddresses(c.addresses, rest)))
  }

  lemma InstructionBytesPut(w: WState, c: Call, rest: seq<byte>)
    requires c.Execute? && 1 <= c.size < 16 && |c.addresses| <= MAX_DYNAMIC_ADDRESSES
    ensures WellFormed(MainRec(w, c)) && InstructionBytes(w.lastAddress, c, rest) == Put(MainRec(w, c), rest)
  {
  }

  function CallRecs(cfg: Config, prog: Program, w: WState, c: Call): seq<Rec>
    requires CallOk(cfg, prog, w, c)
  {
    (if c.Execute? then ImageRecs(cfg, prog.code, w.icache, c.addr, c.size) else []) +
    MapRecs(cfg, w.va2pa, c.pm, Touches(c)) +
    [MainRec(w, c)]
  }

  function CallState(cfg: Config, prog: Program, w: WState, c: Call): WState
    requires CallOk(cfg, prog, w, c)
  {
    var va2pa := MapSet(cfg, w.va2pa, c.pm, Touches(c));
    if c.Execute? then WState(Plus(c.addr, c.size), ImageSet(cfg, w.icache, c.addr, c.size), va2pa)
    else w.(va2pa := va2pa)
  }

  ghost predicate TraceOk(cfg: Config, prog: Program, w: WState, calls: seq<Call>)
    decreases |calls|
  {
    calls == [] || (CallOk(cfg, prog, w, calls[0]) && TraceOk(cfg, prog, CallState(cfg, prog, w, calls[0]), calls[1..]))
  }

  function TraceRecs(cfg: Config, prog: Program, w: WState, calls: seq<Call>): seq<Rec>
    requires TraceOk(cfg, prog, w, calls)
    decreases |calls|
  {
    if calls == [] then [] else
    CallRecs(cfg, prog, w, calls[0]) + TraceRecs(cfg, prog, CallState(cfg, prog, w, calls[0]), calls[1..])
  }

  function TraceState(cfg: Config, prog: Program, w: WState, calls: seq<Call>): WState
    requires TraceOk(cfg, prog, w, calls)
    decreases |calls|
  {
    if calls == [] then w else TraceState(cfg, prog, CallState(cfg, prog, w, calls[0]), calls[1..])
  }

  // ---- everything written is well formed ----

  ghost predicate Ships(rec: Rec) {
    WellFormed(rec) && !rec.End?
  }

  ghost predicate AllShip(recs: seq<Rec>) {
    forall i :: 0 <= i < |recs| ==> Ships(recs[i])
  }

  lemma {:induction false} PageRecsShip(code: Code, icache: set<u64>, base: u64, end: u64)
    requires end < LAST_PAGE
    ensures AllShip(PageRecs(code, icache, base, end))
    decreases end + PAGE - base
  {
    if base <= end {
      PageRecsShip(code, icache + {base}, base + PAGE, end);
    }
  }

  lemma {:induction false} MapRecsShip(cfg: Config, sent: set<u64>, pm: PageMap, vas: seq<u64>)
    ensures AllShip(MapRecs(cfg, sent, pm, vas))
    decreases |vas|
  {
    if vas != [] {
      var vp := vas[0] / PAGE;
      MapRecsShip(cfg, sent, pm, vas[1..]);
      MapRecsShip(cfg, sent + {vp}, pm, vas[1..]);
    }
  }

  lemma CallRecsShip(cfg: Config, prog: Program, w: WState, c: Call)
    requires CallOk(cfg, prog, w, c)
    ensures AllShip(CallRecs(cfg, prog, w, c))
  {
    MapRecsShip(cfg, w.va2pa, c.pm, Touches(c));
    if c.Execute? && !cfg.perInstruction {
      PageRecsShip(prog.code, w.icache, PageOf(c.addr), EndPage(c.addr, c.size));
    }
  }

  lemma {:induction false} TraceRecsShip(cfg: Config, prog: Program, w: WState, calls: seq<Call>)
    requires TraceOk(cfg, prog, w, calls)
    ensures AllShip(TraceRecs(cfg, prog, w, calls))
    decreases |calls|
  {
    hide Ships, CallRecs;
    if calls != [] {
      CallRecsShip(cfg, prog, w, calls[0]);
      TraceRecsShip(cfg, prog, CallState(cfg, prog, w, calls[0]), calls[1..]);
    }
  }
}
