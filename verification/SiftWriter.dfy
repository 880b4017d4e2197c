/** Sift::Writer as an object: two byte streams, the address expected next, and what has been shipped
    (sift/sift_writer.h, sift/sift_writer.cc). */
module SiftWriter {
  import opened Bytes
  import opened SiftFormat
  import opened SiftImage
  import opened SiftMessages
  import opened SiftWriting
  import opened SiftWaiting

  /** What Instruction writes and remembers is one call of the trace. */
  lemma InstructionIsCall(cfg: Config, prog: Program, w: WState, c: Call)
    requires c.Execute? && CallOk(cfg, prog, w, c)
    ensures AllWellFormed(NeedRecs(cfg, prog.code, w, c)) && AllWellFormed(CallRecs(cfg, prog, w, c))
    ensures PutAll(NeedRecs(cfg, prog.code, w, c), []) + InstructionBytes(w.lastAddress, c, []) ==
            PutAll(CallRecs(cfg, prog, w, c), [])
    ensures CallState(cfg, prog, w, c) == AfterInstruction(cfg, w, c)
  {
    hide ImageRecs, ImageSet, MapRecs, MapSet, MainRec, Plus, Put, PutAll, InstructionBytes;
    CallRecsShip(cfg, prog, w, c);
    var need, main := NeedRecs(cfg, prog.code, w, c), MainRec(w, c);
    InstructionBytesPut(w, c, []);
    var recs := CallRecs(cfg, prog, w, c);
    assert recs == need + [main];
    assert AllWellFormed(need) by {
      hide WellFormed;
      assert forall i :: 0 <= i < |need| ==> recs[i] == need[i];
    }
    AppendOne([], need, main);
    assert [] + PutAll(need, []) == PutAll(need, []) && [] + PutAll(need + [main], []) == PutAll(need + [main], []);
  }

  function AfterInstruction(cfg: Config, w: WState, c: Call): WState
    requires c.Execute? && LoopStops(cfg, c.addr, c.size)
  {
    WState(Plus(c.addr, c.size), ImageSet(cfg, w.icache, c.addr, c.size), MapSet(cfg, w.va2pa, c.pm, Touches(c)))
  }

  lemma PutAllSnoc(recs: seq<Rec>, r: Rec)
    requires AllWellFormed(recs) && WellFormed(r)
    ensures AllWellFormed(recs + [r]) && PutAll(recs + [r], []) == PutAll(recs, []) + Put(r, [])
  {
    hide Put;
    PutAllConcat(recs, [r], []);
    assert [r][1..] == [];
    PutAllAppend(recs, [], Put(r, []));
    assert [] + Put(r, []) == Put(r, []);
  }

  lemma PutAllNone()
    ensures PutAll([], []) == []
  {
  }

  lemma AppendAll(out: seq<byte>, xs: seq<Rec>, ys: seq<Rec>)
    requires AllWellFormed(xs) && AllWellFormed(ys)
    ensures AllWellFormed(xs + ys) && out + PutAll(xs, []) + PutAll(ys, []) == out + PutAll(xs + ys, [])
  {
    hide Put;
    PutAllConcat(xs, ys, []);
    PutAllAppend(xs, [], PutAll(ys, []));
    assert [] + PutAll(ys, []) == PutAll(ys, []);
  }

  lemma AppendOne(out: seq<byte>, xs: seq<Rec>, r: Rec)
    requires AllWellFormed(xs) && WellFormed(r)
    ensures AllWellFormed(xs + [r]) && out + PutAll(xs, []) + Put(r, []) == out + PutAll(xs + [r], [])
  {
    hide Put, PutAll;
    PutAllSnoc(xs, r);
  }

  lemma MapNone(cfg: Config, sent: set<u64>, pm: PageMap)
    ensures MapRecs(cfg, sent, pm, []) == [] && MapSet(cfg, sent, pm, []) == sent
  {
  }

  lemma MapRecsFirst(cfg: Config, sent: set<u64>, pm: PageMap, vas: seq<u64>)
    requires vas != []
    ensures MapRecs(cfg, sent, pm, vas) ==
            MapRecs(cfg, sent, pm, [vas[0]]) + MapRecs(cfg, MapSet(cfg, sent, pm, [vas[0]]), pm, vas[1..])
    ensures MapSet(cfg, sent, pm, vas) == MapSet(cfg, MapSet(cfg, sent, pm, [vas[0]]), pm, vas[1..])
  {
    hide Lookup;
    assert [vas[0]][1..] == [];
    if vas[0] / PAGE in sent {
      assert sent + {vas[0] / PAGE} == sent;
    }
  }

  lemma HeaderThen(kind: byte, size: u32, x: seq<byte>)
    ensures Header(kind, size, x) == Header(kind, size, []) + x
  {
    HeaderAppend(kind, size, [], x);
    assert [] + x == x;
  }

  lemma {:induction false} PutAddressesSnoc(addresses: seq<u64>, a: u64)
    ensures PutAddresses(addresses + [a], []) == PutAddresses(addresses, []) + LE64(a)
  {
    hide LE64;
    if addresses == [] {
      assert [] + [a] == [a] && [a][1..] == [] && LE64(a) + [] == LE64(a);
    } else {
      PutAddressesSnoc(addresses[1..], a);
      assert (addresses + [a])[1..] == addresses[1..] + [a];
    }
  }

  /** A C string as RoutineAnnounce sends it: its terminating zero included, cut to a 16-bit length. */
  function CString(name: seq<byte>): (s: seq<byte>)
    ensures |s| < TWO16
  {
    (name + [0])[..(|name| + 1) % TWO16]
  }

  /** The name arrives whole, with its terminator, if and only if it is shorter than 65535 bytes. */
  lemma CStringWhole(name: seq<byte>)
    ensures CString(name) == name + [0] <==> |name| < 65535
  {
    if |name| >= 65535 {
      assert |CString(name)| < |name + [0]|;
    }
  }

  /** Requests that fit the arguments of the blocking calls. */
  ghost predicate Sendable(q: Rec) {
    Asks(q) && if q.Syscall? then |q.data| < TWO32 else WellFormed(q)
  }

  /** A request as it is sent; a system call's length field has 32 bits. */
  ghost function RequestBytes(q: Rec): seq<byte>
    requires Sendable(q)
  {
    if q.Syscall? then Header(SYSCALL_REQUEST, (2 + |q.data|) % TWO32, LE16(q.number) + q.data) else Put(q, [])
  }

  lemma RequestBytesPut(q: Rec)
    requires Asks(q) && WellFormed(q)
    ensures Sendable(q) && RequestBytes(q) == Put(q, [])
  {
    hide Header, LE16, LE32, LE64;
    if q.Syscall? {
      assert q.data + [] == q.data;
    }
  }

  /** Header and payload of each request, piece by piece. */
  lemma RequestLayout(q: Rec)
    requires Sendable(q)
    ensures match q
            case InstructionCount(icount) => RequestBytes(q) == Header(INSTRUCTION_COUNT, 4, []) + LE32(icount)
            case Syscall(number, data) =>
              RequestBytes(q) == Header(SYSCALL_REQUEST, (2 + |data|) % TWO32, []) + LE16(number) + data
            case NewThread => RequestBytes(q) == Header(NEW_THREAD, 0, [])
            case Join(thread) => RequestBytes(q) == Header(JOIN, 4, []) + LE32(ToUnsigned(thread))
            case Sync => RequestBytes(q) == Header(SYNC, 0, [])
            case Fork => RequestBytes(q) == Header(FORK, 0, [])
            case Magic(a, b, c) => RequestBytes(q) == Header(MAGIC, 24, []) + LE64(a) + LE64(b) + LE64(c)
            case Emu(emuType, request) =>
              2 + |request| < TWO32 && RequestBytes(q) == Header(EMU, 2 + |request|, []) + LE16(emuType) + request
            case _ => true
  {
    hide LE16, LE32, LE64, Header;
    match q
    case InstructionCount(icount) => HeaderThen(INSTRUCTION_COUNT, 4, LE32(icount) + []);
    case Syscall(number, data) => HeaderThen(SYSCALL_REQUEST, (2 + |data|) % TWO32, LE16(number) + data);
    case Join(thread) => HeaderThen(JOIN, 4, LE32(ToUnsigned(thread)) + []);
    case Magic(a, b, c) => HeaderThen(MAGIC, 24, LE64(a) + (LE64(b) + (LE64(c) + [])));
    case Emu(emuType, request) => HeaderThen(EMU, 2 + |request|, LE16(emuType) + (request + []));
    case _ =>
  }

  /** An output record as it is sent; its length field has 32 bits. */
  function OutputBytes(fd: byte, data: seq<byte>, rest: seq<byte>): seq<byte>
    requires |data| < TWO32
  {
    Header(OUTPUT, (1 + |data|) % TWO32, [fd] + (data + rest))
  }

  /** The reader takes an output record back if and only if it has data and its length does not wrap; it refuses the
      others. */
  lemma OutputExact(fd: byte, data: seq<byte>, rest: seq<byte>)
    requires |data| < TWO32
    ensures ParseRec(OutputBytes(fd, data, rest)) ==
            if 0 < |data| < TWO32 - 1 then Scanned(Rec.Output(fd, data), rest) else Malformed
  {
    hide ParseRec, Header, GetHeader;
    GetPutHeader(OUTPUT, (1 + |data|) % TWO32, [fd] + (data + rest));
    assert Get8([fd] + (data + rest)) == Scanned(fd, data + rest);
  }

  lemma ParseSyscall(number: u16, data: seq<byte>, rest: seq<byte>)
    requires |data| < TWO32
    ensures ParseOther(SYSCALL_REQUEST, (2 + |data|) % TWO32, LE16(number) + (data + rest)) ==
            if 0 < |data| < TWO32 - 2 then Scanned(Syscall(number, data), rest) else Malformed
  {
    hide LE16, UnLE16, ParseImage, ParseSide;
  }

  /** The same for a system call. */
  lemma SyscallExact(q: Rec, rest: seq<byte>)
    requires q.Syscall? && |q.data| < TWO32
    ensures ParseRec(RequestBytes(q) + rest) == if 0 < |q.data| < TWO32 - 2 then Scanned(q, rest) else Malformed
  {
    hide ParseRec, ParseOther, Header, GetHeader, LE16, Put;
    ParseSyscall(q.number, q.data, rest);
    var size := (2 + |q.data|) % TWO32;
    HeaderAppend(SYSCALL_REQUEST, size, LE16(q.number) + q.data, rest);
    assert LE16(q.number) + q.data + rest == LE16(q.number) + (q.data + rest);
    GetPutHeader(SYSCALL_REQUEST, size, LE16(q.number) + (q.data + rest));
  }

  class Writer {
    const cfg: Config
    const code: Code
    var output: seq<byte>
    var response: seq<byte>
    var lastAddress: u64
    var icache: set<u64>
    var va2pa: set<u64>
    var mem: Memory

    ghost function View(): WState
      reads this
    {
      WState(lastAddress, icache, va2pa)
    }

    constructor (cfg: Config, code: Code, response: seq<byte>, mem: Memory)
      ensures this.cfg == cfg && this.code == code && this.response == response && this.mem == mem
      ensures output == [] && View() == Fresh()
    {
      this.cfg, this.code, this.response, this.mem := cfg, code, response, mem;
      output, lastAddress, icache, va2pa := [], 0, {}, {};
    }

    /** The header of an "other" record. */
    method WriteOther(kind: byte, size: u32)
      modifies this`output
      ensures output == old(output) + Header(kind, size, [])
    {
      output := output + [0];
      output := output + [kind];
      output := output + LE32(size);
      assert LE32(size) + [] == LE32(size);
    }

    method ShipPage(base: u64)
      modifies this`output, this`icache
      ensures output == old(output) + Put(Icache(base, CodeAt(code, base, PAGE)), [])
      ensures icache == old(icache) + {base}
    {
      hide LE64, CodeAt, Header;
      var page := CodeAt(code, base, PAGE);
      WriteOther(ICACHE, 8 + PAGE);
      output := output + LE64(base);
      output := output + page;
      icache := icache + {base};
      HeaderAppend(ICACHE, 8 + PAGE, [], LE64(base) + (page + []));
      assert [] + (LE64(base) + (page + [])) == LE64(base) + (page + []);
      assert page + [] == page;
      assert old(output) + Header(ICACHE, 8 + PAGE, []) + LE64(base) + page ==
             old(output) + (Header(ICACHE, 8 + PAGE, []) + (LE64(base) + page));
    }

    /** The loop that ships the pages an instruction touches. */
    method ShipPages(addr: u64, size: nat)
      requires EndPage(addr, size) < LAST_PAGE
      modifies this`output, this`icache
      ensures AllWellFormed(PageRecs(code, old(icache), PageOf(addr), EndPage(addr, size)))
      ensures output == old(output) + PutAll(PageRecs(code, old(icache), PageOf(addr), EndPage(addr, size)), [])
      ensures icache == PageSet(old(icache), PageOf(addr), EndPage(addr, size))
    {
      hide Put, CodeAt, PutAll;
      PutAllNone();
      var base: u64, end: u64 := PageOf(addr), EndPage(addr, size);
      ghost var recs := PageRecs(code, icache, base, end);
      ghost var done: seq<Rec> := [];
      assert [] + recs == recs;
      while base <= end
        invariant AllWellFormed(done)
        invariant recs == done + PageRecs(code, icache, base, end)
        invariant PageSet(old(icache), PageOf(addr), end) == PageSet(icache, base, end)
        invariant output == old(output) + PutAll(done, [])
        decreases end + PAGE - base
      {
        ghost var rest := PageRecs(code, icache + {base}, base + PAGE, end);
        if base !in icache {
          ghost var rec := Icache(base, CodeAt(code, base, PAGE));
          ShipPage(base);
          AppendOne(old(output), done, rec);
          assert done + ([rec] + rest) == done + [rec] + rest;
          done := done + [rec];
        } else {
          assert icache + {base} == icache;
          assert [] + rest == rest;
        }
        base := base + PAGE;
      }
      assert done + [] == done;
    }

    method ShipInstruction(addr: u64, size: nat)
      requires size <= 15
      modifies this`output, this`icache
      ensures output == old(output) + Put(IcacheVariable(addr, CodeAt(code, addr, size)), [])
      ensures icache == old(icache) + {addr}
    {
      hide LE64, CodeAt, Header;
      var data := CodeAt(code, addr, size);
      WriteOther(ICACHE_VARIABLE, 8 + size);
      output := output + LE64(addr);
      output := output + data;
      icache := icache + {addr};
      HeaderAppend(ICACHE_VARIABLE, 8 + size, [], LE64(addr) + (data + []));
      assert [] + (LE64(addr) + (data + [])) == LE64(addr) + (data + []);
      assert data + [] == data;
      assert old(output) + Header(ICACHE_VARIABLE, 8 + size, []) + LE64(addr) + data ==
             old(output) + (Header(ICACHE_VARIABLE, 8 + size, []) + (LE64(addr) + data));
    }

    method WriteMapping(vp: u64, pp: u64)
      modifies this`output
      ensures output == old(output) + Put(Logical2Physical(vp, pp), [])
    {
      hide LE64, Header;
      WriteOther(LOGICAL2PHYSICAL, 16);
      output := output + LE64(vp);
      output := output + LE64(pp);
      HeaderThen(LOGICAL2PHYSICAL, 16, LE64(vp) + (LE64(pp) + []));
      assert output == old(output) + (Header(LOGICAL2PHYSICAL, 16, []) + (LE64(vp) + (LE64(pp) + [])));
    }

    /** send_va2pa. */
    method SendVa2pa(pm: PageMap, va: u64)
      modifies this`output, this`va2pa
      ensures AllWellFormed(MapRecs(cfg, old(va2pa), pm, [va]))
      ensures output == old(output) + PutAll(MapRecs(cfg, old(va2pa), pm, [va]), [])
      ensures va2pa == MapSet(cfg, old(va2pa), pm, [va])
    {
      hide Put, PutAll, Lookup;
      PutAllNone();
      var vp: u64 := va / PAGE;
      assert [va][1..] == [] && output + [] == output;
      if cfg.mappings && vp !in va2pa {
        var pp := Lookup(pm, vp);
        if pp != 0 {
          ghost var rec := Logical2Physical(vp, pp);
          AppendOne(output, [], rec);
          assert [] + [rec] == [rec] + [];
          WriteMapping(vp, pp);
          va2pa := va2pa + {vp};
        }
      } else if cfg.mappings {
        assert va2pa + {vp} == va2pa;
      }
    }

    /** send_va2pa for each address of a list in turn. */
    method SendMappings(pm: PageMap, vas: seq<u64>)
      modifies this`output, this`va2pa
      ensures AllWellFormed(MapRecs(cfg, old(va2pa), pm, vas))
      ensures output == old(output) + PutAll(MapRecs(cfg, old(va2pa), pm, vas), [])
      ensures va2pa == MapSet(cfg, old(va2pa), pm, vas)
    {
      hide Put, Lookup, PutAll, MapRecs, MapSet;
      PutAllNone();
      ghost var recs := MapRecs(cfg, va2pa, pm, vas);
      ghost var done: seq<Rec> := [];
      assert vas[0..] == vas && [] + recs == recs;
      for i := 0 to |vas|
        invariant AllWellFormed(done)
        invariant recs == done + MapRecs(cfg, va2pa, pm, vas[i..])
        invariant MapSet(cfg, old(va2pa), pm, vas) == MapSet(cfg, va2pa, pm, vas[i..])
        invariant output == old(output) + PutAll(done, [])
      {
        ghost var one := MapRecs(cfg, va2pa, pm, [vas[i]]);
        MapRecsFirst(cfg, va2pa, pm, vas[i..]);
        assert vas[i..][1..] == vas[i + 1..];
        SendVa2pa(pm, vas[i]);
        AppendAll(old(output), done, one);
        ghost var more := MapRecs(cfg, va2pa, pm, vas[i + 1..]);
        assert done + (one + more) == done + one + more;
        done := done + one;
      }
      assert vas[|vas|..] == [] && done + [] == done;
      MapNone(cfg, va2pa, pm);
    }

    method WriteAddresses(addresses: seq<u64>)
      modifies this`output
      ensures output == old(output) + PutAddresses(addresses, [])
    {
      hide LE64;
      assert addresses[..0] == [];
      for i := 0 to |addresses|
        invariant output == old(output) + PutAddresses(addresses[..i], [])
      {
        ghost var before := output;
        output := output + LE64(addresses[i]);
        PutAddressesSnoc(addresses[..i], addresses[i]);
        assert addresses[..i + 1] == addresses[..i] + [addresses[i]];
        assert before + LE64(addresses[i]) == old(output) + (PutAddresses(addresses[..i], []) + LE64(addresses[i]));
      }
      assert addresses[..|addresses|] == addresses;
    }

    /** The short or the full record of an instruction, and its data addresses. */
    method WriteInstruction(addr: u64, size: nat, addresses: seq<u64>, isBranch: bool, taken: bool, isPredicate: bool,
                            executed: bool, ghost pm: PageMap)
      requires size < 16 && |addresses| <= MAX_DYNAMIC_ADDRESSES
      modifies this`output, this`lastAddress
      ensures var c := Execute(addr, size, addresses, isBranch, taken, isPredicate, executed, pm);
              output == old(output) + InstructionBytes(old(lastAddress), c, [])
      ensures lastAddress == Plus(addr, size)
    {
      hide LE64, SimpleByte, FlagsByte, Plus, PutAddresses;
      ghost var out, tail := output, PutAddresses(addresses, []);
      if addr == lastAddress && !isPredicate {
        output := output + [SimpleByte(size, |addresses|, isBranch, taken)];
        assert output + tail == out + ([SimpleByte(size, |addresses|, isBranch, taken)] + tail);
      } else {
        output := output + [16 * size];
        output := output + [FlagsByte(|addresses|, isBranch, taken, isPredicate, executed)];
        output := output + LE64(addr);
        lastAddress := addr;
        ghost var flags := FlagsByte(|addresses|, isBranch, taken, isPredicate, executed);
        assert output + tail == out + ([16 * size] + ([flags] + (LE64(addr) + tail)));
      }
      WriteAddresses(addresses);
      lastAddress := Plus(lastAddress, size);
    }

    /** The code an instruction needs, a page or an instruction at a time. */
    method ShipImage(addr: u64, size: nat)
      requires size < 16 && LoopStops(cfg, addr, size)
      modifies this`output, this`icache
      ensures AllWellFormed(ImageRecs(cfg, code, old(icache), addr, size))
      ensures output == old(output) + PutAll(ImageRecs(cfg, code, old(icache), addr, size), [])
      ensures icache == ImageSet(cfg, old(icache), addr, size)
    {
      hide Put, PutAll, CodeAt, PageRecs, PageSet;
      PutAllNone();
      if !cfg.perInstruction {
        ShipPages(addr, size);
      } else if addr !in icache {
        ghost var rec := IcacheVariable(addr, CodeAt(code, addr, size));
        AppendOne(output, [], rec);
        assert output + [] == output && [] + [rec] == [rec];
        ShipInstruction(addr, size);
      } else {
        assert icache + {addr} == icache;
      }
    }

    /** Instruction: the code it needs, the mappings of its addresses, then the record. */
    method Instruction(addr: u64, size: nat, addresses: seq<u64>, isBranch: bool, taken: bool, isPredicate: bool,
                       executed: bool, pm: PageMap)
      requires size < 16 && |addresses| <= MAX_DYNAMIC_ADDRESSES && LoopStops(cfg, addr, size)
      modifies this`output, this`lastAddress, this`icache, this`va2pa
      ensures var c := Execute(addr, size, addresses, isBranch, taken, isPredicate, executed, pm);
              && AllWellFormed(NeedRecs(cfg, code, old(View()), c))
              && output == old(output) + PutAll(NeedRecs(cfg, code, old(View()), c), []) +
                           InstructionBytes(old(lastAddress), c, [])
              && View() == AfterInstruction(cfg, old(View()), c)
    {
      hide Put, PutAll, ImageRecs, ImageSet, MapRecs, MapSet, InstructionBytes, Plus, AllWellFormed, WellFormed;
      ghost var image, maps := ImageRecs(cfg, code, icache, addr, size), MapRecs(cfg, va2pa, pm, [addr] + addresses);
      ShipImage(addr, size);
      SendMappings(pm, [addr] + addresses);
      AppendAll(old(output), image, maps);
      WriteInstruction(addr, size, addresses, isBranch, taken, isPredicate, executed, pm);
    }

    // ---- the other records ----

    method CacheOnly(icount: byte, kind: byte, eip: u64, address: u64, pm: PageMap)
      modifies this`output, this`va2pa
      ensures AllWellFormed(MapRecs(cfg, old(va2pa), pm, [eip, address]))
      ensures output == old(output) + PutAll(MapRecs(cfg, old(va2pa), pm, [eip, address]), []) +
                        Put(Rec.CacheOnly(icount, kind, eip, address), [])
      ensures va2pa == MapSet(cfg, old(va2pa), pm, [eip, address])
    {
      hide LE64, Header, MapRecs, MapSet;
      SendMappings(pm, [eip, address]);
      ghost var before := output;
      WriteOther(CACHE_ONLY, 18);
      output := output + [icount];
      output := output + [kind];
      output := output + LE64(eip);
      output := output + LE64(address);
      var body := [icount] + ([kind] + (LE64(eip) + (LE64(address) + [])));
      HeaderThen(CACHE_ONLY, 18, body);
      assert output == before + (Header(CACHE_ONLY, 18, []) + body);
    }

    method Output(fd: byte, data: seq<byte>)
      requires |data| < TWO32
      modifies this`output
      ensures output == old(output) + OutputBytes(fd, data, [])
      ensures WellFormed(Rec.Output(fd, data)) ==> output == old(output) + Put(Rec.Output(fd, data), [])
    {
      hide Header;
      WriteOther(OUTPUT, (1 + |data|) % TWO32);
      output := output + [fd];
      output := output + data;
      HeaderThen(OUTPUT, (1 + |data|) % TWO32, [fd] + (data + []));
      assert data + [] == data;
      assert output == old(output) + (Header(OUTPUT, (1 + |data|) % TWO32, []) + ([fd] + (data + [])));
    }

    method RoutineChange(event: byte, eip: u64, esp: u64, callEip: u64)
      modifies this`output
      ensures output == old(output) + Put(Rec.RoutineChange(event, eip, esp, callEip), [])
    {
      hide LE64, Header;
      WriteOther(ROUTINE_CHANGE, 25);
      output := output + [event];
      output := output + LE64(eip);
      output := output + LE64(esp);
      output := output + LE64(callEip);
      var body := [event] + (LE64(eip) + (LE64(esp) + (LE64(callEip) + [])));
      HeaderThen(ROUTINE_CHANGE, 25, body);
      assert output == old(output) + (Header(ROUTINE_CHANGE, 25, []) + body);
    }

    method WriteString(s: seq<byte>)
      requires |s| < TWO16
      modifies this`output
      ensures output == old(output) + PutString(s, [])
    {
      hide LE16;
      output := output + LE16(|s|);
      output := output + s;
      assert s + [] == s;
    }

    method WriteLocation(offset: u64, line: u32, column: u32, filename: seq<byte>)
      requires |filename| < TWO16
      modifies this`output
      ensures output == old(output) + PutLocation(offset, line, column, filename, [])
    {
      hide LE32, LE64, PutString;
      output := output + LE64(offset);
      output := output + LE32(line);
      output := output + LE32(column);
      WriteString(filename);
    }

    method RoutineAnnounce(eip: u64, name: seq<byte>, imgname: seq<byte>, offset: u64, line: u32, column: u32,
                           filename: seq<byte>)
      modifies this`output
      ensures output == old(output) +
                        Put(Rec.RoutineAnnounce(eip, CString(name), CString(imgname), offset, line, column,
                            CString(filename)), [])
    {
      hide LE64, Header, PutString, CString, PutLocation;
      var nameZ, imgnameZ, filenameZ := CString(name), CString(imgname), CString(filename);
      var size := 30 + |nameZ| + |imgnameZ| + |filenameZ|;
      WriteOther(ROUTINE_ANNOUNCE, size);
      output := output + LE64(eip);
      WriteString(nameZ);
      WriteString(imgnameZ);
      WriteLocation(offset, line, column, filenameZ);
      ghost var place := PutLocation(offset, line, column, filenameZ, []);
      PutStringAppend(imgnameZ, [], place);
      PutStringAppend(nameZ, [], PutString(imgnameZ, place));
      assert [] + place == place && [] + PutString(imgnameZ, place) == PutString(imgnameZ, place);
      ghost var body := LE64(eip) + PutString(nameZ, PutString(imgnameZ, place));
      HeaderThen(ROUTINE_ANNOUNCE, size, body);
      assert output == old(output) + (Header(ROUTINE_ANNOUNCE, size, []) + body);
    }

    method ISAChange(newIsa: u32)
      modifies this`output
      ensures output == old(output) + Put(IsaChange(newIsa), [])
    {
      hide LE32, Header;
      WriteOther(ISA_CHANGE, 4);
      output := output + LE32(newIsa);
      HeaderThen(ISA_CHANGE, 4, LE32(newIsa) + []);
      assert output == old(output) + (Header(ISA_CHANGE, 4, []) + (LE32(newIsa) + []));
    }

    method End()
      modifies this`output
      ensures output == old(output) + Put(Rec.End, [])
    {
      WriteOther(END, 0);
    }

    // ---- the blocking calls ----

    method WriteRequest(q: Rec)
      requires Sendable(q)
      modifies this`output
      ensures output == old(output) + RequestBytes(q)
    {
      hide LE16, LE32, LE64, Header, Put, RequestBytes, WellFormed;
      RequestLayout(q);
      if q.InstructionCount? {
        WriteOther(INSTRUCTION_COUNT, 4);
        output := output + LE32(q.icount);
      } else if q.Syscall? {
        WriteOther(SYSCALL_REQUEST, (2 + |q.data|) % TWO32);
        output := output + LE16(q.number);
        output := output + q.data;
      } else if q.NewThread? {
        WriteOther(NEW_THREAD, 0);
      } else if q.Join? {
        WriteOther(JOIN, 4);
        output := output + LE32(ToUnsigned(q.thread));
      } else if q.Sync? {
        WriteOther(SYNC, 0);
      } else if q.Fork? {
        WriteOther(FORK, 0);
      } else if q.Magic? {
        WriteOther(MAGIC, 24);
        output := output + LE64(q.a);
        output := output + LE64(q.b);
        output := output + LE64(q.c);
      } else {
        WriteOther(EMU, 2 + |q.request|);
        output := output + LE16(q.emuType);
        output := output + q.request;
      }
    }

    /** InstructionCount, Syscall, NewThread, Join, Sync, Fork, Magic and Emulate: the request, then a loop over what
        comes back, which serves memory requests until the response ends it. */
    method Request(q: Rec, pm: PageMap) returns (last: WaitStep)
      requires Sendable(q) && HasArguments(q)
      modifies this`output, this`response, this`va2pa, this`mem
      ensures var maps := MapRecs(cfg, old(va2pa), pm, Touches(Side(q, pm)));
              var o := Await(q, old(mem), [], old(response));
              && AllWellFormed(maps)
              && output == old(output) + PutAll(maps, []) + RequestBytes(q) + o.out
              && va2pa == MapSet(cfg, old(va2pa), pm, Touches(Side(q, pm)))
              && last == o.last && mem == o.mem
              && (last.Done? || last.GaveUp? ==> response == last.rest)
    {
      hide Put, PutAll, MapRecs, MapSet, WaitNext, Touches, Await, RequestBytes;
      SendMappings(pm, Touches(Side(q, pm)));
      WriteRequest(q);
      ghost var before := output;
      ghost var replies: seq<byte> := [];
      while true
        invariant output == before + replies
        invariant va2pa == MapSet(cfg, old(va2pa), pm, Touches(Side(q, pm)))
        invariant Await(q, old(mem), [], old(response)) == Await(q, mem, replies, response)
        decreases |response|
      {
        last := WaitNext(q, mem, response);
        AwaitStep(q, mem, replies, response);
        match last
        case Again(mem', out, rest) =>
          mem := mem';
          output := output + out;
          response := rest;
          replies := replies + out;
        case Done(_, rest) =>
          response := rest;
          return;
        case GaveUp(rest) =>
          response := rest;
          return;
        case _ =>
          return;
      }
    }
  }
}
