/** The random projection of basic-block vectors in frontend/bbv_count.cc, against the linear congruential generator of
    drand48 (POSIX.1-2017, System Interfaces, drand48). */
module Bbv {
  import opened Bytes

  const RNG_A: int := 0x5_DEEC_E66D
  const RNG_C: int := 0xB
  const TWO48: int := 0x1_0000_0000_0000
  const NUM_BBV: nat := 16

  // ---- the reference ----

  /** The n-th state of drand48 after srand48(seed); the seed has 32 bits. */
  function Drand48(seed: int, n: nat): int {
    if n == 0 then seed % TWO32 * TWO16 + 0x330E else (RNG_A * Drand48(seed, n - 1) + RNG_C) % TWO48
  }

  /** The projection matrix: row of a block, column of a dimension. */
  function Weight(address: u64, d: nat): nat {
    Drand48(SeedOf(address, d % 4), d / 4 + 1) / TWO16 % TWO16
  }

  /** The seed of one of the four parallel paths. */
  function SeedOf(address: u64, l: nat): u64 {
    (address + l) % TWO64
  }

  // ---- the generator ----

  /** rng_next: 64-bit arithmetic, masked to 48 bits. */
  function NextState(state: u64): u64 {
    (RNG_A * state % TWO64 + RNG_C) % TWO64 % TWO48
  }

  method RngNext(state: u64) returns (state': u64, weight: u64)
    ensures state' == NextState(state) && weight == state' / TWO16
  {
    state' := (RNG_A * state % TWO64 + RNG_C) % TWO64 % TWO48;
    weight := state' / TWO16;
  }

  function Seeded(seed: u64): u64 {
    (seed * TWO16 % TWO64 + 0x330E) % TWO64
  }

  function States(seed: u64, n: nat): u64 {
    if n == 0 then Seeded(seed) else NextState(States(seed, n - 1))
  }

  /** Only the low 48 bits of the state matter. */
  lemma NextMod(state: u64)
    ensures NextState(state) == (RNG_A * (state % TWO48) + RNG_C) % TWO48
  {
    var q, r := state / TWO48, state % TWO48;
    var x := RNG_A * state + RNG_C;
    assert x == TWO48 * (RNG_A * q) + (RNG_A * r + RNG_C);
    var p := RNG_A * state / TWO64;
    var y := RNG_A * state % TWO64 + RNG_C;
    assert y == x - TWO64 * p;
    Congruent(y % TWO64, x, TWO48, -0x1_0000 * (p + y / TWO64));
    Congruent(x, RNG_A * r + RNG_C, TWO48, RNG_A * q);
  }

  lemma Congruent(a: int, b: int, m: int, k: int)
    requires m > 0 && a == b + m * k
    ensures a % m == b % m
  {
    var qa, qb := a / m, b / m;
    assert a % m - b % m == m * (k - qa + qb);
    var d := k - qa + qb;
    assert d >= 1 ==> m * d >= m;
    assert d <= -1 ==> m * d <= -m;
  }

  lemma SeedMod(seed: u64)
    ensures Seeded(seed) % TWO48 == seed % TWO32 * TWO16 + 0x330E
  {
    var q, r := seed / TWO32, seed % TWO32;
    assert seed * TWO16 == TWO48 * q + r * TWO16;
    var y := seed * TWO16 % TWO64 + 0x330E;
    var p := seed * TWO16 / TWO64;
    assert y % TWO64 == r * TWO16 + 0x330E + TWO48 * (q - TWO16 * (p + y / TWO64));
    Congruent(y % TWO64, r * TWO16 + 0x330E, TWO48, q - TWO16 * (p + y / TWO64));
  }

  /** The inlined 64-bit generator is drand48, from the first number on; only the low half of the seed matters. */
  lemma {:induction false} StatesAreDrand48(seed: u64, n: nat)
    ensures States(seed, n) % TWO48 == Drand48(seed, n)
    ensures n > 0 ==> States(seed, n) == Drand48(seed, n)
  {
    hide Seeded, NextState;
    if n == 0 {
      SeedMod(seed);
    } else {
      StatesAreDrand48(seed, n - 1);
      NextMod(States(seed, n - 1));
    }
  }

  // ---- what was counted ----

  /** One call of count. */
  datatype Block = Block(address: u64, count: u64)

  function Instructions(log: seq<Block>): nat {
    if log == [] then 0 else Instructions(log[..|log| - 1]) + log[|log| - 1].count
  }

  /** The exact projection of everything counted onto a dimension. */
  function Projected(log: seq<Block>, d: nat): nat {
    if log == [] then 0 else Projected(log[..|log| - 1], d) + Term(log[|log| - 1], d)
  }

  function Term(b: Block, d: nat): nat {
    Weight(b.address, d) * b.count
  }

  lemma WeightBound(address: u64, d: nat)
    ensures Weight(address, d) <= 65535
  {
  }

  /** No dimension exceeds 65535 for every instruction. */
  lemma {:induction false} ProjectedBound(log: seq<Block>, d: nat)
    ensures Projected(log, d) <= 65535 * Instructions(log)
  {
    hide Weight;
    if log != [] {
      var b := log[|log| - 1];
      ProjectedBound(log[..|log| - 1], d);
      WeightBound(b.address, d);
      assert Weight(b.address, d) * b.count <= 65535 * b.count;
    }
  }

  lemma {:induction false} ProjectedConcat(a: seq<Block>, b: seq<Block>, d: nat)
    ensures Projected(a + b, d) == Projected(a, d) + Projected(b, d)
    ensures Instructions(a + b) == Instructions(a) + Instructions(b)
  {
    hide Term;
    if b == [] {
      assert a + b == a;
    } else {
      ProjectedConcat(a, b[..|b| - 1], d);
      assert (a + b)[..|a + b| - 1] == a + b[..|b| - 1];
    }
  }

  /** The order in which blocks are counted does not matter. */
  lemma {:induction false} ProjectedOrder(a: seq<Block>, b: seq<Block>, d: nat)
    requires multiset(a) == multiset(b)
    ensures Projected(a, d) == Projected(b, d) && Instructions(a) == Instructions(b)
    decreases |a|
  {
    hide Term;
    if a == [] {
      assert |multiset(b)| == |b| && |multiset(a)| == |a|;
    } else {
      var front, x := a[..|a| - 1], a[|a| - 1];
      assert a == front + [x];
      assert x in multiset(b);
      var i := TakenOut(b, x);
      var rest := b[..i] + b[i + 1..];
      assert multiset(front) == multiset(a) - multiset{x};
      ProjectedOrder(front, rest, d);
      ProjectedConcat(b[..i], [x] + b[i + 1..], d);
      ProjectedConcat([x], b[i + 1..], d);
      ProjectedConcat(b[..i], b[i + 1..], d);
      assert [x][..0] == [];
    }
  }

  lemma TakenOut(b: seq<Block>, x: Block) returns (i: nat)
    requires x in multiset(b)
    ensures i < |b| && b == b[..i] + ([x] + b[i + 1..]) && multiset(b[..i] + b[i + 1..]) == multiset(b) - multiset{x}
  {
    i :| 0 <= i < |b| && b[i] == x;
    assert b == b[..i] + ([x] + b[i + 1..]);
    assert multiset(b) == multiset(b[..i]) + (multiset{x} + multiset(b[i + 1..]));
  }

  /** What the object holds: everything modulo 2^64. */
  ghost predicate Holds(log: seq<Block>, instrs: int, counts: seq<u64>) {
    |counts| == NUM_BBV && instrs == Instructions(log) % TWO64 &&
    forall d :: 0 <= d < NUM_BBV ==> counts[d] == Projected(log, d) % TWO64
  }

  /** Counting a block in two parts is counting it at once, wrap-around included. */
  lemma Batching(log: seq<Block>, address: u64, c1: u64, c2: u64, instrs: int, counts: seq<u64>)
    ensures Holds(log + [Block(address, c1), Block(address, c2)], instrs, counts) <==>
            Holds(log + [Block(address, (c1 + c2) % TWO64)], instrs, counts)
  {
    hide Projected, Instructions, Term;
    var two, one := log + [Block(address, c1), Block(address, c2)], log + [Block(address, (c1 + c2) % TWO64)];
    BatchedOnce(log, address, c1, c2, 0);
    forall d | 0 <= d < NUM_BBV
      ensures Projected(two, d) % TWO64 == Projected(one, d) % TWO64
    {
      BatchedOnce(log, address, c1, c2, d);
    }
  }

  lemma BatchedOnce(log: seq<Block>, address: u64, c1: u64, c2: u64, d: nat)
    ensures var two, one := log + [Block(address, c1), Block(address, c2)], log + [Block(address, (c1 + c2) % TWO64)];
            Projected(two, d) % TWO64 == Projected(one, d) % TWO64 &&
            Instructions(two) % TWO64 == Instructions(one) % TWO64
  {
    hide Weight;
    var b1, b2, b := Block(address, c1), Block(address, c2), Block(address, (c1 + c2) % TWO64);
    assert log + [b1, b2] == log + [b1] + [b2];
    Snoc(log, b1, d);
    Snoc(log + [b1], b2, d);
    Snoc(log, b, d);
    var w, q := Weight(address, d), (c1 + c2) / TWO64;
    Distribute(w, c1, c2, q);
    Congruent(Projected(log + [b1] + [b2], d), Projected(log + [b], d), TWO64, w * q);
    Congruent(Instructions(log + [b1] + [b2]), Instructions(log + [b]), TWO64, q);
  }

  lemma Distribute(w: int, c1: int, c2: int, q: int)
    requires q == (c1 + c2) / TWO64
    ensures w * c1 + w * c2 == w * ((c1 + c2) % TWO64) + TWO64 * (w * q)
  {
    var r := (c1 + c2) % TWO64;
    assert c1 + c2 == TWO64 * q + r;
    assert w * c1 + w * c2 == w * (TWO64 * q + r) == w * (TWO64 * q) + w * r;
  }

  lemma Snoc(log: seq<Block>, b: Block, d: nat)
    ensures Projected(log + [b], d) == Projected(log, d) + Term(b, d)
    ensures Instructions(log + [b]) == Instructions(log) + b.count
  {
    assert (log + [b])[..|log|] == log;
  }

  class Counter {
    var instrs: u64
    const counts: array<u64>
    ghost var log: seq<Block>   // the calls of Count since the last Clear

    ghost predicate Valid()
      reads this, counts
    {
      counts.Length == NUM_BBV && Holds(log, instrs, counts[..])
    }

    constructor ()
      ensures Valid() && log == [] && fresh(counts)
    {
      instrs, log := 0, [];
      counts := new u64[NUM_BBV](_ => 0);
    }

    /** One of the four parallel paths: draw a number and add its share to dimension `d`. */
    method Draw(d: nat, state: u64, count: u64, ghost address: u64, ghost j: nat, ghost l: nat) returns (state': u64)
      requires d < counts.Length && d == 4 * j + l && l < 4 && state == States(SeedOf(address, l), j)
      modifies counts
      ensures state' == States(SeedOf(address, l), j + 1)
      ensures counts[..] == old(counts[..])[d := (old(counts[d]) + Weight(address, d) * count) % TWO64]
    {
      hide Seeded, NextState, Weight;
      var weight;
      state', weight := RngNext(state);
      WeightOf(address, d, j, l, state');
      counts[d] := (counts[d] + weight % TWO16 * count) % TWO64;
    }

    method Count(address: u64, count: u64)
      requires Valid()
      modifies this, counts
      ensures Valid() && log == old(log) + [Block(address, count)]
    {
      hide Holds, Weight, Term, States, SeedOf, Seeded, Bumped;
      ghost var before := counts[..];
      instrs := (instrs + count) % TWO64;
      var s0 := Seeded(SeedOf(address, 0));
      var s1 := Seeded(SeedOf(address, 1));
      var s2 := Seeded(SeedOf(address, 2));
      var s3 := Seeded(SeedOf(address, 3));
      FirstState(SeedOf(address, 0));
      FirstState(SeedOf(address, 1));
      FirstState(SeedOf(address, 2));
      FirstState(SeedOf(address, 3));
      BumpedNone(before, address, count);
      var i := 0;
      ghost var j := 0;
      while i < NUM_BBV
        invariant 0 <= i <= NUM_BBV && i == 4 * j
        invariant s0 == States(SeedOf(address, 0), j) && s1 == States(SeedOf(address, 1), j)
        invariant s2 == States(SeedOf(address, 2), j) && s3 == States(SeedOf(address, 3), j)
        invariant counts.Length == NUM_BBV && log == old(log) && instrs == (old(instrs) + count) % TWO64
        invariant counts[..] == Bumped(before, address, count, i)
        decreases NUM_BBV - i
      {
        BumpedNext(before, address, count, i);
        s0 := Draw(i, s0, count, address, j, 0);
        s1 := Draw(i + 1, s1, count, address, j, 1);
        s2 := Draw(i + 2, s2, count, address, j, 2);
        s3 := Draw(i + 3, s3, count, address, j, 3);
        i, j := i + 4, j + 1;
      }
      HoldsMore(old(log), old(instrs), before, Block(address, count), instrs, counts[..]);
      log := log + [Block(address, count)];
    }

    method Clear()
      requires Valid()
      modifies this, counts
      ensures Valid() && log == []
    {
      instrs, log := 0, [];
      for i := 0 to NUM_BBV
        invariant counts.Length == NUM_BBV && instrs == 0 && log == []
        invariant forall d :: 0 <= d < i ==> counts[d] == 0
      {
        counts[i] := 0;
      }
    }

    /** While the counters cannot have wrapped, a dimension is the exact projection, at most 65535 for every
        instruction. */
    method GetDimension(dim: nat) returns (r: u64)
      requires Valid() && dim < NUM_BBV
      ensures r == Projected(log, dim) % TWO64
      ensures 65535 * Instructions(log) < TWO64 ==> r == Projected(log, dim) <= 65535 * instrs
    {
      hide Projected, Instructions;
      r := counts[dim];
      ProjectedBound(log, dim);
      assert counts[..][dim] == r;
    }
  }

  lemma FirstState(seed: u64)
    ensures States(seed, 0) == Seeded(seed)
  {
  }

  /** The first `i` dimensions have their share. */
  ghost function Bumped(counts: seq<u64>, address: u64, count: u64, i: nat): seq<u64> {
    seq(|counts|, d requires 0 <= d < |counts| => Bump(counts[d], address, count, i, d))
  }

  ghost function Bump(c: u64, address: u64, count: u64, i: nat, d: nat): u64 {
    if d < i then (c + Weight(address, d) * count) % TWO64 else c
  }

  lemma BumpedNone(counts: seq<u64>, address: u64, count: u64)
    ensures Bumped(counts, address, count, 0) == counts
  {
  }

  lemma BumpedNext(counts: seq<u64>, address: u64, count: u64, i: nat)
    requires i + 4 <= |counts|
    ensures var b := Bumped(counts, address, count, i);
            |b| == |counts| &&
            b[i := (b[i] + Weight(address, i) * count) % TWO64]
             [i + 1 := (b[i + 1] + Weight(address, i + 1) * count) % TWO64]
             [i + 2 := (b[i + 2] + Weight(address, i + 2) * count) % TWO64]
             [i + 3 := (b[i + 3] + Weight(address, i + 3) * count) % TWO64] == Bumped(counts, address, count, i + 4)
  {
    hide Weight;
  }

  /** A state that was just drawn gives the weight of its dimension. */
  lemma WeightOf(address: u64, d: nat, j: nat, l: nat, state: u64)
    requires d == 4 * j + l && l < 4 && state == States(SeedOf(address, l), j + 1)
    ensures state / TWO16 % TWO16 == Weight(address, d)
  {
    StatesAreDrand48(SeedOf(address, l), j + 1);
  }

  lemma HoldsMore(log: seq<Block>, instrs: int, counts: seq<u64>, b: Block, instrs': int, counts': seq<u64>)
    requires Holds(log, instrs, counts) && |counts'| == NUM_BBV && instrs' == (instrs + b.count) % TWO64
    requires counts' == Bumped(counts, b.address, b.count, NUM_BBV)
    ensures Holds(log + [b], instrs', counts')
  {
    hide Weight, Projected, Instructions;
    forall d | 0 <= d < NUM_BBV
      ensures counts'[d] == Projected(log + [b], d) % TWO64
    {
      Snoc(log, b, d);
      ModAdd(Projected(log, d), Term(b, d));
    }
    Snoc(log, b, 0);
    ModAdd(Instructions(log), b.count);
  }

  lemma ModAdd(a: int, b: int)
    ensures (a % TWO64 + b) % TWO64 == (a + b) % TWO64
  {
    Congruent(a + b, a % TWO64 + b, TWO64, a / TWO64);
  }
}
