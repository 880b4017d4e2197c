/** The code pages the reader assembles from the trace: storing shipped bytes page by page and copying
    an instruction's bytes back out (sift/sift_reader.cc, Read and staticInfoInstruction). */
module SiftImage {
  import opened Collections
  import opened Bytes
  import opened SiftFormat

  /** A page freshly allocated by the reader holds no defined byte. */
  type Page = p: seq<Option<byte>> | |p| == PAGE witness seq(PAGE, i => None)
  type Image = map<u64, Page>

  function PageOf(a: u64): u64 {
    a - a % PAGE
  }

  function NextPage(a: u64): u64 {
    (PageOf(a) + PAGE) % TWO64
  }

  /** How many of `size` bytes from address `a` lie on the page of `a`. */
  function OnPage(a: u64, size: nat): (n: nat)
    ensures n <= size && n <= PAGE - a % PAGE
  {
    if size < PAGE - a % PAGE then size else PAGE - a % PAGE
  }

  function Blank(): Page {
    seq(PAGE, i => None)
  }

  function Known(b: seq<byte>): (s: seq<Option<byte>>)
    ensures |s| == |b| && forall i :: 0 <= i < |b| ==> s[i] == Some(b[i])
  {
    seq(|b|, i requires 0 <= i < |b| => Some(b[i]))
  }

  function Splice(p: Page, offset: nat, b: seq<byte>): Page
    requires offset + |b| <= PAGE
  {
    p[..offset] + Known(b) + p[offset + |b|..]
  }

  function PageAt(img: Image, base: u64): Page {
    if base in img then img[base] else Blank()
  }

  /** The page-splitting loop of the RecOtherIcacheVariable case. */
  function Store(img: Image, a: u64, data: seq<byte>): Image
    decreases |data|
  {
    if data == [] then img else
    var n := OnPage(a, |data|);
    Store(img[PageOf(a) := Splice(PageAt(img, PageOf(a)), a % PAGE, data[..n])], NextPage(a), data[n..])
  }

  /** The copying loop of staticInfoInstruction; None is its page-present assertion failing. */
  function Decode(img: Image, a: u64, size: nat): (r: Option<seq<Option<byte>>>)
    ensures r.Some? ==> |r.value| == size
    decreases size
  {
    if size == 0 then Some([]) else
    var n := OnPage(a, size);
    if PageOf(a) !in img then None else
    var tail := Decode(img, NextPage(a), size - n);
    if tail.None? then None else Some(img[PageOf(a)][a % PAGE..a % PAGE + n] + tail.value)
  }

  // ---- byte by byte ----

  ghost function ByteAt(img: Image, x: u64): Option<byte> {
    if PageOf(x) in img then img[PageOf(x)][x % PAGE] else None
  }

  /** How far `x` lies after `a` in the 64-bit address space, going round at its end. */
  function Ahead(a: u64, x: u64): u64 {
    (x - a) % TWO64
  }

  function Plus(a: u64, i: nat): u64 {
    (a + i) % TWO64
  }

  lemma SpliceAt(img: Image, a: u64, b: seq<byte>, x: u64)
    requires |b| <= PAGE - a % PAGE
    ensures ByteAt(img[PageOf(a) := Splice(PageAt(img, PageOf(a)), a % PAGE, b)], x) ==
            if a <= x < a + |b| then Some(b[x - a]) else ByteAt(img, x)
  {
    if PageOf(x) == PageOf(a) {
      assert x - a == x % PAGE - a % PAGE;
    } else {
      assert !(a <= x < a + |b|);
    }
  }

  lemma AheadNear(a: u64, x: u64, n: nat)
    requires a + n <= TWO64
    ensures Ahead(a, x) < n <==> a <= x < a + n
    ensures a <= x < a + n ==> Ahead(a, x) == x - a
  {
  }

  lemma AheadNext(a: u64, x: u64, n: nat)
    requires n == PAGE - a % PAGE
    ensures Ahead(NextPage(a), x) == if Ahead(a, x) < n then Ahead(a, x) - n + TWO64 else Ahead(a, x) - n
  {
  }

  lemma NextPageAligned(a: u64)
    ensures NextPage(a) % PAGE == 0 && PageOf(NextPage(a)) == NextPage(a)
    ensures a + (PAGE - a % PAGE) <= TWO64
  {
  }

  lemma NextPageOf(a: u64)
    ensures NextPage(PageOf(a)) == NextPage(a)
  {
  }

  lemma PlusNext(a: u64, j: nat)
    ensures Plus(NextPage(a), j) == Plus(a, PAGE - a % PAGE + j)
  {
    var k := PageOf(a) + PAGE;
    assert (k % TWO64 + j) % TWO64 == (k + j) % TWO64;
  }

  lemma SamePage(a: u64, i: nat)
    requires a % PAGE + i < PAGE
    ensures a + i < TWO64 && Plus(a, i) == a + i && PageOf(a + i) == PageOf(a) && (a + i) % PAGE == a % PAGE + i
  {
  }

  lemma AheadPlus(a: u64, x: u64)
    ensures Plus(a, Ahead(a, x)) == x
  {
  }

  lemma PlusAhead(a: u64, i: nat)
    requires i < TWO64
    ensures Ahead(a, Plus(a, i)) == i
  {
  }

  /** The loop stores exactly the given bytes at their addresses, whatever the length, and nothing else. */
  lemma {:induction false} StoreAt(img: Image, a: u64, data: seq<byte>, x: u64)
    requires |data| <= TWO64
    ensures ByteAt(Store(img, a, data), x) ==
            if Ahead(a, x) < |data| then Some(data[Ahead(a, x)]) else ByteAt(img, x)
    decreases |data|
  {
    hide ByteAt, Splice, PageAt, PageOf, NextPage, Ahead;
    if data != [] {
      var n := OnPage(a, |data|);
      var img' := img[PageOf(a) := Splice(PageAt(img, PageOf(a)), a % PAGE, data[..n])];
      NextPageAligned(a);
      AheadNear(a, x, n);
      SpliceAt(img, a, data[..n], x);
      StoreAt(img', NextPage(a), data[n..], x);
      if n < |data| {
        AheadNext(a, x, n);
      }
    }
  }

  /** Decoding reads the bytes at the instruction's addresses, across page ends. */
  lemma {:induction false} DecodeAt(img: Image, a: u64, size: nat, i: nat)
    requires i < size
    ensures Decode(img, a, size).Some? ==> Decode(img, a, size).value[i] == ByteAt(img, Plus(a, i))
    decreases size
  {
    hide Plus, PageOf, NextPage;
    var n := OnPage(a, size);
    if i < n {
      SamePage(a, i);
    } else {
      DecodeAt(img, NextPage(a), size - n, i - n);
      PlusNext(a, i - n);
    }
  }

  lemma {:induction false} DecodeDefined(img: Image, a: u64, size: nat)
    requires forall i :: 0 <= i < size ==> ByteAt(img, Plus(a, i)).Some?
    ensures Decode(img, a, size).Some?
    decreases size
  {
    if size > 0 {
      var n := OnPage(a, size);
      assert Plus(a, 0) == a;
      forall i | 0 <= i < size - n
        ensures ByteAt(img, Plus(NextPage(a), i)).Some?
      {
        PlusNext(a, i);
      }
      DecodeDefined(img, NextPage(a), size - n);
    }
  }

  // ---- agreement with the traced code ----

  type Code = u64 -> byte

  function CodeAt(code: Code, a: u64, n: nat): (s: seq<byte>)
    ensures |s| == n && forall i :: 0 <= i < n ==> s[i] == code(Plus(a, i))
  {
    seq<byte>(n, i requires 0 <= i < n => code(Plus(a, i)))
  }

  /** No defined byte differs from the code. */
  ghost predicate Sound(img: Image, code: Code) {
    forall x: u64 :: ByteAt(img, x) == None || ByteAt(img, x) == Some(code(x))
  }

  /** The code bytes from `a` on are all there. */
  ghost predicate Holds(img: Image, code: Code, a: u64, n: nat) {
    forall i :: 0 <= i < n ==> ByteAt(img, Plus(a, i)) == Some(code(Plus(a, i)))
  }

  /** An instruction whose bytes were shipped decodes to the code at its address. */
  lemma DecodeHolds(img: Image, code: Code, a: u64, n: nat)
    requires Holds(img, code, a, n)
    ensures Decode(img, a, n) == Some(Known(CodeAt(code, a, n)))
  {
    DecodeDefined(img, a, n);
    var d := Decode(img, a, n).value;
    forall i | 0 <= i < n
      ensures d[i] == Known(CodeAt(code, a, n))[i]
    {
      DecodeAt(img, a, n, i);
    }
    assert d == Known(CodeAt(code, a, n));
  }

  /** Shipping code bytes makes them available and disturbs no byte already there. */
  lemma StoreCode(img: Image, code: Code, a: u64, n: nat)
    requires Sound(img, code) && n <= TWO64
    ensures Sound(Store(img, a, CodeAt(code, a, n)), code)
    ensures Holds(Store(img, a, CodeAt(code, a, n)), code, a, n)
    ensures forall b: u64, m: nat :: Holds(img, code, b, m) ==> Holds(Store(img, a, CodeAt(code, a, n)), code, b, m)
  {
    var data := CodeAt(code, a, n);
    var img' := Store(img, a, data);
    forall x: u64
      ensures ByteAt(img', x) == if Ahead(a, x) < n then Some(code(x)) else ByteAt(img, x)
    {
      StoreAt(img, a, data, x);
      AheadPlus(a, x);
    }
    forall i | 0 <= i < n
      ensures ByteAt(img', Plus(a, i)) == Some(code(Plus(a, i)))
    {
      PlusAhead(a, i);
    }
  }

  lemma AlignedPage(base: u64)
    requires base % PAGE == 0
    ensures PageOf(base) == base
  {
  }

  lemma PutPageAt(img: Image, code: Code, base: u64, x: u64)
    requires base % PAGE == 0
    ensures ByteAt(img[base := Known(CodeAt(code, base, PAGE))], x) ==
            if PageOf(x) == base then Some(code(x)) else ByteAt(img, x)
  {
    if PageOf(x) == base {
      SamePage(base, x % PAGE);
      assert Plus(base, x % PAGE) == x;
    }
  }

  /** Shipping a whole page replaces it, which changes nothing when the code has not changed. */
  lemma PutPage(img: Image, code: Code, base: u64)
    requires Sound(img, code) && base % PAGE == 0
    ensures var img' := img[base := Known(CodeAt(code, base, PAGE))];
            Sound(img', code) && Holds(img', code, base, PAGE) &&
            forall b: u64, m: nat :: Holds(img, code, b, m) ==> Holds(img', code, b, m)
  {
    var img' := img[base := Known(CodeAt(code, base, PAGE))];
    forall x: u64
      ensures ByteAt(img', x) == if PageOf(x) == base then Some(code(x)) else ByteAt(img, x)
    {
      PutPageAt(img, code, base, x);
    }
    hide ByteAt, PageOf, Plus;
    forall i | 0 <= i < PAGE
      ensures ByteAt(img', Plus(base, i)) == Some(code(Plus(base, i)))
    {
      SamePage(base, i);
      assert PageOf(base) == base by { AlignedPage(base); }
    }
  }
}
