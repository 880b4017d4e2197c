/** Bytes, fixed-width unsigned fields in little-endian order, and cursors over a byte stream. */
module Bytes {

  const TWO16: int := 0x1_0000
  const TWO32: int := 0x1_0000_0000
  const TWO64: int := 0x1_0000_0000_0000_0000

  type byte = x: int | 0 <= x < 256
  type u16 = x: int | 0 <= x < TWO16
  type u32 = x: int | 0 <= x < TWO32
  type u64 = x: int | 0 <= x < TWO64
  type i32 = x: int | -0x8000_0000 <= x < 0x8000_0000

  // ---- little-endian fields ----

  function UnLE16(s: seq<byte>): u16
    requires |s| == 2
  {
    var hi: int := s[1];
    s[0] + 256 * hi
  }

  function LE16(v: u16): (s: seq<byte>)
    ensures |s| == 2 && UnLE16(s) == v
  {
    [v % 256, v / 256]
  }

  function UnLE32(s: seq<byte>): u32
    requires |s| == 4
  {
    UnLE16(s[..2]) + TWO16 * UnLE16(s[2..])
  }

  function LE32(v: u32): (s: seq<byte>)
    ensures |s| == 4 && UnLE32(s) == v
  {
    LE16(v % TWO16) + LE16(v / TWO16)
  }

  function UnLE64(s: seq<byte>): u64
    requires |s| == 8
  {
    UnLE32(s[..4]) + TWO32 * UnLE32(s[4..])
  }

  function LE64(v: u64): (s: seq<byte>)
    ensures |s| == 8 && UnLE64(s) == v
  {
    LE32(v % TWO32) + LE32(v / TWO32)
  }

  /** A signed 32-bit value and its two's complement bit pattern. */
  function ToSigned(v: u32): i32 {
    if v < 0x8000_0000 then v else v - TWO32
  }

  function ToUnsigned(v: i32): (r: u32)
    ensures ToSigned(r) == v
  {
    if v < 0 then v + TWO32 else v
  }

  // ---- cursors ----

  /** What reading a field off the front of a stream gives: the field and what is left, a wait for
      more bytes, or a failed assertion. */
  datatype Scan<+T> = Scanned(value: T, rest: seq<byte>) | Short | Malformed {
    predicate IsFailure() {
      !Scanned?
    }
    function PropagateFailure<U>(): Scan<U>
      requires IsFailure()
    {
      if Short? then Short else Malformed
    }
    function Extract(): (T, seq<byte>)
      requires !IsFailure()
    {
      (value, rest)
    }
  }

  function Get8(s: seq<byte>): Scan<byte> {
    if |s| < 1 then Short else Scanned(s[0], s[1..])
  }

  function Get16(s: seq<byte>): Scan<u16> {
    if |s| < 2 then Short else Scanned(UnLE16(s[..2]), s[2..])
  }

  function Get32(s: seq<byte>): Scan<u32> {
    if |s| < 4 then Short else Scanned(UnLE32(s[..4]), s[4..])
  }

  function Get64(s: seq<byte>): Scan<u64> {
    if |s| < 8 then Short else Scanned(UnLE64(s[..8]), s[8..])
  }

  function GetBytes(n: nat, s: seq<byte>): Scan<seq<byte>> {
    if |s| < n then Short else Scanned(s[..n], s[n..])
  }
}
