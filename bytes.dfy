/** Byte strings as Python's `struct` module and slicing see them:
    little-endian unsigned 16- and 32-bit fields (`'<H'`, `'<I'`) and
    slices `s[lo:hi]` that are cut short, never rejected, at the end of the
    buffer. */
module Bytes {

  type Byte = x: int | 0 <= x < 256

  const U16Limit: int := 0x1_0000
  const U32Limit: int := 0x1_0000_0000

  predicate IsU16(x: int) { 0 <= x < U16Limit }
  predicate IsU32(x: int) { 0 <= x < U32Limit }

  // ---------------------------------------------------------------- u16

  /** `struct.pack('<H', x)`: least significant byte first. */
  function PackU16(x: int): (r: seq<Byte>)
    requires IsU16(x)
    ensures |r| == 2
    ensures UnpackU16(r) == x
  {
    [x % 256, x / 256]
  }

  /** `struct.unpack('<H', b)` on an exactly two-byte slice. */
  function UnpackU16(b: seq<Byte>): (x: int)
    requires |b| == 2
    ensures IsU16(x)
  {
    b[0] as int + 256 * (b[1] as int)
  }

  /** Every two-byte string is the packing of exactly one u16. */
  lemma PackUnpackU16(b: seq<Byte>)
    requires |b| == 2
    ensures PackU16(UnpackU16(b)) == b
  {
    var x := UnpackU16(b);
    assert x % 256 == b[0] && x / 256 == b[1];
  }

  // ---------------------------------------------------------------- u32

  /** `struct.pack('<I', x)`: least significant byte first. */
  function PackU32(x: int): (r: seq<Byte>)
    requires IsU32(x)
    ensures |r| == 4
    ensures UnpackU32(r) == x
  {
    var q1 := x / 256;
    var q2 := q1 / 256;
    [x % 256, q1 % 256, q2 % 256, q2 / 256]
  }

  /** `struct.unpack('<I', b)` on an exactly four-byte slice. */
  function UnpackU32(b: seq<Byte>): (x: int)
    requires |b| == 4
    ensures IsU32(x)
  {
    b[0] as int + 256 * (b[1] as int + 256 * (b[2] as int + 256 * (b[3] as int)))
  }

  /** Every four-byte string is the packing of exactly one u32. */
  lemma PackUnpackU32(b: seq<Byte>)
    requires |b| == 4
    ensures PackU32(UnpackU32(b)) == b
  {
    var x := UnpackU32(b);
    var q1 := b[1] as int + 256 * (b[2] as int + 256 * (b[3] as int));
    var q2 := b[2] as int + 256 * (b[3] as int);
    assert x % 256 == b[0] && x / 256 == q1;
    assert q1 % 256 == b[1] && q1 / 256 == q2;
    assert q2 % 256 == b[2] && q2 / 256 == b[3];
  }

  // ---------------------------------------------------------- u16 arrays

  predicate AllU16(xs: seq<int>) {
    forall i :: 0 <= i < |xs| ==> IsU16(xs[i])
  }

  /** `struct.pack(f'<{len(xs)}H', *xs)`: the fields back to back. */
  function PackU16s(xs: seq<int>): (r: seq<Byte>)
    requires AllU16(xs)
    ensures |r| == 2 * |xs|
  {
    if xs == [] then [] else PackU16(xs[0]) + PackU16s(xs[1..])
  }

  /** `struct.unpack(f'<{n}H', b)` on a slice of exactly `2 * n` bytes. */
  function UnpackU16s(b: seq<Byte>): (xs: seq<int>)
    requires |b| % 2 == 0
    ensures |xs| == |b| / 2
    ensures AllU16(xs)
    decreases |b|
  {
    if b == [] then [] else [UnpackU16(b[..2])] + UnpackU16s(b[2..])
  }

  /** Element `i` of a packed array occupies bytes `2i` and `2i + 1`. */
  lemma {:induction false} PackU16sAt(xs: seq<int>, i: nat)
    requires AllU16(xs) && i < |xs|
    ensures PackU16s(xs)[2 * i .. 2 * i + 2] == PackU16(xs[i])
  {
    if i > 0 {
      PackU16sAt(xs[1..], i - 1);
      var tail := PackU16s(xs[1..]);
      assert PackU16s(xs) == PackU16(xs[0]) + tail;
      assert PackU16s(xs)[2 * i .. 2 * i + 2] == tail[2 * (i - 1) .. 2 * (i - 1) + 2];
    }
  }

  lemma {:induction false} UnpackPackU16s(xs: seq<int>)
    requires AllU16(xs)
    ensures UnpackU16s(PackU16s(xs)) == xs
  {
    if xs != [] {
      var b := PackU16s(xs);
      assert b[..2] == PackU16(xs[0]);
      assert b[2..] == PackU16s(xs[1..]);
      UnpackPackU16s(xs[1..]);
    }
  }

  lemma {:induction false} PackUnpackU16s(b: seq<Byte>)
    requires |b| % 2 == 0
    ensures PackU16s(UnpackU16s(b)) == b
    decreases |b|
  {
    if b != [] {
      var xs := UnpackU16s(b);
      PackUnpackU16(b[..2]);
      PackUnpackU16s(b[2..]);
      assert xs[1..] == UnpackU16s(b[2..]);
      assert b == b[..2] + b[2..];
    }
  }

  // -------------------------------------------------------- Python slices

  function Min(a: int, b: int): int { if a <= b then a else b }

  /** Python's `s[lo:hi]` for `0 <= lo <= hi`: the bytes of `s` from `lo`
      up to `hi`, cut short at the end of `s`, and empty past it. */
  function PySlice(s: seq<Byte>, lo: nat, hi: nat): (r: seq<Byte>)
    requires lo <= hi
    ensures |r| == if lo <= |s| then Min(hi, |s|) - lo else 0
    ensures |r| == hi - lo <==> hi <= |s| || lo == hi
  {
    if hi <= |s| then s[lo..hi] else if lo <= |s| then s[lo..] else []
  }

  /** A sequence is its first `k` elements followed by the rest. Stated
      apart so that a caller reasoning about a parser's result on both sides
      gets the equation without proving it next to that parser's unfolding. */
  lemma SplitAt<T>(s: seq<T>, k: nat)
    requires k <= |s|
    ensures s[..k] + s[k..] == s
  {
  }

  /** A slice read from the front of a buffer is the same whatever follows it. */
  lemma PySliceOfPrefix(s: seq<Byte>, extra: seq<Byte>, lo: nat, hi: nat)
    requires lo <= hi <= |s|
    ensures PySlice(s + extra, lo, hi) == PySlice(s, lo, hi) == s[lo..hi]
  {
    assert (s + extra)[lo..hi] == s[lo..hi];
  }
}
