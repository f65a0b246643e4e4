/** UTF-8 as Python's `str.encode('utf-8')` and strict `bytes.decode('utf-8')`
    implement it: every Unicode scalar value becomes one to four bytes, and
    decoding accepts exactly the well-formed byte sequences of the Unicode
    Standard, table 3-7 (no overlong forms, no surrogates, nothing above
    U+10FFFF). Dafny's `char` is a Unicode scalar value, so `string` is the
    set of texts Python can encode. */
module Utf8 {
  import opened Bytes
  import opened Wrappers

  predicate IsContinuation(b: Byte) { 0x80 <= b <= 0xBF }

  // ------------------------------------------------------------- encoding

  /** The one to four bytes that encode `c`. */
  function EncodeChar(c: char): (r: seq<Byte>)
    ensures 1 <= |r| <= 4
    ensures |r| == 1 <==> c as int < 0x80
  {
    var n := c as int;
    var q1 := n / 64;
    var q2 := q1 / 64;
    var q3 := q2 / 64;
    if n < 0x80 then [n]
    else if n < 0x800 then [0xC0 + q1, 0x80 + n % 64]
    else if n < 0x1_0000 then [0xE0 + q2, 0x80 + q1 % 64, 0x80 + n % 64]
    else [0xF0 + q3, 0x80 + q2 % 64, 0x80 + q1 % 64, 0x80 + n % 64]
  }

  /** `s.encode('utf-8')`. */
  function Encode(s: string): (r: seq<Byte>)
    ensures |r| >= |s|
  {
    if s == "" then [] else EncodeChar(s[0]) + Encode(s[1..])
  }

  // ------------------------------------------------------------- decoding

  /** The byte after a lead byte `b0` of a three-byte form: E0 excludes the
      overlong forms, ED the surrogates. */
  predicate SecondOfThree(b0: Byte, b1: Byte) {
    if b0 == 0xE0 then 0xA0 <= b1 <= 0xBF
    else if b0 == 0xED then 0x80 <= b1 <= 0x9F
    else IsContinuation(b1)
  }

  /** The byte after a lead byte `b0` of a four-byte form: F0 excludes the
      overlong forms, F4 everything above U+10FFFF. */
  predicate SecondOfFour(b0: Byte, b1: Byte) {
    if b0 == 0xF0 then 0x90 <= b1 <= 0xBF
    else if b0 == 0xF4 then 0x80 <= b1 <= 0x8F
    else IsContinuation(b1)
  }

  /** The first character of `b` and the number of bytes it takes, or None
      when `b` does not start with a well-formed sequence. */
  function DecodeFirst(b: seq<Byte>): (r: Option<(char, nat)>)
    requires |b| > 0
    ensures r.Some? ==> 1 <= r.value.1 <= |b| && r.value.1 <= 4
  {
    var b0 := b[0] as int;
    if b0 < 0x80 then
      Some((b0 as char, 1))
    else if 0xC2 <= b0 <= 0xDF && |b| >= 2 && IsContinuation(b[1]) then
      Some((((b0 - 0xC0) * 64 + (b[1] - 0x80)) as char, 2))
    else if 0xE0 <= b0 <= 0xEF && |b| >= 3 && SecondOfThree(b[0], b[1]) && IsContinuation(b[2]) then
      Some(((((b0 - 0xE0) * 64 + (b[1] - 0x80)) * 64 + (b[2] - 0x80)) as char, 3))
    else if 0xF0 <= b0 <= 0xF4 && |b| >= 4 && SecondOfFour(b[0], b[1])
            && IsContinuation(b[2]) && IsContinuation(b[3]) then
      Some((((((b0 - 0xF0) * 64 + (b[1] - 0x80)) * 64 + (b[2] - 0x80)) * 64 + (b[3] - 0x80)) as char, 4))
    else
      None
  }

  /** Strict `b.decode('utf-8')`: None where Python raises UnicodeDecodeError. */
  function Decode(b: seq<Byte>): (r: Option<string>)
    ensures r.Some? ==> |r.value| <= |b|
    decreases |b|, 1
  {
    if b == [] then Some("") else DecodeNonEmpty(b)
  }

  /** The first character of `b` followed by the decoding of the rest. */
  function DecodeNonEmpty(b: seq<Byte>): (r: Option<string>)
    requires |b| > 0
    ensures r.Some? ==> |r.value| <= |b|
    decreases |b|, 0
  {
    var first :- DecodeFirst(b);
    var rest :- Decode(b[first.1..]);
    Some([first.0] + rest)
  }

  // ------------------------------------------------------------- one char

  lemma DecodeFirstOfEncodeChar(c: char, rest: seq<Byte>)
    ensures DecodeFirst(EncodeChar(c) + rest) == Some((c, |EncodeChar(c)|))
  {
    var n := c as int;
    if n < 0x80 {
    } else if n < 0x800 {
      var b := EncodeChar(c) + rest;
      assert n == (n / 64) * 64 + n % 64;
      assert b[0] == 0xC0 + n / 64 && b[1] == 0x80 + n % 64;
    } else if n < 0x1_0000 {
      DecodeFirstOfThreeBytes(c, rest);
    } else {
      DecodeFirstOfFourBytes(c, rest);
    }
  }

  lemma DecodeFirstOfThreeBytes(c: char, rest: seq<Byte>)
    requires 0x800 <= c as int < 0x1_0000
    ensures DecodeFirst(EncodeChar(c) + rest) == Some((c, 3))
  {
    var n := c as int;
    var q1 := n / 64;
    var q2 := q1 / 64;
    var b := EncodeChar(c) + rest;
    assert n == q1 * 64 + n % 64;
    assert q1 == q2 * 64 + q1 % 64;
    assert b[0] == 0xE0 + q2 && b[1] == 0x80 + q1 % 64 && b[2] == 0x80 + n % 64;
    assert b[0] == 0xE0 ==> q1 >= 0x20;
    assert b[0] == 0xED ==> q1 % 64 < 0x20;
  }

  lemma DecodeFirstOfFourBytes(c: char, rest: seq<Byte>)
    requires 0x1_0000 <= c as int
    ensures DecodeFirst(EncodeChar(c) + rest) == Some((c, 4))
  {
    var n := c as int;
    var q1 := n / 64;
    var q2 := q1 / 64;
    var q3 := q2 / 64;
    var b := EncodeChar(c) + rest;
    assert n == q1 * 64 + n % 64;
    assert q1 == q2 * 64 + q1 % 64;
    assert q2 == q3 * 64 + q2 % 64;
    assert b[0] == 0xF0 + q3 && b[1] == 0x80 + q2 % 64;
    assert b[2] == 0x80 + q1 % 64 && b[3] == 0x80 + n % 64;
    assert b[0] == 0xF0 ==> q2 >= 0x10;
    assert b[0] == 0xF4 ==> q2 % 64 < 0x10;
  }

  lemma EncodeCharOfDecodeFirst(b: seq<Byte>)
    requires |b| > 0 && DecodeFirst(b).Some?
    ensures EncodeChar(DecodeFirst(b).value.0) == b[..DecodeFirst(b).value.1]
  {
    var b0 := b[0] as int;
    if b0 < 0x80 {
    } else if b0 <= 0xDF {
      var n := DecodeFirst(b).value.0 as int;
      assert n == (b0 - 0xC0) * 64 + (b[1] - 0x80);
      assert n / 64 == b0 - 0xC0 && n % 64 == b[1] - 0x80;
    } else if b0 <= 0xEF {
      EncodeCharOfThreeBytes(b);
    } else {
      EncodeCharOfFourBytes(b);
    }
  }

  lemma EncodeCharOfThreeBytes(b: seq<Byte>)
    requires |b| >= 3 && 0xE0 <= b[0] <= 0xEF && DecodeFirst(b).Some?
    ensures EncodeChar(DecodeFirst(b).value.0) == b[..3]
  {
    var n := DecodeFirst(b).value.0 as int;
    var b0, b1, b2 := b[0] as int, b[1] as int, b[2] as int;
    var q1 := (b0 - 0xE0) * 64 + (b1 - 0x80);
    assert n == q1 * 64 + (b2 - 0x80);
    assert n / 64 == q1 && n % 64 == b2 - 0x80;
    assert q1 / 64 == b0 - 0xE0 && q1 % 64 == b1 - 0x80;
  }

  lemma EncodeCharOfFourBytes(b: seq<Byte>)
    requires |b| >= 4 && 0xF0 <= b[0] && DecodeFirst(b).Some?
    ensures EncodeChar(DecodeFirst(b).value.0) == b[..4]
  {
    var n := DecodeFirst(b).value.0 as int;
    var b0, b1, b2, b3 := b[0] as int, b[1] as int, b[2] as int, b[3] as int;
    var q2 := (b0 - 0xF0) * 64 + (b1 - 0x80);
    var q1 := q2 * 64 + (b2 - 0x80);
    assert n == q1 * 64 + (b3 - 0x80);
    assert n / 64 == q1 && n % 64 == b3 - 0x80;
    assert q1 / 64 == q2 && q1 % 64 == b2 - 0x80;
    assert q2 / 64 == b0 - 0xF0 && q2 % 64 == b1 - 0x80;
  }

  // ------------------------------------------------------------ round trips

  /** Decoding an encoded text gives the text back. */
  lemma {:induction false} DecodeEncode(s: string)
    ensures Decode(Encode(s)).Some? && Decode(Encode(s)).value == s
  {
    if s != "" {
      var e := EncodeChar(s[0]);
      var rest := Encode(s[1..]);
      DecodeFirstOfEncodeChar(s[0], rest);
      assert (e + rest)[|e|..] == rest;
      DecodeEncode(s[1..]);
      assert [s[0]] + s[1..] == s;
    }
  }

  /** Strict decoding accepts only the canonical encoding of what it returns. */
  lemma {:induction false} EncodeDecode(b: seq<Byte>)
    requires Decode(b).Some?
    ensures Encode(Decode(b).value) == b
    decreases |b|
  {
    if b != [] {
      var first := DecodeFirst(b).value;
      var s := Decode(b).value;
      EncodeCharOfDecodeFirst(b);
      EncodeDecode(b[first.1..]);
      assert s[0] == first.0 && s[1..] == Decode(b[first.1..]).value;
      assert b[..first.1] + b[first.1..] == b;
    }
  }

  /** A text of ASCII characters encodes to its character codes. */
  lemma AsciiEncoding(s: string, b: seq<Byte>)
    requires |s| == |b|
    requires forall i :: 0 <= i < |s| ==> s[i] as int < 0x80 && s[i] as int == b[i]
    ensures Encode(s) == b
  {
    EncodeAscii(s);
  }

  /** A text of ASCII characters encodes to one byte per character. */
  lemma {:induction false} EncodeAscii(s: string)
    requires forall i :: 0 <= i < |s| ==> s[i] as int < 0x80
    ensures |Encode(s)| == |s|
    ensures forall i :: 0 <= i < |s| ==> Encode(s)[i] == s[i] as int
  {
    if s != "" {
      EncodeAscii(s[1..]);
    }
  }
}
