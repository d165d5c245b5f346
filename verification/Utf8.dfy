/** UTF-8: the bytes of a text, and which bytes are the bytes of a text. */
module Utf8 {
  import opened ByteStrings

  /** `as_bytes` on one character. */
  function EncodeChar(c: char): (b: Bytes)
    ensures b != []
    ensures b[0] < 128 <==> c as int < 128
    ensures c as int < 128 ==> b == [c as int]
  {
    var n := c as int;
    if n < 0x80 then
      [n]
    else if n < 0x800 then
      [0xC0 + n / 0x40, 0x80 + n % 0x40]
    else if n < 0x1_0000 then
      [0xE0 + n / 0x1000, 0x80 + n / 0x40 % 0x40, 0x80 + n % 0x40]
    else
      [0xF0 + n / 0x4_0000, 0x80 + n / 0x1000 % 0x40, 0x80 + n / 0x40 % 0x40, 0x80 + n % 0x40]
  }

  /** `as_bytes` */
  function Encode(text: string): Bytes {
    if text == "" then [] else EncodeChar(text[0]) + Encode(text[1..])
  }

  predicate Continuation(b: byte) {
    0x80 <= b <= 0xBF
  }

  /** The length of the well-formed byte sequence that `b` starts with, and 0 when there is
      none: table 3-7 of the Unicode standard. */
  function SequenceLength(b: Bytes): (n: nat)
    ensures n <= 4 && n <= |b|
  {
    if |b| >= 1 && b[0] <= 0x7F then 1
    else if |b| >= 2 && 0xC2 <= b[0] <= 0xDF && Continuation(b[1]) then 2
    else if |b| >= 3 && ThreeByteStart(b[0], b[1]) && Continuation(b[2]) then 3
    else if |b| >= 4 && FourByteStart(b[0], b[1]) && Continuation(b[2]) && Continuation(b[3]) then 4
    else 0
  }

  predicate ThreeByteStart(a: byte, b: byte) {
    || (a == 0xE0 && 0xA0 <= b <= 0xBF)
    || (0xE1 <= a <= 0xEC && Continuation(b))
    || (a == 0xED && 0x80 <= b <= 0x9F)
    || (0xEE <= a <= 0xEF && Continuation(b))
  }

  predicate FourByteStart(a: byte, b: byte) {
    || (a == 0xF0 && 0x90 <= b <= 0xBF)
    || (0xF1 <= a <= 0xF3 && Continuation(b))
    || (a == 0xF4 && 0x80 <= b <= 0x8F)
  }

  /** `from_utf8` succeeds. */
  predicate Valid(b: Bytes) {
    b == [] || (SequenceLength(b) > 0 && Valid(b[SequenceLength(b)..]))
  }

  lemma EncodedCharLength(c: char, tail: Bytes)
    ensures SequenceLength(EncodeChar(c) + tail) == |EncodeChar(c)|
  {
    var n, b := c as int, EncodeChar(c) + tail;
    if 0x800 <= n < 0x1_0000 {
      assert ThreeByteStart(b[0], b[1]);
    } else if n >= 0x1_0000 {
      assert FourByteStart(b[0], b[1]);
    }
  }

  /** The bytes of a text are valid. */
  lemma {:induction false} ValidEncode(text: string)
    ensures Valid(Encode(text))
  {
    if text != "" {
      var first, rest := EncodeChar(text[0]), Encode(text[1..]);
      EncodedCharLength(text[0], rest);
      ValidEncode(text[1..]);
      assert (first + rest)[|first|..] == rest;
    }
  }

  /** Only the bytes of a text are valid. */
  lemma {:induction false} ValidOnlyEncode(b: Bytes) returns (text: string)
    requires Valid(b)
    ensures Encode(text) == b
  {
    if b == [] {
      return "";
    }
    var n := SequenceLength(b);
    var c := SequenceChar(b);
    var rest := ValidOnlyEncode(b[n..]);
    text := [c] + rest;
    assert text[1..] == rest && b == b[..n] + b[n..];
  }

  lemma SequenceChar(b: Bytes) returns (c: char)
    requires SequenceLength(b) > 0
    ensures EncodeChar(c) == b[..SequenceLength(b)]
  {
    var n := SequenceLength(b);
    if n == 1 {
      c := b[0] as char;
    } else if n == 2 {
      c := TwoByteChar(b[0] - 0xC0, b[1] - 0x80);
    } else if n == 3 {
      c := ThreeByteChar(b[0] - 0xE0, b[1] - 0x80, b[2] - 0x80);
    } else {
      c := FourByteChar(b[0] - 0xF0, b[1] - 0x80, b[2] - 0x80, b[3] - 0x80);
    }
  }

  lemma TwoByteChar(a: int, b: int) returns (c: char)
    requires 0x2 <= a < 0x20 && 0 <= b < 0x40
    ensures EncodeChar(c) == [0xC0 + a, 0x80 + b]
  {
    c := (a * 0x40 + b) as char;
  }

  lemma ThreeByteChar(a: int, b: int, d: int) returns (c: char)
    requires 0 <= a < 0x10 && 0 <= b < 0x40 && 0 <= d < 0x40
    requires (a == 0 ==> b >= 0x20) && (a == 0xD ==> b < 0x20)
    ensures EncodeChar(c) == [0xE0 + a, 0x80 + b, 0x80 + d]
  {
    var high := a * 0x40 + b;
    c := (high * 0x40 + d) as char;
    Split(high, d);
    Split(a, b);
    assert (c as int) / 0x1000 == a;
  }

  lemma FourByteChar(a: int, b: int, d: int, e: int) returns (c: char)
    requires 0 <= a <= 4 && 0 <= b < 0x40 && 0 <= d < 0x40 && 0 <= e < 0x40
    requires (a == 0 ==> b >= 0x10) && (a == 4 ==> b < 0x10)
    ensures EncodeChar(c) == [0xF0 + a, 0x80 + b, 0x80 + d, 0x80 + e]
  {
    var top := a * 0x40 + b;
    var high := top * 0x40 + d;
    c := (high * 0x40 + e) as char;
    Split(high, e);
    Split(top, d);
    Split(a, b);
    assert (c as int) / 0x1000 == top && (c as int) / 0x4_0000 == a;
  }

  lemma Split(high: nat, low: nat)
    requires low < 0x40
    ensures (high * 0x40 + low) / 0x40 == high && (high * 0x40 + low) % 0x40 == low
  {
  }
}
