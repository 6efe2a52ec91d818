/**
 * UTF-8 encoding of strings (section 3 of RFC 3629), standing for Python's
 * `str.encode("utf-8")` on strings of Unicode scalar values.
 */
module Utf8 {

  type Byte = b: int | 0 <= b < 0x100

  /** A byte of the form 10xxxxxx, which only ever continues a sequence. */
  predicate IsContinuation(b: Byte) {
    0x80 <= b < 0xC0
  }

  /** The bytes that encode one scalar value: one byte below 0x80, then two, three or four. */
  function EncodeChar(c: char): (r: seq<Byte>)
    ensures |r| == (if c as int < 0x80 then 1 else if c as int < 0x800 then 2 else if c as int < 0x1_0000 then 3 else 4)
    ensures |r| == 1 <==> r[0] < 0x80
    ensures forall k | 1 <= k < |r| :: IsContinuation(r[k])
    ensures !IsContinuation(r[0])
  {
    var v := c as int;
    if v < 0x80 then [v]
    else if v < 0x800 then [0xC0 + v / 0x40, 0x80 + v % 0x40]
    else if v < 0x1_0000 then [0xE0 + v / 0x1000, 0x80 + (v / 0x40) % 0x40, 0x80 + v % 0x40]
    else [0xF0 + v / 0x4_0000, 0x80 + (v / 0x1000) % 0x40, 0x80 + (v / 0x40) % 0x40, 0x80 + v % 0x40]
  }

  /** The scalar value that a well-formed one- to four-byte sequence stands for. */
  function DecodeChar(bs: seq<Byte>): int
    requires 1 <= |bs| <= 4
  {
    if |bs| == 1 then bs[0] as int
    else if |bs| == 2 then (bs[0] as int - 0xC0) * 0x40 + (bs[1] as int - 0x80)
    else if |bs| == 3 then (bs[0] as int - 0xE0) * 0x1000 + (bs[1] as int - 0x80) * 0x40 + (bs[2] as int - 0x80)
    else (bs[0] as int - 0xF0) * 0x4_0000 + (bs[1] as int - 0x80) * 0x1000 + (bs[2] as int - 0x80) * 0x40 + (bs[3] as int - 0x80)
  }

  /** Decoding the bytes of one character gives the character back. */
  lemma DecodeEncodeChar(c: char)
    ensures DecodeChar(EncodeChar(c)) == c as int
  {
    var v := c as int;
    if 0x800 <= v < 0x1_0000 {
      DivMod64(v);
      assert (v / 0x40) / 0x40 == v / 0x1000;
    } else if 0x1_0000 <= v {
      DivMod64(v);
      DivMod64(v / 0x40);
      assert (v / 0x40) / 0x40 == v / 0x1000;
      assert (v / 0x1000) / 0x40 == v / 0x4_0000;
    }
  }

  lemma DivMod64(v: nat)
    ensures (v / 0x40) / 0x40 == v / 0x1000
    ensures (v / 0x1000) / 0x40 == v / 0x4_0000
  {
  }

  /** Python's `text.encode("utf-8")`: the encodings of the characters, in order. */
  function Encode(s: string): (r: seq<Byte>)
    ensures |r| >= |s|
  {
    if s == [] then [] else Encode(s[..|s| - 1]) + EncodeChar(s[|s| - 1])
  }

  /** Encoding distributes over concatenation. */
  lemma {:induction false} EncodeAppend(a: string, b: string)
    ensures Encode(a + b) == Encode(a) + Encode(b)
    decreases |b|
  {
    if b == [] {
      assert a + b == a;
    } else {
      assert (a + b)[..|a + b| - 1] == a + b[..|b| - 1];
      EncodeAppend(a, b[..|b| - 1]);
    }
  }

  predicate IsAscii(s: string) {
    forall k | 0 <= k < |s| :: s[k] as int < 0x80
  }

  /** An ASCII string encodes to its own code points, one byte per character. */
  lemma {:induction false} EncodeAscii(s: string)
    requires IsAscii(s)
    ensures |Encode(s)| == |s|
    ensures forall k | 0 <= k < |s| :: Encode(s)[k] == s[k] as int
  {
    if s != [] {
      EncodeAscii(s[..|s| - 1]);
    }
  }
}
