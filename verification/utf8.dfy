/**
 * UTF-8 encoding of Dafny strings (sequences of Unicode scalar values), as
 * RFC 3629 section 3 lays it out. Go's `[]byte(name)` conversion produces
 * exactly these bytes for a name that is valid Unicode text.
 */
module Utf8 {

  /** An octet. */
  newtype byte = x: int | 0 <= x < 0x100

  /** The code points of a string. */
  function CodePoints(s: string): (r: seq<int>)
    ensures |r| == |s|
    ensures forall i :: 0 <= i < |s| ==> r[i] == s[i] as int
  {
    seq(|s|, i requires 0 <= i < |s| => s[i] as int)
  }

  /** The one to four bytes that encode one character. */
  function EncodeRune(c: char): (r: seq<byte>)
    ensures 1 <= |r| <= 4
    ensures c as int < 0x80 <==> |r| == 1
    ensures |r| == 1 ==> r[0] as int == c as int
  {
    var cp := c as int;
    if cp < 0x80 then
      [cp as byte]
    else if cp < 0x800 then
      [(0xC0 + cp / 0x40) as byte, (0x80 + cp % 0x40) as byte]
    else if cp < 0x1_0000 then
      [(0xE0 + cp / 0x1000) as byte, (0x80 + (cp / 0x40) % 0x40) as byte, (0x80 + cp % 0x40) as byte]
    else
      [(0xF0 + cp / 0x4_0000) as byte, (0x80 + (cp / 0x1000) % 0x40) as byte,
       (0x80 + (cp / 0x40) % 0x40) as byte, (0x80 + cp % 0x40) as byte]
  }

  /** The UTF-8 bytes of a string: each character's encoding, in order. */
  function Encode(s: string): (r: seq<byte>)
    ensures |s| <= |r| <= 4 * |s|
  {
    if s == [] then [] else EncodeRune(s[0]) + Encode(s[1..])
  }

  /** How many bytes the encoding that starts with lead byte `b` takes. */
  function SequenceLength(b: byte): nat
  {
    if b < 0x80 then 1 else if b < 0xE0 then 2 else if b < 0xF0 then 3 else 4
  }

  /** The payload bits of a continuation byte `10xxxxxx`. */
  function Payload(b: byte): int
  {
    (b as int) % 0x40
  }

  /** The code point encoded by the first `SequenceLength(b[0])` bytes of `b`. */
  function DecodeRune(b: seq<byte>): int
    requires |b| >= 1 && |b| >= SequenceLength(b[0])
  {
    var n := SequenceLength(b[0]);
    if n == 1 then b[0] as int
    else if n == 2 then (b[0] as int - 0xC0) * 0x40 + Payload(b[1])
    else if n == 3 then (b[0] as int - 0xE0) * 0x1000 + Payload(b[1]) * 0x40 + Payload(b[2])
    else (b[0] as int - 0xF0) * 0x4_0000 + Payload(b[1]) * 0x1000 + Payload(b[2]) * 0x40 + Payload(b[3])
  }

  /** Decoding, defined on the byte strings `Encode` produces: the code points, or `[-1]` on a truncated sequence. */
  function Decode(b: seq<byte>): seq<int>
    decreases |b|
  {
    if b == [] then []
    else if |b| < SequenceLength(b[0]) then [-1]
    else [DecodeRune(b)] + Decode(b[SequenceLength(b[0])..])
  }

  /** A continuation byte built from six payload bits gives those bits back. */
  lemma PayloadOf(x: int)
    requires 0 <= x < 0x40
    ensures Payload((0x80 + x) as byte) == x
  {
    assert 0x80 + x == 2 * 0x40 + x;
  }

  /** The encoding of one character starts with a lead byte that announces its length, and decodes back to it. */
  lemma RuneRoundTrip(c: char, rest: seq<byte>)
    ensures SequenceLength(EncodeRune(c)[0]) == |EncodeRune(c)|
    ensures DecodeRune(EncodeRune(c) + rest) == c as int
  {
    var cp := c as int;
    if cp < 0x80 {
    } else if cp < 0x800 {
      RuneTwo(c, rest);
    } else if cp < 0x1_0000 {
      RuneThree(c, rest);
    } else {
      RuneFour(c, rest);
    }
  }

  lemma RuneTwo(c: char, rest: seq<byte>)
    requires 0x80 <= c as int < 0x800
    ensures SequenceLength(EncodeRune(c)[0]) == |EncodeRune(c)|
    ensures DecodeRune(EncodeRune(c) + rest) == c as int
  {
    var cp := c as int;
    var q, r := cp / 0x40, cp % 0x40;
    assert EncodeRune(c) == [(0xC0 + q) as byte, (0x80 + r) as byte];
    DecodeTwo(q, r, rest);
  }

  lemma RuneThree(c: char, rest: seq<byte>)
    requires 0x800 <= c as int < 0x1_0000
    ensures SequenceLength(EncodeRune(c)[0]) == |EncodeRune(c)|
    ensures DecodeRune(EncodeRune(c) + rest) == c as int
  {
    var cp := c as int;
    var q, m, r := cp / 0x1000, (cp / 0x40) % 0x40, cp % 0x40;
    assert cp == q * 0x1000 + m * 0x40 + r;
    assert EncodeRune(c) == [(0xE0 + q) as byte, (0x80 + m) as byte, (0x80 + r) as byte];
    DecodeThree(q, m, r, rest);
  }

  lemma RuneFour(c: char, rest: seq<byte>)
    requires 0x1_0000 <= c as int
    ensures SequenceLength(EncodeRune(c)[0]) == |EncodeRune(c)|
    ensures DecodeRune(EncodeRune(c) + rest) == c as int
  {
    var cp := c as int;
    var q, h, m, r := cp / 0x4_0000, (cp / 0x1000) % 0x40, (cp / 0x40) % 0x40, cp % 0x40;
    assert cp == q * 0x4_0000 + h * 0x1000 + m * 0x40 + r;
    assert EncodeRune(c) == [(0xF0 + q) as byte, (0x80 + h) as byte, (0x80 + m) as byte, (0x80 + r) as byte];
    DecodeFour(q, h, m, r, rest);
  }

  lemma DecodeTwo(q: int, r: int, rest: seq<byte>)
    requires 0 <= q < 0x20 && 0 <= r < 0x40
    ensures var b := [(0xC0 + q) as byte, (0x80 + r) as byte] + rest;
      SequenceLength(b[0]) == 2 && DecodeRune(b) == q * 0x40 + r
  {
    PayloadOf(r);
  }

  lemma DecodeThree(q: int, m: int, r: int, rest: seq<byte>)
    requires 0 <= q < 0x10 && 0 <= m < 0x40 && 0 <= r < 0x40
    ensures var b := [(0xE0 + q) as byte, (0x80 + m) as byte, (0x80 + r) as byte] + rest;
      SequenceLength(b[0]) == 3 && DecodeRune(b) == q * 0x1000 + m * 0x40 + r
  {
    PayloadOf(m);
    PayloadOf(r);
  }

  lemma DecodeFour(q: int, h: int, m: int, r: int, rest: seq<byte>)
    requires 0 <= q < 0x10 && 0 <= h < 0x40 && 0 <= m < 0x40 && 0 <= r < 0x40
    ensures var b := [(0xF0 + q) as byte, (0x80 + h) as byte, (0x80 + m) as byte, (0x80 + r) as byte] + rest;
      SequenceLength(b[0]) == 4 && DecodeRune(b) == q * 0x4_0000 + h * 0x1000 + m * 0x40 + r
  {
    PayloadOf(h);
    PayloadOf(m);
    PayloadOf(r);
  }

  /** Encoding is invertible: decoding the UTF-8 bytes of a string gives back its code points. */
  lemma {:induction false} DecodeEncode(s: string)
    ensures Decode(Encode(s)) == CodePoints(s)
  {
    if s != [] {
      var e := EncodeRune(s[0]);
      RuneRoundTrip(s[0], Encode(s[1..]));
      assert (e + Encode(s[1..]))[..|e|] == e;
      assert (e + Encode(s[1..]))[|e|..] == Encode(s[1..]);
      DecodeEncode(s[1..]);
      assert CodePoints(s) == [s[0] as int] + CodePoints(s[1..]);
    }
  }

  /** So two strings with the same bytes are the same string. */
  lemma EncodeInjective(s: string, t: string)
    requires Encode(s) == Encode(t)
    ensures s == t
  {
    DecodeEncode(s);
    DecodeEncode(t);
    assert |s| == |t|;
    forall i | 0 <= i < |s| ensures s[i] == t[i] {
      assert CodePoints(s)[i] == CodePoints(t)[i];
    }
  }

  /** Encoding distributes over concatenation. */
  lemma {:induction false} EncodeAppend(s: string, t: string)
    ensures Encode(s + t) == Encode(s) + Encode(t)
  {
    if s != [] {
      assert (s + t)[0] == s[0];
      assert (s + t)[1..] == s[1..] + t;
      EncodeAppend(s[1..], t);
      calc {
        Encode(s + t);
        EncodeRune(s[0]) + Encode(s[1..] + t);
        EncodeRune(s[0]) + (Encode(s[1..]) + Encode(t));
        (EncodeRune(s[0]) + Encode(s[1..])) + Encode(t);
      }
    } else {
      assert s + t == t;
    }
  }

  /** An ASCII string encodes to its own character codes, one byte each. */
  lemma {:induction false} EncodeAscii(s: string)
    requires forall i :: 0 <= i < |s| ==> s[i] as int < 0x80
    ensures |Encode(s)| == |s|
    ensures forall i :: 0 <= i < |s| ==> Encode(s)[i] as int == s[i] as int
  {
    if s != [] {
      EncodeAscii(s[1..]);
      assert forall i :: 1 <= i < |s| ==> Encode(s)[i] == Encode(s[1..])[i - 1];
    }
  }
}
