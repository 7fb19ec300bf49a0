/** UTF-8, strictly: the byte sequences of section 4 of RFC 3629 and no others. */
module Utf8 {
  import opened Basics

  type byte = n: int | 0 <= n < 0x100

  /** A Unicode scalar value: any code point that is not a surrogate. */
  predicate IsScalarValue(n: int) {
    0 <= n < 0x110000 && !(0xD800 <= n < 0xE000)
  }

  type scalar = n: int | 0 <= n < 0x110000 && !(0xD800 <= n < 0xE000)

  function Width(c: scalar): (w: nat)
    ensures 1 <= w <= 4
  {
    if c < 0x80 then 1 else if c < 0x800 then 2 else if c < 0x10000 then 3 else 4
  }

  /** `c` in base 64, least significant digit first in `Low`. */
  function Low(c: nat): (d: nat) ensures d < 0x40 && c == 0x40 * High(c) + d { c % 0x40 }

  function High(c: nat): nat { c / 0x40 }

  function EncodeScalar(c: scalar): (b: seq<byte>)
    ensures |b| == Width(c)
  {
    var h1 := High(c);
    var h2 := High(h1);
    var h3 := High(h2);
    assert c == 0x40 * h1 + Low(c) && h1 == 0x40 * h2 + Low(h1) && h2 == 0x40 * h3 + Low(h2);
    if c < 0x80 then var b: byte := c; [b]
    else if c < 0x800 then [0xC0 + h1, 0x80 + Low(c)]
    else if c < 0x10000 then [0xE0 + h2, 0x80 + Low(h1), 0x80 + Low(c)]
    else [0xF0 + h3, 0x80 + Low(h2), 0x80 + Low(h1), 0x80 + Low(c)]
  }

  function Encode(s: seq<scalar>): seq<byte> {
    if s == [] then [] else EncodeScalar(s[0]) + Encode(s[1..])
  }

  predicate IsTail(b: byte) {
    0x80 <= b < 0xC0
  }

  datatype Lead = Lead(scalar: scalar, width: nat)

  function Join(high: nat, tail: byte): (c: nat)
    requires IsTail(tail)
    ensures High(c) == high && Low(c) == tail - 0x80
  {
    var low: nat := tail - 0x80;
    assert (high * 0x40 + low) / 0x40 == high;
    high * 0x40 + low
  }

  /** The scalar at the front of `b`, where a well-formed sequence stands. */
  function DecodeScalar(b: seq<byte>): (r: Option<Lead>)
    ensures r.Some? ==> 1 <= r.value.width <= |b| && r.value.width == Width(r.value.scalar)
  {
    if b == [] then None
    else
      var b0: int := b[0];
      if b0 < 0x80 then Some(Lead(b0, 1))
      else if 0xC2 <= b0 < 0xE0 then
        if |b| >= 2 && IsTail(b[1]) then Some(Lead(Join(b0 - 0xC0, b[1]), 2)) else None
      else if 0xE0 <= b0 < 0xF0 then
        if |b| >= 3 && IsTail(b[1]) && IsTail(b[2]) && (b0 == 0xE0 ==> 0xA0 <= b[1]) && (b0 == 0xED ==> b[1] < 0xA0)
        then Some(Lead(Join(Join(b0 - 0xE0, b[1]), b[2]), 3)) else None
      else if 0xF0 <= b0 < 0xF5 then
        if |b| >= 4 && IsTail(b[1]) && IsTail(b[2]) && IsTail(b[3]) && (b0 == 0xF0 ==> 0x90 <= b[1]) && (b0 == 0xF4 ==> b[1] < 0x90)
        then Some(Lead(Join(Join(Join(b0 - 0xF0, b[1]), b[2]), b[3]), 4)) else None
      else None
  }

  /** The string `b` is the encoding of, when it is well-formed. */
  function Decode(b: seq<byte>): Option<seq<scalar>> {
    if b == [] then Some([])
    else
      var lead :- DecodeScalar(b);
      var rest :- Decode(b[lead.width..]);
      Some([lead.scalar] + rest)
  }

  lemma JoinSplit(c: nat)
    ensures Join(High(c), 0x80 + Low(c)) == c
  {
    assert c == 0x40 * High(c) + Low(c);
  }

  lemma DecodeAfterEncodeScalar(c: scalar, rest: seq<byte>)
    ensures DecodeScalar(EncodeScalar(c) + rest) == Some(Lead(c, Width(c)))
  {
    var e := EncodeScalar(c);
    var b := e + rest;
    assert forall i :: 0 <= i < |e| ==> b[i] == e[i];
    var h1 := High(c);
    var h2 := High(h1);
    assert c == 0x40 * h1 + Low(c) && h1 == 0x40 * h2 + Low(h1) && h2 == 0x40 * High(h2) + Low(h2);
    JoinSplit(c);
    JoinSplit(h1);
    JoinSplit(h2);
  }

  lemma TwoBytes(b: seq<byte>)
    requires DecodeScalar(b).Some? && DecodeScalar(b).value.width == 2
    ensures b[..2] == EncodeScalar(DecodeScalar(b).value.scalar)
  {
    assert b[..2] == [b[0], b[1]];
  }

  lemma ThreeBytes(b: seq<byte>)
    requires DecodeScalar(b).Some? && DecodeScalar(b).value.width == 3
    ensures b[..3] == EncodeScalar(DecodeScalar(b).value.scalar)
  {
    assert b[..3] == [b[0], b[1], b[2]];
  }

  lemma FourBytes(b: seq<byte>)
    requires DecodeScalar(b).Some? && DecodeScalar(b).value.width == 4
    ensures b[..4] == EncodeScalar(DecodeScalar(b).value.scalar)
  {
    assert b[..4] == [b[0], b[1], b[2], b[3]];
  }

  lemma EncodeAfterDecodeScalar(b: seq<byte>)
    requires DecodeScalar(b).Some?
    ensures b[..DecodeScalar(b).value.width] == EncodeScalar(DecodeScalar(b).value.scalar)
  {
    var width := DecodeScalar(b).value.width;
    if width == 1 {
      assert b[..1] == [b[0]];
    } else if width == 2 {
      TwoBytes(b);
    } else if width == 3 {
      ThreeBytes(b);
    } else {
      FourBytes(b);
    }
  }

  lemma {:induction false} DecodeEncode(s: seq<scalar>)
    ensures Decode(Encode(s)) == Some(s)
  {
    if s != [] {
      var tail := Encode(s[1..]);
      DecodeAfterEncodeScalar(s[0], tail);
      assert Encode(s)[Width(s[0])..] == tail;
      DecodeEncode(s[1..]);
      assert [s[0]] + s[1..] == s;
    }
  }

  lemma EncodeCons(c: scalar, rest: seq<scalar>)
    ensures Encode([c] + rest) == EncodeScalar(c) + Encode(rest)
  {
    assert ([c] + rest)[1..] == rest;
  }

  /** What decoding a string that is not empty is. */
  lemma DecodeCons(b: seq<byte>)
    requires b != [] && Decode(b).Some?
    ensures DecodeScalar(b).Some?
    ensures var lead := DecodeScalar(b).value;
      Decode(b[lead.width..]).Some? && Decode(b).value == [lead.scalar] + Decode(b[lead.width..]).value
  {}

  lemma {:induction false} EncodeDecode(b: seq<byte>)
    requires Decode(b).Some?
    ensures Encode(Decode(b).value) == b
    decreases |b|
  {
    if b != [] {
      DecodeCons(b);
      var lead := DecodeScalar(b).value;
      EncodeAfterDecodeScalar(b);
      EncodeDecode(b[lead.width..]);
      EncodeCons(lead.scalar, Decode(b[lead.width..]).value);
      assert b == b[..lead.width] + b[lead.width..];
    }
  }
}
