/** Which bytes UTF-8 is: the sequences in the words of section 4 of RFC 3629, what they stand for,
    and the order they keep. */
module Utf8Bytes {
  import opened Basics
  import opened Utf8

  predicate Tail(b: byte) {
    0x80 <= b <= 0xBF
  }

  predicate OneByte(c: seq<byte>) {
    |c| == 1 && c[0] <= 0x7F
  }

  predicate TwoBytes(c: seq<byte>) {
    |c| == 2 && 0xC2 <= c[0] <= 0xDF && Tail(c[1])
  }

  predicate ThreeBytes(c: seq<byte>) {
    |c| == 3 && Tail(c[2]) && (
      || (c[0] == 0xE0 && 0xA0 <= c[1] <= 0xBF)
      || (0xE1 <= c[0] <= 0xEC && Tail(c[1]))
      || (c[0] == 0xED && 0x80 <= c[1] <= 0x9F)
      || (0xEE <= c[0] <= 0xEF && Tail(c[1])))
  }

  predicate FourBytes(c: seq<byte>) {
    |c| == 4 && Tail(c[2]) && Tail(c[3]) && (
      || (c[0] == 0xF0 && 0x90 <= c[1] <= 0xBF)
      || (0xF1 <= c[0] <= 0xF3 && Tail(c[1]))
      || (c[0] == 0xF4 && 0x80 <= c[1] <= 0x8F))
  }

  /** One character's bytes. */
  predicate IsChar(c: seq<byte>) {
    OneByte(c) || TwoBytes(c) || ThreeBytes(c) || FourBytes(c)
  }

  /** The bits of a byte behind its mark. */
  function Bits(b: byte, mark: int): (n: int) {
    var n: int := b;
    n - mark
  }

  /** The scalar of one character's bytes: its groups of six bits, the last one lowest. */
  function ScalarOf(c: seq<byte>): (n: int)
    requires IsChar(c)
    ensures IsScalarValue(n)
  {
    if |c| == 1 then c[0]
    else if |c| == 2 then Bits(c[0], 0xC0) * 0x40 + Bits(c[1], 0x80)
    else if |c| == 3 then Bits(c[0], 0xE0) * 0x1000 + Bits(c[1], 0x80) * 0x40 + Bits(c[2], 0x80)
    else Bits(c[0], 0xF0) * 0x4_0000 + Bits(c[1], 0x80) * 0x1000 + Bits(c[2], 0x80) * 0x40 + Bits(c[3], 0x80)
  }

  predicate AreChars(cs: seq<seq<byte>>) {
    forall c | c in cs :: IsChar(c)
  }

  function Concat(cs: seq<seq<byte>>): seq<byte> {
    if cs == [] then [] else cs[0] + Concat(cs[1..])
  }

  function ScalarsOf(cs: seq<seq<byte>>): (s: seq<scalar>)
    requires AreChars(cs)
    ensures |s| == |cs| && forall i :: 0 <= i < |cs| ==> s[i] == ScalarOf(cs[i])
  {
    if cs == [] then [] else [ScalarOf(cs[0])] + ScalarsOf(cs[1..])
  }

  // ---- decoding

  lemma ShortDecoded(c: seq<byte>, rest: seq<byte>)
    requires OneByte(c) || TwoBytes(c)
    ensures DecodeScalar(c + rest) == Some(Lead(ScalarOf(c), |c|))
  {
    assert forall i :: 0 <= i < |c| ==> (c + rest)[i] == c[i];
  }

  lemma ThreeDecoded(c: seq<byte>, rest: seq<byte>)
    requires ThreeBytes(c)
    ensures DecodeScalar(c + rest) == Some(Lead(ScalarOf(c), |c|))
  {
    assert forall i :: 0 <= i < |c| ==> (c + rest)[i] == c[i];
  }

  lemma FourDecoded(c: seq<byte>, rest: seq<byte>)
    requires FourBytes(c)
    ensures DecodeScalar(c + rest) == Some(Lead(ScalarOf(c), |c|))
  {
    assert forall i :: 0 <= i < |c| ==> (c + rest)[i] == c[i];
  }

  lemma CharDecoded(c: seq<byte>, rest: seq<byte>)
    requires IsChar(c)
    ensures DecodeScalar(c + rest) == Some(Lead(ScalarOf(c), |c|))
  {
    if OneByte(c) || TwoBytes(c) { ShortDecoded(c, rest); } else if ThreeBytes(c) { ThreeDecoded(c, rest); } else { FourDecoded(c, rest); }
  }

  lemma DecodedIsChar(b: seq<byte>)
    requires DecodeScalar(b).Some?
    ensures IsChar(b[..DecodeScalar(b).value.width])
  {}

  /** Characters put together decode to their scalars. */
  lemma {:induction false} CharsDecode(cs: seq<seq<byte>>)
    requires AreChars(cs)
    ensures Decode(Concat(cs)) == Some(ScalarsOf(cs))
  {
    if cs != [] {
      var rest := Concat(cs[1..]);
      CharDecoded(cs[0], rest);
      CharsDecode(cs[1..]);
      assert (cs[0] + rest)[|cs[0]|..] == rest;
    }
  }

  lemma {:induction false} DecodedHasChars(b: seq<byte>) returns (cs: seq<seq<byte>>)
    requires Decode(b).Some?
    ensures AreChars(cs) && Concat(cs) == b
    decreases |b|
  {
    if b == [] {
      cs := [];
    } else {
      DecodeCons(b);
      var width := DecodeScalar(b).value.width;
      var rest := DecodedHasChars(b[width..]);
      DecodedIsChar(b);
      cs := [b[..width]] + rest;
      assert cs[1..] == rest && b == b[..width] + b[width..];
    }
  }

  /** Exactly the well-formed sequences are accepted, and each as its characters' scalars. */
  lemma DecodesExactly(b: seq<byte>, s: seq<scalar>)
    ensures Decode(b) == Some(s) <==> exists cs :: AreChars(cs) && Concat(cs) == b && ScalarsOf(cs) == s
  {
    if Decode(b).Some? {
      var cs := DecodedHasChars(b);
      CharsDecode(cs);
    }
    if cs: seq<seq<byte>> :| AreChars(cs) && Concat(cs) == b && ScalarsOf(cs) == s { CharsDecode(cs); }
  }

  /** A string's bytes are its characters', each of which stands for its scalar. */
  lemma EncodesExactly(s: seq<scalar>, b: seq<byte>)
    ensures Encode(s) == b <==> exists cs :: AreChars(cs) && Concat(cs) == b && ScalarsOf(cs) == s
  {
    DecodesExactly(b, s);
    DecodeEncode(s);
    if Decode(b) == Some(s) { EncodeDecode(b); }
  }

  // ---- order

  /** `a` comes before `b` as words do in a dictionary. */
  predicate Before(a: seq<int>, b: seq<int>) {
    b != [] && (a == [] || a[0] < b[0] || (a[0] == b[0] && Before(a[1..], b[1..])))
  }

  lemma {:induction false} BeforeAt(a: seq<int>, b: seq<int>, k: nat)
    requires k < |a| && k < |b| && a[..k] == b[..k] && a[k] < b[k]
    ensures Before(a, b)
  {
    if k > 0 {
      assert a[0] == a[..k][0] == b[..k][0] == b[0];
      assert a[1..][..k - 1] == a[..k][1..] && b[1..][..k - 1] == b[..k][1..];
      BeforeAt(a[1..], b[1..], k - 1);
    }
  }

  lemma {:induction false} BeforeBehind(c: seq<int>, a: seq<int>, b: seq<int>)
    ensures Before(c + a, c + b) <==> Before(a, b)
  {
    if c == [] {
      assert c + a == a && c + b == b;
    } else {
      assert (c + a)[1..] == c[1..] + a && (c + b)[1..] == c[1..] + b;
      BeforeBehind(c[1..], a, b);
    }
  }

  lemma {:induction false} BeforeIsStrict(a: seq<int>, b: seq<int>)
    ensures !(Before(a, b) && Before(b, a))
    ensures Before(a, b) || Before(b, a) || a == b
  {
    if a != [] && b != [] && a[0] == b[0] {
      BeforeIsStrict(a[1..], b[1..]);
      assert a == [a[0]] + a[1..] && b == [b[0]] + b[1..];
    }
  }

  /** Where the bytes of two scalars first differ, the smaller one's is smaller. */
  lemma ScalarsDiffer(c: scalar, d: scalar) returns (k: nat)
    requires c < d
    ensures k < Width(c) && k < Width(d) && EncodeScalar(c)[..k] == EncodeScalar(d)[..k] && EncodeScalar(c)[k] < EncodeScalar(d)[k]
  {
    var a, b := EncodeScalar(c), EncodeScalar(d);
    if a[0] != b[0] {
      k := 0;
    } else if a[1] != b[1] {
      k := 1;
    } else if a[2] != b[2] {
      k := 2;
    } else {
      k := 3;
    }
  }

  lemma FrontsOrdered(c: scalar, d: scalar, a: seq<byte>, b: seq<byte>)
    requires c < d
    ensures Before(EncodeScalar(c) + a, EncodeScalar(d) + b)
  {
    var k := ScalarsDiffer(c, d);
    var x, y := EncodeScalar(c) + a, EncodeScalar(d) + b;
    assert x[..k] == EncodeScalar(c)[..k] && y[..k] == EncodeScalar(d)[..k];
    BeforeAt(x, y, k);
  }

  lemma {:induction false} OrderIsKept(s: seq<scalar>, t: seq<scalar>)
    requires Before(s, t)
    ensures Before(Encode(s), Encode(t))
  {
    if s != [] {
      if s[0] < t[0] {
        FrontsOrdered(s[0], t[0], Encode(s[1..]), Encode(t[1..]));
      } else {
        OrderIsKept(s[1..], t[1..]);
        BeforeBehind(EncodeScalar(s[0]), Encode(s[1..]), Encode(t[1..]));
      }
    }
  }

  /** Strings stand in the order of their bytes. */
  lemma EncodingsAreOrdered(s: seq<scalar>, t: seq<scalar>)
    ensures Before(Encode(s), Encode(t)) <==> Before(s, t)
  {
    BeforeIsStrict(s, t);
    BeforeIsStrict(Encode(s), Encode(t));
    if Before(s, t) { OrderIsKept(s, t); }
    if Before(t, s) { OrderIsKept(t, s); }
  }
}
