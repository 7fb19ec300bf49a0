/** The encoding and the decoder are inverse to each other, exactly. */
module WireTheorems {
  import opened Basics
  import opened Utf8
  import opened BigEndian
  import opened WireFormat

  /** Whether every length prefix in the encoding of `v`, followed by `k` bytes, can be read back:
      it fits its four bytes, and a list's count is at most the bytes that come after it. */
  ghost predicate Fits(ty: WTy, v: WVal, k: nat)
    requires HasForm(ty, v)
    decreases ty, 1, 0
  {
    match ty
    case StrT => |Utf8.Encode(v.s)| < TWO32
    case ListT(elem) =>
      var tys := Repeat(elem, |v.vals|);
      |v.vals| < TWO32 && |v.vals| <= |EncodeSeq(ty, tys, v.vals)| + k && FitSeq(ty, tys, v.vals, k)
    case OptT(inner) => v.SomeV? ==> Fits(inner, v.some, k)
    case TupleT(elems) => FitSeq(ty, elems, v.vals, k)
    case UnionT(arms) => Fits(arms[v.arm], v.payload, k)
    case _ => true
  }

  ghost predicate FitSeq(owner: WTy, tys: seq<WTy>, vs: seq<WVal>, k: nat)
    requires (forall i :: 0 <= i < |tys| ==> tys[i] < owner) && HaveForm(owner, tys, vs)
    decreases owner, 0, |tys|
  {
    tys == [] ||
    (Fits(tys[0], vs[0], |EncodeSeq(owner, tys[1..], vs[1..])| + k) && FitSeq(owner, tys[1..], vs[1..], k))
  }

  // ---- the fixed-width types

  lemma OfBitsOf(ty: WTy, v: WVal)
    requires IsFixed(ty) && HasForm(ty, v)
    ensures BitsOf(ty, v) < Pow256(FixedWidth(ty))
    ensures OfBits(ty, BitsOf(ty, v)) == Some(v)
  {
    Pow256At4And8();
    assert Pow256(1) == 0x100;
  }

  lemma BitsOfOf(ty: WTy, u: nat)
    requires IsFixed(ty) && u < Pow256(FixedWidth(ty)) && OfBits(ty, u).Some?
    ensures HasForm(ty, OfBits(ty, u).value) && BitsOf(ty, OfBits(ty, u).value) == u
  {
    Pow256At4And8();
    assert Pow256(1) == 0x100;
  }

  lemma FixedDecodeEncode(ty: WTy, v: WVal, rest: seq<byte>)
    requires IsFixed(ty) && HasForm(ty, v)
    ensures DecodeVal(ty, EncodeVal(ty, v) + rest) == Some(Parsed(v, rest))
  {
    FixedWritten(ty, v);
    FixedRead(ty, EncodeVal(ty, v), rest);
  }

  lemma FixedWritten(ty: WTy, v: WVal)
    requires IsFixed(ty) && HasForm(ty, v)
    ensures |EncodeVal(ty, v)| == FixedWidth(ty) && OfBits(ty, FromBe(EncodeVal(ty, v))) == Some(v)
  {
    OfBitsOf(ty, v);
    FromBeBe(BitsOf(ty, v), FixedWidth(ty));
  }

  lemma FixedRead(ty: WTy, e: seq<byte>, rest: seq<byte>)
    requires IsFixed(ty) && |e| == FixedWidth(ty) && OfBits(ty, FromBe(e)).Some?
    ensures DecodeVal(ty, e + rest) == Some(Parsed(OfBits(ty, FromBe(e)).value, rest))
  {
    assert (e + rest)[..|e|] == e && (e + rest)[|e|..] == rest;
    assert Take(e + rest, |e|) == Some(Parsed(e, rest));
  }

  /** What decoding a fixed-width type is. */
  lemma FixedDecodes(ty: WTy, b: seq<byte>)
    requires IsFixed(ty) && DecodeVal(ty, b).Some?
    ensures var w := FixedWidth(ty);
      && w <= |b| && OfBits(ty, FromBe(b[..w])).Some?
      && DecodeVal(ty, b) == Some(Parsed(OfBits(ty, FromBe(b[..w])).value, b[w..]))
  {
    assert Take(b, FixedWidth(ty)).Some?;
  }

  /** The bytes a fixed-width value was read from are its encoding. */
  lemma FixedRebuilt(ty: WTy, e: seq<byte>)
    requires IsFixed(ty) && |e| == FixedWidth(ty) && OfBits(ty, FromBe(e)).Some?
    ensures HasForm(ty, OfBits(ty, FromBe(e)).value) && EncodeVal(ty, OfBits(ty, FromBe(e)).value) == e
  {
    BitsOfOf(ty, FromBe(e));
    BeFromBe(e);
  }

  lemma FixedEncodeDecode(ty: WTy, b: seq<byte>)
    requires IsFixed(ty) && DecodeVal(ty, b).Some?
    ensures var p := DecodeVal(ty, b).value; HasForm(ty, p.val) && b == EncodeVal(ty, p.val) + p.rest
  {
    FixedDecodes(ty, b);
    FixedRebuilt(ty, b[..FixedWidth(ty)]);
    Halves(b, FixedWidth(ty));
  }

  lemma Halves(b: seq<byte>, w: nat)
    requires w <= |b|
    ensures b == b[..w] + b[w..]
  {}

  // ---- length prefixes

  lemma LenOfPrefix(n: nat, rest: seq<byte>)
    ensures Len(Be(n % TWO32, 4) + rest) ==
      (var m: nat := n % TWO32; if m > |rest| then None else Some(Parsed(m, rest)))
  {
    var e := Be(n % TWO32, 4);
    assert (e + rest)[..4] == e && (e + rest)[4..] == rest;
    Pow256At4And8();
    FromBeBe(n % TWO32, 4);
  }

  /** A prefixed run of bytes, with more after it: its length is read, then it, then the rest. */
  lemma LenOfFrame(n: nat, e: seq<byte>, rest: seq<byte>)
    requires n < TWO32 && n <= |e + rest|
    ensures Len(Be(n % TWO32, 4) + e + rest) == Some(Parsed(n, e + rest))
    ensures (e + rest)[..|e|] == e && (e + rest)[|e|..] == rest
  {
    assert n % TWO32 == n;
    assert Be(n, 4) + e + rest == Be(n, 4) + (e + rest);
    LenOfPrefix(n, e + rest);
  }

  lemma LenIs(b: seq<byte>)
    requires Len(b).Some?
    ensures |b| >= 4 && Len(b) == Some(Parsed(FromBe(b[..4]), b[4..]))
  {
    assert Take(b, 4).Some?;
  }

  /** Four bytes are the prefix of the length they spell. */
  lemma PrefixRebuilt(e: seq<byte>)
    requires |e| == 4
    ensures FromBe(e) < TWO32 && Be(FromBe(e) % TWO32, 4) == e
  {
    var n := FromBe(e);
    assert n % TWO32 == n;
    BeFromBe(e);
  }

  lemma PrefixOfLen(b: seq<byte>)
    requires Len(b).Some?
    ensures var n := Len(b).value; n.val < TWO32 && b == Be(n.val % TWO32, 4) + n.rest
  {
    LenIs(b);
    PrefixRebuilt(b[..4]);
    Halves(b, 4);
  }

  // ---- decoding an encoding

  lemma StrDecodes(b: seq<byte>, n: Parsed<nat>, s: seq<scalar>)
    requires Len(b) == Some(n) && Utf8.Decode(n.rest[..n.val]) == Some(s)
    ensures DecodeVal(StrT, b) == Some(Parsed(StrV(s), n.rest[n.val..]))
  {
  }

  lemma StrDecodeEncode(v: WVal, rest: seq<byte>)
    requires v.StrV? && Fits(StrT, v, |rest|)
    ensures DecodeVal(StrT, EncodeVal(StrT, v) + rest) == Some(Parsed(v, rest))
  {
    var e := Utf8.Encode(v.s);
    LenOfFrame(|e|, e, rest);
    DecodeEncode(v.s);
    StrDecodes(EncodeVal(StrT, v) + rest, Parsed(|e|, e + rest), v.s);
  }

  lemma ListDecodes(ty: WTy, b: seq<byte>, n: Parsed<nat>, p: Parsed<seq<WVal>>)
    requires ty.ListT? && Len(b) == Some(n) && DecodeSeq(ty, Repeat(ty.elem, n.val), n.rest) == Some(p)
    ensures DecodeVal(ty, b) == Some(Parsed(SeqV(p.val), p.rest))
  {
  }

  lemma ListDecodeEncode(ty: WTy, v: WVal, rest: seq<byte>)
    requires ty.ListT? && HasForm(ty, v) && Fits(ty, v, |rest|)
    ensures DecodeVal(ty, EncodeVal(ty, v) + rest) == Some(Parsed(v, rest))
    decreases ty, 1, 0
  {
    var tys := Repeat(ty.elem, |v.vals|);
    var e := EncodeSeq(ty, tys, v.vals);
    LenOfFrame(|v.vals|, e, rest);
    DecodeEncodeSeqFits(ty, tys, v.vals, rest);
    ListDecodes(ty, EncodeVal(ty, v) + rest, Parsed(|v.vals|, e + rest), Parsed(v.vals, rest));
  }

  lemma OptDecodeEncode(ty: WTy, v: WVal, rest: seq<byte>)
    requires ty.OptT? && HasForm(ty, v) && Fits(ty, v, |rest|)
    ensures DecodeVal(ty, EncodeVal(ty, v) + rest) == Some(Parsed(v, rest))
    decreases ty, 1, 0
  {
    if v.NoneV? {
      assert ([0] + rest)[1..] == rest;
    } else {
      var e := EncodeVal(ty.inner, v.some);
      assert EncodeVal(ty, v) + rest == [1] + (e + rest);
      DecodeEncodeFits(ty.inner, v.some, rest);
    }
  }

  lemma UnionDecodeEncode(ty: WTy, v: WVal, rest: seq<byte>)
    requires ty.UnionT? && HasForm(ty, v) && Fits(ty, v, |rest|)
    ensures DecodeVal(ty, EncodeVal(ty, v) + rest) == Some(Parsed(v, rest))
    decreases ty, 1, 0
  {
    var e := EncodeVal(ty.arms[v.arm], v.payload);
    assert EncodeVal(ty, v) + rest == [v.arm] + (e + rest);
    DecodeEncodeFits(ty.arms[v.arm], v.payload, rest);
  }

  lemma {:induction false} DecodeEncodeFits(ty: WTy, v: WVal, rest: seq<byte>)
    requires HasForm(ty, v) && Fits(ty, v, |rest|)
    ensures DecodeVal(ty, EncodeVal(ty, v) + rest) == Some(Parsed(v, rest))
    decreases ty, 2, 0
  {
    match ty
    case StrT => StrDecodeEncode(v, rest);
    case UnitT => assert EncodeVal(ty, v) + rest == rest;
    case ListT(_) => ListDecodeEncode(ty, v, rest);
    case OptT(_) => OptDecodeEncode(ty, v, rest);
    case TupleT(elems) => DecodeEncodeSeqFits(ty, elems, v.vals, rest);
    case UnionT(_) => UnionDecodeEncode(ty, v, rest);
    case _ => FixedDecodeEncode(ty, v, rest);
  }

  lemma {:induction false} DecodeEncodeSeqFits(owner: WTy, tys: seq<WTy>, vs: seq<WVal>, rest: seq<byte>)
    requires (forall i :: 0 <= i < |tys| ==> tys[i] < owner) && HaveForm(owner, tys, vs)
    requires FitSeq(owner, tys, vs, |rest|)
    ensures DecodeSeq(owner, tys, EncodeSeq(owner, tys, vs) + rest) == Some(Parsed(vs, rest))
    decreases owner, 0, |tys|
  {
    if tys == [] {
      assert EncodeSeq(owner, tys, vs) + rest == rest;
    } else {
      var head, tail := EncodeVal(tys[0], vs[0]), EncodeSeq(owner, tys[1..], vs[1..]);
      assert EncodeSeq(owner, tys, vs) + rest == head + (tail + rest);
      DecodeEncodeFits(tys[0], vs[0], tail + rest);
      DecodeEncodeSeqFits(owner, tys[1..], vs[1..], rest);
      assert [vs[0]] + vs[1..] == vs;
    }
  }

  // ---- encoding a decoding

  /** `p` is what encoding answers for: `b` is `p`'s value's encoding, and then `p.rest`. */
  ghost predicate Explains(ty: WTy, b: seq<byte>, p: Parsed<WVal>) {
    HasForm(ty, p.val) && Fits(ty, p.val, |p.rest|) && b == EncodeVal(ty, p.val) + p.rest
  }

  ghost predicate ExplainSeq(owner: WTy, tys: seq<WTy>, b: seq<byte>, p: Parsed<seq<WVal>>)
    requires forall i :: 0 <= i < |tys| ==> tys[i] < owner
  {
    HaveForm(owner, tys, p.val) && FitSeq(owner, tys, p.val, |p.rest|) && b == EncodeSeq(owner, tys, p.val) + p.rest
  }

  lemma StrIs(b: seq<byte>)
    requires DecodeVal(StrT, b).Some?
    ensures Len(b).Some? && Len(b).value.val <= |Len(b).value.rest|
    ensures var n := Len(b).value;
      var s := Utf8.Decode(n.rest[..n.val]);
      s.Some? && DecodeVal(StrT, b) == Some(Parsed(StrV(s.value), n.rest[n.val..]))
  {}

  lemma StrEncodeDecode(b: seq<byte>)
    requires DecodeVal(StrT, b).Some?
    ensures Explains(StrT, b, DecodeVal(StrT, b).value)
  {
    StrIs(b);
    var n := Len(b).value;
    PrefixOfLen(b);
    EncodeDecode(n.rest[..n.val]);
    Halves(n.rest, n.val);
    Regrouped(Be(n.val % TWO32, 4), n.rest[..n.val], n.rest[n.val..]);
  }

  lemma Regrouped(e: seq<byte>, r: seq<byte>, pad: seq<byte>)
    ensures e + (r + pad) == e + r + pad
  {}

  lemma ListEncodeDecode(ty: WTy, b: seq<byte>)
    requires ty.ListT? && DecodeVal(ty, b).Some?
    ensures Explains(ty, b, DecodeVal(ty, b).value)
    decreases ty, 1, 0
  {
    var p := DecodeVal(ty, b).value;
    var n := Len(b).value;
    var tys := Repeat(ty.elem, n.val);
    PrefixOfLen(b);
    EncodeDecodeSeq(ty, tys, n.rest);
    HaveFormLength(ty, tys, p.val.vals);
    var e := EncodeSeq(ty, tys, p.val.vals);
    assert Repeat(ty.elem, |p.val.vals|) == tys;
    assert |n.rest| == |e| + |p.rest|;
    assert b == Be(n.val % TWO32, 4) + (e + p.rest);
  }

  lemma HaveFormLength(owner: WTy, tys: seq<WTy>, vs: seq<WVal>)
    requires (forall i :: 0 <= i < |tys| ==> tys[i] < owner) && HaveForm(owner, tys, vs)
    ensures |tys| == |vs|
  {
  }

  lemma OptEncodeDecode(ty: WTy, b: seq<byte>)
    requires ty.OptT? && DecodeVal(ty, b).Some?
    ensures Explains(ty, b, DecodeVal(ty, b).value)
    decreases ty, 1, 0
  {
    var p := DecodeVal(ty, b).value;
    assert b == [b[0]] + b[1..];
    if b[0] == 1 {
      EncodeDecodeVal(ty.inner, b[1..]);
      assert b == [1] + (EncodeVal(ty.inner, p.val.some) + p.rest);
    }
  }

  lemma UnionEncodeDecode(ty: WTy, b: seq<byte>)
    requires ty.UnionT? && DecodeVal(ty, b).Some?
    ensures Explains(ty, b, DecodeVal(ty, b).value)
    decreases ty, 1, 0
  {
    var p := DecodeVal(ty, b).value;
    assert b == [b[0]] + b[1..];
    EncodeDecodeVal(ty.arms[b[0]], b[1..]);
    assert b == [b[0]] + (EncodeVal(ty.arms[b[0]], p.val.payload) + p.rest);
  }

  /** Whatever the decoder accepts is the encoding of what it answers: one value, one input. */
  lemma {:induction false} EncodeDecodeVal(ty: WTy, b: seq<byte>)
    requires DecodeVal(ty, b).Some?
    ensures Explains(ty, b, DecodeVal(ty, b).value)
    decreases ty, 2, 0
  {
    match ty
    case StrT => StrEncodeDecode(b);
    case UnitT => assert EncodeVal(ty, UnitV) + b == b;
    case ListT(_) => ListEncodeDecode(ty, b);
    case OptT(_) => OptEncodeDecode(ty, b);
    case TupleT(elems) => EncodeDecodeSeq(ty, elems, b);
    case UnionT(_) => UnionEncodeDecode(ty, b);
    case _ => FixedEncodeDecode(ty, b);
  }

  lemma ExplainCons(owner: WTy, tys: seq<WTy>, b: seq<byte>, head: Parsed<WVal>, tail: Parsed<seq<WVal>>)
    requires (forall i :: 0 <= i < |tys| ==> tys[i] < owner) && tys != []
    requires ExplainSeq(owner, tys[1..], head.rest, tail)
    requires HasForm(tys[0], head.val) && Fits(tys[0], head.val, |head.rest|) && b == EncodeVal(tys[0], head.val) + head.rest
    ensures ExplainSeq(owner, tys, b, Parsed([head.val] + tail.val, tail.rest))
  {
    var vs := [head.val] + tail.val;
    assert vs[1..] == tail.val;
    assert HaveForm(owner, tys, vs);
    assert b == EncodeVal(tys[0], vs[0]) + (EncodeSeq(owner, tys[1..], vs[1..]) + tail.rest);
  }

  lemma {:induction false} EncodeDecodeSeq(owner: WTy, tys: seq<WTy>, b: seq<byte>)
    requires (forall i :: 0 <= i < |tys| ==> tys[i] < owner) && DecodeSeq(owner, tys, b).Some?
    ensures ExplainSeq(owner, tys, b, DecodeSeq(owner, tys, b).value)
    decreases owner, 0, |tys|
  {
    if tys != [] {
      var head := DecodeVal(tys[0], b).value;
      EncodeDecodeVal(tys[0], b);
      EncodeDecodeSeq(owner, tys[1..], head.rest);
      ExplainCons(owner, tys, b, head, DecodeSeq(owner, tys[1..], head.rest).value);
    } else {
      assert EncodeSeq(owner, tys, []) + b == b;
    }
  }

  // ---- the theorem

  /** The decoder, exactly: it answers `v` and leaves `rest` if and only if its input is the
      encoding of `v` followed by `rest` and every length in it can be read back. */
  lemma DecodesExactlyEncodings(ty: WTy, b: seq<byte>, v: WVal, rest: seq<byte>)
    ensures DecodeVal(ty, b) == Some(Parsed(v, rest)) <==>
      HasForm(ty, v) && Fits(ty, v, |rest|) && b == EncodeVal(ty, v) + rest
  {
    if DecodeVal(ty, b) == Some(Parsed(v, rest)) {
      EncodeDecodeVal(ty, b);
    }
    if HasForm(ty, v) && Fits(ty, v, |rest|) && b == EncodeVal(ty, v) + rest {
      DecodeEncodeFits(ty, v, rest);
    }
  }

  /** A frame round trips if and only if its lengths can be read back. */
  lemma FrameRoundTrips(ty: WTy, v: WVal)
    requires HasForm(ty, v)
    ensures SalvoDecode(ty, SalvoEncode(ty, v)) == Some(v) <==> Fits(ty, v, 0)
  {
    var b := SalvoEncode(ty, v);
    assert b + [] == b;
    DecodesExactlyEncodings(ty, b, v, []);
  }

  /** Canonicity: an accepted frame is the encoding of its value, so no two frames decode alike. */
  lemma FramesAreCanonical(ty: WTy, b: seq<byte>)
    requires SalvoDecode(ty, b).Some?
    ensures HasForm(ty, SalvoDecode(ty, b).value) && SalvoEncode(ty, SalvoDecode(ty, b).value) == b
  {
    EncodeDecodeVal(ty, b);
    var p := DecodeVal(ty, b).value;
    assert EncodeVal(ty, p.val) + [] == EncodeVal(ty, p.val);
  }
}
