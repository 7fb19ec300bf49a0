/** Which types and values round trip, and why encodings can be told apart in a stream. */
module WireFraming {
  import opened Basics
  import opened Utf8
  import opened BigEndian
  import opened WireFormat
  import opened WireTheorems

  /** Types whose values take no bytes: the unit, and structs of nothing else. */
  predicate ZeroWidth(ty: WTy) {
    ty.UnitT? || (ty.TupleT? && forall e | e in ty.elems :: ZeroWidth(e))
  }

  /** No list, at any depth, of values that take no bytes. */
  predicate NoEmptyElements(ty: WTy) {
    match ty
    case ListT(elem) => !ZeroWidth(elem) && NoEmptyElements(elem)
    case OptT(inner) => NoEmptyElements(inner)
    case TupleT(elems) => forall e | e in elems :: NoEmptyElements(e)
    case UnionT(arms) => forall a | a in arms :: NoEmptyElements(a)
    case _ => true
  }

  /** Every string and list is shorter than its four-byte prefix can say. */
  ghost predicate Short(ty: WTy, v: WVal)
    requires HasForm(ty, v)
    decreases ty, 1, 0
  {
    match ty
    case StrT => |Utf8.Encode(v.s)| < TWO32
    case ListT(elem) => |v.vals| < TWO32 && AllShort(ty, Repeat(elem, |v.vals|), v.vals)
    case OptT(inner) => v.SomeV? ==> Short(inner, v.some)
    case TupleT(elems) => AllShort(ty, elems, v.vals)
    case UnionT(arms) => Short(arms[v.arm], v.payload)
    case _ => true
  }

  ghost predicate AllShort(owner: WTy, tys: seq<WTy>, vs: seq<WVal>)
    requires (forall i :: 0 <= i < |tys| ==> tys[i] < owner) && HaveForm(owner, tys, vs)
    decreases owner, 0, |tys|
  {
    tys == [] || (Short(tys[0], vs[0]) && AllShort(owner, tys[1..], vs[1..]))
  }

  /** The list counts of a value, added up. */
  ghost function Counts(ty: WTy, v: WVal): nat
    requires HasForm(ty, v)
    decreases ty, 1, 0
  {
    match ty
    case ListT(elem) => |v.vals| + SumCounts(ty, Repeat(elem, |v.vals|), v.vals)
    case OptT(inner) => if v.SomeV? then Counts(inner, v.some) else 0
    case TupleT(elems) => SumCounts(ty, elems, v.vals)
    case UnionT(arms) => Counts(arms[v.arm], v.payload)
    case _ => 0
  }

  ghost function SumCounts(owner: WTy, tys: seq<WTy>, vs: seq<WVal>): nat
    requires (forall i :: 0 <= i < |tys| ==> tys[i] < owner) && HaveForm(owner, tys, vs)
    decreases owner, 0, |tys|
  {
    if tys == [] then 0 else Counts(tys[0], vs[0]) + SumCounts(owner, tys[1..], vs[1..])
  }

  // ---- types that always round trip

  lemma {:induction false} BytesOf(ty: WTy, v: WVal)
    requires HasForm(ty, v)
    ensures EncodeVal(ty, v) == [] <==> ZeroWidth(ty)
    decreases ty, 1, 0
  {
    if ty.TupleT? {
      BytesOfSeq(ty, ty.elems, v.vals);
      assert forall e :: e in ty.elems <==> exists i :: 0 <= i < |ty.elems| && ty.elems[i] == e;
    }
  }

  lemma {:induction false} BytesOfSeq(owner: WTy, tys: seq<WTy>, vs: seq<WVal>)
    requires (forall i :: 0 <= i < |tys| ==> tys[i] < owner) && HaveForm(owner, tys, vs)
    ensures EncodeSeq(owner, tys, vs) == [] <==> forall i :: 0 <= i < |tys| ==> ZeroWidth(tys[i])
    ensures (forall i :: 0 <= i < |tys| ==> !ZeroWidth(tys[i])) ==> |tys| <= |EncodeSeq(owner, tys, vs)|
    decreases owner, 0, |tys|
  {
    if tys != [] {
      BytesOf(tys[0], vs[0]);
      BytesOfSeq(owner, tys[1..], vs[1..]);
      assert forall i :: 0 < i < |tys| ==> tys[i] == tys[1..][i - 1];
    }
  }

  lemma {:induction false} ShortFits(ty: WTy, v: WVal, k: nat)
    requires HasForm(ty, v) && Short(ty, v) && NoEmptyElements(ty)
    ensures Fits(ty, v, k)
    decreases ty, 1, 0
  {
    match ty
    case ListT(elem) =>
      var tys := Repeat(elem, |v.vals|);
      BytesOfSeq(ty, tys, v.vals);
      ShortFitSeq(ty, tys, v.vals, k);
    case OptT(inner) => if v.SomeV? { ShortFits(inner, v.some, k); }
    case TupleT(elems) => ShortFitSeq(ty, elems, v.vals, k);
    case UnionT(arms) => ShortFits(arms[v.arm], v.payload, k);
    case _ =>
  }

  lemma {:induction false} ShortFitSeq(owner: WTy, tys: seq<WTy>, vs: seq<WVal>, k: nat)
    requires (forall i :: 0 <= i < |tys| ==> tys[i] < owner) && HaveForm(owner, tys, vs)
    requires AllShort(owner, tys, vs) && forall i :: 0 <= i < |tys| ==> NoEmptyElements(tys[i])
    ensures FitSeq(owner, tys, vs, k)
    decreases owner, 0, |tys|
  {
    if tys != [] {
      ShortFits(tys[0], vs[0], |EncodeSeq(owner, tys[1..], vs[1..])| + k);
      ShortFitSeq(owner, tys[1..], vs[1..], k);
    }
  }

  /** A type without lists of empty elements round trips, whatever follows the value. */
  lemma RoundTripsWithContinuation(ty: WTy, v: WVal, rest: seq<byte>)
    requires HasForm(ty, v) && Short(ty, v) && NoEmptyElements(ty)
    ensures DecodeVal(ty, EncodeVal(ty, v) + rest) == Some(Parsed(v, rest))
  {
    ShortFits(ty, v, |rest|);
    DecodeEncodeFits(ty, v, rest);
  }

  // ---- the types that do not

  function Units(n: nat): WVal {
    SeqV(seq(n, i => UnitV))
  }

  lemma {:induction false} UnitsHaveForm(owner: WTy, n: nat)
    requires UnitT < owner
    ensures HaveForm(owner, Repeat(UnitT, n), Units(n).vals) && EncodeSeq(owner, Repeat(UnitT, n), Units(n).vals) == []
    decreases n
  {
    if n > 0 {
      assert Repeat(UnitT, n)[1..] == Repeat(UnitT, n - 1);
      assert Units(n).vals[1..] == Units(n - 1).vals;
      UnitsHaveForm(owner, n - 1);
    }
  }

  /** A list of nothing but units says a count its frame cannot cover: only the empty one decodes. */
  lemma UnitListsDoNotRoundTrip(n: nat)
    requires n < TWO32
    ensures HasForm(ListT(UnitT), Units(n))
    ensures SalvoDecode(ListT(UnitT), SalvoEncode(ListT(UnitT), Units(n))) == Some(Units(n)) <==> n == 0
  {
    var ty := ListT(UnitT);
    UnitsHaveForm(ty, n);
    FrameRoundTrips(ty, Units(n));
    if n == 0 { assert FitSeq(ty, Repeat(UnitT, 0), [], 0); }
  }

  // ---- telling encodings apart

  lemma {:induction false} PaddedFits(ty: WTy, v: WVal, k: nat)
    requires HasForm(ty, v) && Short(ty, v) && Counts(ty, v) <= k
    ensures Fits(ty, v, k)
    decreases ty, 1, 0
  {
    match ty
    case ListT(elem) => PaddedFitSeq(ty, Repeat(elem, |v.vals|), v.vals, k);
    case OptT(inner) => if v.SomeV? { PaddedFits(inner, v.some, k); }
    case TupleT(elems) => PaddedFitSeq(ty, elems, v.vals, k);
    case UnionT(arms) => PaddedFits(arms[v.arm], v.payload, k);
    case _ =>
  }

  lemma {:induction false} PaddedFitSeq(owner: WTy, tys: seq<WTy>, vs: seq<WVal>, k: nat)
    requires (forall i :: 0 <= i < |tys| ==> tys[i] < owner) && HaveForm(owner, tys, vs)
    requires AllShort(owner, tys, vs) && SumCounts(owner, tys, vs) <= k
    ensures FitSeq(owner, tys, vs, k)
    decreases owner, 0, |tys|
  {
    if tys != [] {
      PaddedFits(tys[0], vs[0], |EncodeSeq(owner, tys[1..], vs[1..])| + k);
      PaddedFitSeq(owner, tys[1..], vs[1..], k);
    }
  }

  lemma PaddedDecodes(ty: WTy, v: WVal, r: seq<byte>, pad: seq<byte>)
    requires HasForm(ty, v) && Short(ty, v) && Counts(ty, v) <= |pad|
    ensures DecodeVal(ty, EncodeVal(ty, v) + r + pad) == Some(Parsed(v, r + pad))
  {
    PaddedFits(ty, v, |r + pad|);
    DecodeEncodeFits(ty, v, r + pad);
    Regrouped(EncodeVal(ty, v), r, pad);
  }

  /** Encodings of one type are prefix-free, lists of empty elements included: what a stream
      starts with settles the value and where it ends. */
  lemma EncodingsArePrefixFree(ty: WTy, v: WVal, w: WVal, r: seq<byte>, s: seq<byte>)
    requires HasForm(ty, v) && Short(ty, v) && HasForm(ty, w) && Short(ty, w)
    requires EncodeVal(ty, v) + r == EncodeVal(ty, w) + s
    ensures v == w && r == s
  {
    var pad: seq<byte> := seq(Counts(ty, v) + Counts(ty, w), i => 0);
    PaddedDecodes(ty, v, r, pad);
    PaddedDecodes(ty, w, s, pad);
    assert r == (r + pad)[..|r|] && s == (s + pad)[..|s|];
  }
}
