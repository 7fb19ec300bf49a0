/** The canonical encoding: a value's bytes, and the decoder that accepts exactly them. */
module WireFormat {
  import opened Basics
  import opened Utf8
  import opened BigEndian

  /** A type with a wire form. A struct is the tuple of its fields; `Bytes` is a list of bytes. */
  datatype WTy =
    | BoolT | ByteT | IntT | LongT | FloatT | DoubleT | CharT | StrT | UnitT
    | ListT(elem: WTy)
    | OptT(inner: WTy)
    | TupleT(elems: seq<WTy>)
    | UnionT(arms: seq<WTy>)

  /** A float is its bit pattern. */
  datatype WVal =
    | BoolV(b: bool)
    | NumV(n: int)
    | CharV(c: scalar)
    | StrV(s: seq<scalar>)
    | UnitV
    | NoneV
    | SomeV(some: WVal)
    | SeqV(vals: seq<WVal>)
    | UnionV(arm: nat, payload: WVal)

  /** The element types of a list of `n`. */
  function Repeat(t: WTy, n: nat): (ts: seq<WTy>)
    ensures |ts| == n && forall i :: 0 <= i < n ==> ts[i] == t
  {
    seq(n, i => t)
  }

  /** Bytes of the fixed-width types. */
  function FixedWidth(ty: WTy): nat {
    match ty
    case BoolT => 1
    case ByteT => 1
    case IntT => 4
    case FloatT => 4
    case CharT => 4
    case LongT => 8
    case DoubleT => 8
    case _ => 0
  }

  predicate IsFixed(ty: WTy) {
    FixedWidth(ty) > 0
  }

  // ---- values of a type

  ghost predicate HasForm(ty: WTy, v: WVal)
    decreases ty, 1, 0
  {
    match ty
    case BoolT => v.BoolV?
    case ByteT => v.NumV? && 0 <= v.n < 0x100
    case IntT => v.NumV? && -TWO32 <= 2 * v.n < TWO32
    case LongT => v.NumV? && -TWO64 <= 2 * v.n < TWO64
    case FloatT => v.NumV? && 0 <= v.n < TWO32
    case DoubleT => v.NumV? && 0 <= v.n < TWO64
    case CharT => v.CharV?
    case StrT => v.StrV?
    case UnitT => v.UnitV?
    case ListT(elem) => v.SeqV? && HaveForm(ty, Repeat(elem, |v.vals|), v.vals)
    case OptT(inner) => v.NoneV? || (v.SomeV? && HasForm(inner, v.some))
    case TupleT(elems) => v.SeqV? && HaveForm(ty, elems, v.vals)
    case UnionT(arms) => v.UnionV? && v.arm < |arms| && v.arm < 0x100 && HasForm(arms[v.arm], v.payload)
  }

  ghost predicate HaveForm(owner: WTy, tys: seq<WTy>, vs: seq<WVal>)
    requires forall i :: 0 <= i < |tys| ==> tys[i] < owner
    decreases owner, 0, |tys|
  {
    |tys| == |vs| && (tys == [] || (HasForm(tys[0], vs[0]) && HaveForm(owner, tys[1..], vs[1..])))
  }

  // ---- encoding

  /** The bits of a fixed-width value, as an unsigned number. */
  function BitsOf(ty: WTy, v: WVal): nat
    requires IsFixed(ty) && HasForm(ty, v)
  {
    match ty
    case BoolT => if v.b then 1 else 0
    case ByteT => v.n
    case IntT => ToUnsigned(v.n, TWO32)
    case LongT => ToUnsigned(v.n, TWO64)
    case FloatT => v.n
    case DoubleT => v.n
    case CharT => v.c
  }

  function EncodeVal(ty: WTy, v: WVal): seq<byte>
    requires HasForm(ty, v)
    decreases ty, 1, 0
  {
    match ty
    case StrT => Be(|Utf8.Encode(v.s)| % TWO32, 4) + Utf8.Encode(v.s)
    case UnitT => []
    case ListT(elem) => Be(|v.vals| % TWO32, 4) + EncodeSeq(ty, Repeat(elem, |v.vals|), v.vals)
    case OptT(inner) => if v.NoneV? then [0] else [1] + EncodeVal(inner, v.some)
    case TupleT(elems) => EncodeSeq(ty, elems, v.vals)
    case UnionT(arms) => [v.arm] + EncodeVal(arms[v.arm], v.payload)
    case _ => Be(BitsOf(ty, v), FixedWidth(ty))
  }

  function EncodeSeq(ghost owner: WTy, tys: seq<WTy>, vs: seq<WVal>): seq<byte>
    requires (forall i :: 0 <= i < |tys| ==> tys[i] < owner) && HaveForm(owner, tys, vs)
    decreases owner, 0, |tys|
  {
    if tys == [] then [] else EncodeVal(tys[0], vs[0]) + EncodeSeq(owner, tys[1..], vs[1..])
  }

  // ---- decoding

  datatype Parsed<+T> = Parsed(val: T, rest: seq<byte>)

  /** The value of a fixed-width type with these bits, if it has one. */
  function OfBits(ty: WTy, u: nat): Option<WVal>
    requires IsFixed(ty) && u < Pow256(FixedWidth(ty))
  {
    Pow256At4And8();
    match ty
    case BoolT => if u == 0 then Some(BoolV(false)) else if u == 1 then Some(BoolV(true)) else None
    case ByteT => Some(NumV(u))
    case IntT => Some(NumV(ToSigned(u, TWO32)))
    case LongT => Some(NumV(ToSigned(u, TWO64)))
    case FloatT => Some(NumV(u))
    case DoubleT => Some(NumV(u))
    case CharT => if IsScalarValue(u) then Some(CharV(u)) else None
  }

  function Take(b: seq<byte>, n: nat): Option<Parsed<seq<byte>>> {
    if n > |b| then None else Some(Parsed(b[..n], b[n..]))
  }

  function U8(b: seq<byte>): Option<Parsed<byte>> {
    if b == [] then None else Some(Parsed(b[0], b[1..]))
  }

  /** A length prefix, bounded by what is left. */
  function Len(b: seq<byte>): (r: Option<Parsed<nat>>)
    ensures r.Some? ==> r.value.val <= |r.value.rest|
  {
    var p :- Take(b, 4);
    var n := FromBe(p.val);
    if n > |p.rest| then None else Some(Parsed(n, p.rest))
  }

  function DecodeVal(ty: WTy, b: seq<byte>): Option<Parsed<WVal>>
    decreases ty, 1, 0
  {
    match ty
    case StrT =>
      var n :- Len(b);
      var p :- Take(n.rest, n.val);
      var s :- Utf8.Decode(p.val);
      Some(Parsed(StrV(s), p.rest))
    case UnitT => Some(Parsed(UnitV, b))
    case ListT(elem) =>
      var n :- Len(b);
      var p :- DecodeSeq(ty, Repeat(elem, n.val), n.rest);
      Some(Parsed(SeqV(p.val), p.rest))
    case OptT(inner) =>
      var tag :- U8(b);
      if tag.val == 0 then Some(Parsed(NoneV, tag.rest))
      else if tag.val == 1 then
        var p :- DecodeVal(inner, tag.rest);
        Some(Parsed(SomeV(p.val), p.rest))
      else None
    case TupleT(elems) =>
      var p :- DecodeSeq(ty, elems, b);
      Some(Parsed(SeqV(p.val), p.rest))
    case UnionT(arms) =>
      var tag :- U8(b);
      if tag.val < |arms| then
        var p :- DecodeVal(arms[tag.val], tag.rest);
        Some(Parsed(UnionV(tag.val, p.val), p.rest))
      else None
    case _ =>
      var p :- Take(b, FixedWidth(ty));
      var v :- OfBits(ty, FromBe(p.val));
      Some(Parsed(v, p.rest))
  }

  function DecodeSeq(ghost owner: WTy, tys: seq<WTy>, b: seq<byte>): Option<Parsed<seq<WVal>>>
    requires forall i :: 0 <= i < |tys| ==> tys[i] < owner
    decreases owner, 0, |tys|
  {
    if tys == [] then Some(Parsed([], b))
    else
      var head :- DecodeVal(tys[0], b);
      var tail :- DecodeSeq(owner, tys[1..], head.rest);
      Some(Parsed([head.val] + tail.val, tail.rest))
  }

  // ---- frames

  function SalvoEncode(ty: WTy, v: WVal): seq<byte>
    requires HasForm(ty, v)
  {
    EncodeVal(ty, v)
  }

  /** `None` on a malformed input, trailing bytes included. */
  function SalvoDecode(ty: WTy, b: seq<byte>): Option<WVal> {
    var p :- DecodeVal(ty, b);
    if p.rest == [] then Some(p.val) else None
  }
}
