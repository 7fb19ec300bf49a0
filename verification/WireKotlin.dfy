/** The Kotlin runtime's codecs, and their agreement with the Rust runtime's. */
module WireKotlin {
  import opened Basics
  import opened Utf8
  import opened BigEndian
  import opened JvmBytes
  import JvmInt
  import opened WireFormat
  import opened WireTheorems

  /** A value as the JVM holds it: a present optional is the value itself, an absent one `null`,
      and a `Char` one UTF-16 unit. */
  datatype KVal =
    | KBool(b: bool)
    | KNum(n: int)
    | KChar(unit: int)
    | KStr(s: seq<scalar>)
    | KUnit
    | KNull
    | KSeq(vals: seq<KVal>)
    | KUnion(arm: nat, payload: KVal)

  // ---- one value on both sides

  /** The JVM's value for a Salvo value. */
  function ToK(v: WVal): KVal {
    match v
    case BoolV(b) => KBool(b)
    case NumV(n) => KNum(n)
    case CharV(c) => KChar(c)
    case StrV(s) => KStr(s)
    case UnitV => KUnit
    case NoneV => KNull
    case SomeV(some) => ToK(some)
    case SeqV(vals) => KSeq(ToKs(vals))
    case UnionV(arm, payload) => KUnion(arm, ToK(payload))
  }

  function ToKs(vs: seq<WVal>): (ks: seq<KVal>)
    ensures |ks| == |vs|
  {
    if vs == [] then [] else [ToK(vs[0])] + ToKs(vs[1..])
  }

  // ---- reading

  function ReadU8(b: seq<byte>): Option<Parsed<byte>> {
    if b == [] then None else Some(Parsed(b[0], b[1..]))
  }

  /** A signed word: what the four shifted bytes of `i32()` add up to. */
  function ReadInt(b: seq<byte>): (r: Option<Parsed<int>>)
    ensures r.Some? ==> JvmInt.Fits(r.value.val, TWO32)
  {
    var p :- Take(b, 4);
    Some(Parsed(ToSigned(FromBe(p.val), TWO32), p.rest))
  }

  /** A signed double word. */
  function ReadLong(b: seq<byte>): (r: Option<Parsed<int>>)
    ensures r.Some? ==> JvmInt.Fits(r.value.val, TWO64)
  {
    var p :- Take(b, 8);
    Some(Parsed(ToSigned(FromBe(p.val), TWO64), p.rest))
  }

  /** A length prefix: a negative one, or one past the end, is an error. */
  function ReadLen(b: seq<byte>): (r: Option<Parsed<nat>>)
    ensures r.Some? ==> r.value.val <= |r.value.rest|
  {
    var n :- ReadInt(b);
    if n.val < 0 || n.val > |n.rest| then None else var len: nat := n.val; Some(Parsed(len, n.rest))
  }

  /** The scalar codecs. */
  function ReadFixed(ty: WTy, b: seq<byte>): Option<Parsed<KVal>>
    requires IsFixed(ty)
  {
    match ty
    case BoolT =>
      var t :- ReadU8(b);
      if t.val == 0 then Some(Parsed(KBool(false), t.rest)) else if t.val == 1 then Some(Parsed(KBool(true), t.rest)) else None
    case ByteT => var n :- ReadU8(b); Some(Parsed(KNum(n.val), n.rest))
    case IntT => var n :- ReadInt(b); Some(Parsed(KNum(n.val), n.rest))
    case FloatT => var n :- ReadInt(b); Some(Parsed(KNum(ToUnsigned(n.val, TWO32)), n.rest))
    case LongT => var n :- ReadLong(b); Some(Parsed(KNum(n.val), n.rest))
    case DoubleT => var n :- ReadLong(b); Some(Parsed(KNum(ToUnsigned(n.val, TWO64)), n.rest))
    case CharT =>
      var n :- ReadInt(b);
      if n.val < 0 || n.val > 0xffff then None else Some(Parsed(KChar(n.val), n.rest))
  }

  function ReadVal(ty: WTy, b: seq<byte>): Option<Parsed<KVal>>
    decreases ty, 1, 0
  {
    match ty
    case StrT =>
      var n :- ReadLen(b);
      var s :- Utf8.Decode(n.rest[..n.val]);
      Some(Parsed(KStr(s), n.rest[n.val..]))
    case UnitT => Some(Parsed(KUnit, b))
    case ListT(elem) =>
      var n :- ReadLen(b);
      var p :- ReadSeq(ty, Repeat(elem, n.val), n.rest);
      Some(Parsed(KSeq(p.val), p.rest))
    case OptT(inner) =>
      var tag :- ReadU8(b);
      if tag.val == 0 then Some(Parsed(KNull, tag.rest)) else if tag.val == 1 then ReadVal(inner, tag.rest) else None
    case TupleT(elems) =>
      var p :- ReadSeq(ty, elems, b);
      Some(Parsed(KSeq(p.val), p.rest))
    case UnionT(arms) =>
      var tag :- ReadU8(b);
      if tag.val < |arms| then
        var p :- ReadVal(arms[tag.val], tag.rest);
        Some(Parsed(KUnion(tag.val, p.val), p.rest))
      else None
    case _ => ReadFixed(ty, b)
  }

  function ReadSeq(ghost owner: WTy, tys: seq<WTy>, b: seq<byte>): Option<Parsed<seq<KVal>>>
    requires forall i :: 0 <= i < |tys| ==> tys[i] < owner
    decreases owner, 0, |tys|
  {
    if tys == [] then Some(Parsed([], b))
    else
      var head :- ReadVal(tys[0], b);
      var tail :- ReadSeq(owner, tys[1..], head.rest);
      Some(Parsed([head.val] + tail.val, tail.rest))
  }

  // ---- agreement of the readers

  function MapK(p: Option<Parsed<WVal>>): Option<Parsed<KVal>> {
    if p.None? then None else Some(Parsed(ToK(p.value.val), p.value.rest))
  }

  function MapKs(p: Option<Parsed<seq<WVal>>>): Option<Parsed<seq<KVal>>> {
    if p.None? then None else Some(Parsed(ToKs(p.value.val), p.value.rest))
  }

  /** `salvoDecodeChecked`: whether the frame decoded, and the value if it did. */
  function DecodeChecked(ty: WTy, b: seq<byte>): (bool, KVal) {
    var p := ReadVal(ty, b);
    if p.Some? && p.value.rest == [] then (true, p.value.val) else (false, KNull)
  }

  /** `salvoDecode`: `null` for a refused frame, and for a frame that decodes to `null`. */
  function KDecode(ty: WTy, b: seq<byte>): KVal {
    DecodeChecked(ty, b).1
  }

  // ---- writing

  ghost predicate KHasForm(ty: WTy, v: KVal)
    decreases ty, 1, 0
  {
    match ty
    case BoolT => v.KBool?
    case ByteT => v.KNum? && 0 <= v.n < 0x100
    case IntT => v.KNum? && JvmInt.Fits(v.n, TWO32)
    case LongT => v.KNum? && JvmInt.Fits(v.n, TWO64)
    case FloatT => v.KNum? && 0 <= v.n < TWO32
    case DoubleT => v.KNum? && 0 <= v.n < TWO64
    case CharT => v.KChar? && 0 <= v.unit < 0x10000
    case StrT => v.KStr? && |Utf8.Encode(v.s)| < 0x8000_0000
    case UnitT => v.KUnit?
    case ListT(elem) => v.KSeq? && |v.vals| < 0x8000_0000 && KHaveForm(ty, Repeat(elem, |v.vals|), v.vals)
    case OptT(inner) => v.KNull? || KHasForm(inner, v)
    case TupleT(elems) => v.KSeq? && KHaveForm(ty, elems, v.vals)
    case UnionT(arms) => v.KUnion? && v.arm < |arms| && v.arm < 0x100 && KHasForm(arms[v.arm], v.payload)
  }

  ghost predicate KHaveForm(owner: WTy, tys: seq<WTy>, vs: seq<KVal>)
    requires forall i :: 0 <= i < |tys| ==> tys[i] < owner
    decreases owner, 0, |tys|
  {
    |tys| == |vs| && (tys == [] || (KHasForm(tys[0], vs[0]) && KHaveForm(owner, tys[1..], vs[1..])))
  }

  /** The bytes of a signed word. */
  function IntBytes(n: int): seq<byte>
    requires JvmInt.Fits(n, TWO32)
  {
    Be(ToUnsigned(n, TWO32), 4)
  }

  function LongBytes(n: int): seq<byte>
    requires JvmInt.Fits(n, TWO64)
  {
    Be(ToUnsigned(n, TWO64), 8)
  }

  function WriteFixed(ty: WTy, v: KVal): seq<byte>
    requires IsFixed(ty) && KHasForm(ty, v)
  {
    match ty
    case BoolT => [if v.b then 1 else 0]
    case ByteT => [v.n]
    case IntT => IntBytes(v.n)
    case LongT => LongBytes(v.n)
    case FloatT => IntBytes(ToSigned(v.n, TWO32))
    case DoubleT => LongBytes(ToSigned(v.n, TWO64))
    case CharT => IntBytes(v.unit)
  }

  function WriteVal(ty: WTy, v: KVal): seq<byte>
    requires KHasForm(ty, v)
    decreases ty, 1, 0
  {
    match ty
    case StrT => IntBytes(|Utf8.Encode(v.s)|) + Utf8.Encode(v.s)
    case UnitT => []
    case ListT(elem) => IntBytes(|v.vals|) + WriteSeq(ty, Repeat(elem, |v.vals|), v.vals)
    case OptT(inner) => if v == KNull then [0] else [1] + WriteVal(inner, v)
    case TupleT(elems) => WriteSeq(ty, elems, v.vals)
    case UnionT(arms) => [v.arm] + WriteVal(arms[v.arm], v.payload)
    case _ => WriteFixed(ty, v)
  }

  function WriteSeq(ghost owner: WTy, tys: seq<WTy>, vs: seq<KVal>): seq<byte>
    requires (forall i :: 0 <= i < |tys| ==> tys[i] < owner) && KHaveForm(owner, tys, vs)
    decreases owner, 0, |tys|
  {
    if tys == [] then [] else WriteVal(tys[0], vs[0]) + WriteSeq(owner, tys[1..], vs[1..])
  }
}
