/** The two backends' writers: the values for which they write the same bytes, exactly. */
module WireAgreement {
  import opened Basics
  import opened Utf8
  import opened BigEndian
  import opened WireFormat
  import opened WireTheorems
  import opened WireKotlin
  import opened WireChars
  import JvmInt

  /** A present optional whose value is `null` on the JVM: an optional of an optional, present
      and holding an absent one. */
  ghost predicate PresentNull(ty: WTy, v: WVal)
    requires HasForm(ty, v)
    decreases ty, 1, 0
  {
    match ty
    case ListT(elem) => SomePresentNull(ty, Repeat(elem, |v.vals|), v.vals)
    case OptT(inner) => v.SomeV? && (ToK(v.some) == KNull || PresentNull(inner, v.some))
    case TupleT(elems) => SomePresentNull(ty, elems, v.vals)
    case UnionT(arms) => PresentNull(arms[v.arm], v.payload)
    case _ => false
  }

  ghost predicate SomePresentNull(owner: WTy, tys: seq<WTy>, vs: seq<WVal>)
    requires (forall i :: 0 <= i < |tys| ==> tys[i] < owner) && HaveForm(owner, tys, vs)
    decreases owner, 0, |tys|
  {
    tys != [] && (PresentNull(tys[0], vs[0]) || SomePresentNull(owner, tys[1..], vs[1..]))
  }

  /** Strings and lists as long as a JVM array can be. */
  ghost predicate JvmSized(ty: WTy, v: WVal)
    requires HasForm(ty, v)
    decreases ty, 1, 0
  {
    match ty
    case StrT => |Utf8.Encode(v.s)| < 0x8000_0000
    case ListT(elem) => |v.vals| < 0x8000_0000 && AllJvmSized(ty, Repeat(elem, |v.vals|), v.vals)
    case OptT(inner) => v.SomeV? ==> JvmSized(inner, v.some)
    case TupleT(elems) => AllJvmSized(ty, elems, v.vals)
    case UnionT(arms) => JvmSized(arms[v.arm], v.payload)
    case _ => true
  }

  ghost predicate AllJvmSized(owner: WTy, tys: seq<WTy>, vs: seq<WVal>)
    requires (forall i :: 0 <= i < |tys| ==> tys[i] < owner) && HaveForm(owner, tys, vs)
    decreases owner, 0, |tys|
  {
    tys == [] || (JvmSized(tys[0], vs[0]) && AllJvmSized(owner, tys[1..], vs[1..]))
  }

  /** Each `Char` of a value is one UTF-16 unit. */
  predicate OneUnitChars(v: WVal) {
    TakesAll(KotlinSide, ToK(v))
  }

  predicate AllOneUnitChars(vs: seq<WVal>) {
    TakesEach(KotlinSide, ToKs(vs))
  }

  /** The JVM holds exactly the values whose `Char`s are one UTF-16 unit each. */
  lemma {:induction false} ToKHasForm(ty: WTy, v: WVal)
    requires HasForm(ty, v) && JvmSized(ty, v)
    ensures KHasForm(ty, ToK(v)) <==> OneUnitChars(v)
    decreases ty, 1, 0
  {
    match ty
    case ListT(elem) => ToKsHaveForm(ty, Repeat(elem, |v.vals|), v.vals);
    case OptT(inner) => if v.SomeV? { ToKHasForm(inner, v.some); }
    case TupleT(elems) => ToKsHaveForm(ty, elems, v.vals);
    case UnionT(arms) => ToKHasForm(arms[v.arm], v.payload);
    case _ =>
  }

  lemma {:induction false} ToKsHaveForm(owner: WTy, tys: seq<WTy>, vs: seq<WVal>)
    requires (forall i :: 0 <= i < |tys| ==> tys[i] < owner) && HaveForm(owner, tys, vs)
    requires AllJvmSized(owner, tys, vs)
    ensures KHaveForm(owner, tys, ToKs(vs)) <==> AllOneUnitChars(vs)
    decreases owner, 0, |tys|
  {
    if tys != [] {
      ToKHasForm(tys[0], vs[0]);
      ToKsHaveForm(owner, tys[1..], vs[1..]);
      assert ToKs(vs)[1..] == ToKs(vs[1..]);
    }
  }

  lemma FixedWritersAgree(ty: WTy, v: WVal)
    requires IsFixed(ty) && HasForm(ty, v) && KHasForm(ty, ToK(v))
    ensures WriteVal(ty, ToK(v)) == EncodeVal(ty, v)
  {
    if ty.BoolT? || ty.ByteT? {
      assert Be(BitsOf(ty, v), 1) == Be(BitsOf(ty, v) / 0x100, 0) + [BitsOf(ty, v) % 0x100];
    }
  }

  lemma AbsentTakesAByte(ty: WTy, v: WVal)
    requires HasForm(ty, v) && ToK(v) == KNull
    ensures |EncodeVal(ty, v)| >= 1
  {
  }

  /** Equal bytes without a present null; with one, Kotlin's are fewer. */
  lemma {:induction false} WritersCompared(ty: WTy, v: WVal)
    requires HasForm(ty, v) && JvmSized(ty, v) && KHasForm(ty, ToK(v))
    ensures !PresentNull(ty, v) ==> WriteVal(ty, ToK(v)) == EncodeVal(ty, v)
    ensures PresentNull(ty, v) ==> |WriteVal(ty, ToK(v))| < |EncodeVal(ty, v)|
    decreases ty, 2, 0
  {
    match ty
    case StrT => assert |Utf8.Encode(v.s)| % TWO32 == |Utf8.Encode(v.s)|;
    case UnitT =>
    case ListT(elem) => ListWritersCompared(ty, v);
    case OptT(inner) =>
      if v.SomeV? {
        if ToK(v.some) == KNull {
          AbsentTakesAByte(inner, v.some);
        } else {
          WritersCompared(inner, v.some);
        }
      }
    case TupleT(elems) => SeqWritersCompared(ty, elems, v.vals);
    case UnionT(arms) => WritersCompared(arms[v.arm], v.payload);
    case _ => FixedWritersAgree(ty, v);
  }

  lemma ListWritersCompared(ty: WTy, v: WVal)
    requires ty.ListT? && HasForm(ty, v) && JvmSized(ty, v) && KHasForm(ty, ToK(v))
    ensures !PresentNull(ty, v) ==> WriteVal(ty, ToK(v)) == EncodeVal(ty, v)
    ensures PresentNull(ty, v) ==> |WriteVal(ty, ToK(v))| < |EncodeVal(ty, v)|
    decreases ty, 1, 0
  {
    var n := |v.vals|;
    assert n % TWO32 == n;
    SeqWritersCompared(ty, Repeat(ty.elem, n), v.vals);
    assert WriteVal(ty, ToK(v)) == Be(n, 4) + WriteSeq(ty, Repeat(ty.elem, n), ToKs(v.vals));
    assert EncodeVal(ty, v) == Be(n, 4) + EncodeSeq(ty, Repeat(ty.elem, n), v.vals);
  }

  lemma {:induction false} SeqWritersCompared(owner: WTy, tys: seq<WTy>, vs: seq<WVal>)
    requires (forall i :: 0 <= i < |tys| ==> tys[i] < owner) && HaveForm(owner, tys, vs)
    requires AllJvmSized(owner, tys, vs) && KHaveForm(owner, tys, ToKs(vs))
    ensures !SomePresentNull(owner, tys, vs) ==> WriteSeq(owner, tys, ToKs(vs)) == EncodeSeq(owner, tys, vs)
    ensures SomePresentNull(owner, tys, vs) ==> |WriteSeq(owner, tys, ToKs(vs))| < |EncodeSeq(owner, tys, vs)|
    decreases owner, 0, |tys|
  {
    if tys != [] {
      assert ToKs(vs)[1..] == ToKs(vs[1..]);
      WritersCompared(tys[0], vs[0]);
      SeqWritersCompared(owner, tys[1..], vs[1..]);
    }
  }

  /** The writers agree on a value both backends hold exactly when it holds no present null. */
  lemma WritersAgreeExactly(ty: WTy, v: WVal)
    requires HasForm(ty, v) && OneUnitChars(v) && JvmSized(ty, v)
    ensures KHasForm(ty, ToK(v))
    ensures WriteVal(ty, ToK(v)) == EncodeVal(ty, v) <==> !PresentNull(ty, v)
  {
    ToKHasForm(ty, v);
    WritersCompared(ty, v);
  }

  /** Types without an optional directly in an optional have no present null. */
  predicate NoNestedOptional(ty: WTy) {
    match ty
    case ListT(elem) => NoNestedOptional(elem)
    case OptT(inner) => !inner.OptT? && NoNestedOptional(inner)
    case TupleT(elems) => forall e | e in elems :: NoNestedOptional(e)
    case UnionT(arms) => forall a | a in arms :: NoNestedOptional(a)
    case _ => true
  }

  lemma {:induction false} NoNestingNoPresentNull(ty: WTy, v: WVal)
    requires HasForm(ty, v) && NoNestedOptional(ty)
    ensures !PresentNull(ty, v)
    decreases ty, 1, 0
  {
    match ty
    case ListT(elem) => NoNestingNone(ty, Repeat(elem, |v.vals|), v.vals);
    case OptT(inner) => if v.SomeV? { NoNestingNoPresentNull(inner, v.some); }
    case TupleT(elems) => NoNestingNone(ty, elems, v.vals);
    case UnionT(arms) => NoNestingNoPresentNull(arms[v.arm], v.payload);
    case _ =>
  }

  lemma {:induction false} NoNestingNone(owner: WTy, tys: seq<WTy>, vs: seq<WVal>)
    requires (forall i :: 0 <= i < |tys| ==> tys[i] < owner && NoNestedOptional(tys[i])) && HaveForm(owner, tys, vs)
    ensures !SomePresentNull(owner, tys, vs)
    decreases owner, 0, |tys|
  {
    if tys != [] {
      NoNestingNoPresentNull(tys[0], vs[0]);
      NoNestingNone(owner, tys[1..], vs[1..]);
    }
  }

  /** A value's own encoding holds its words. */
  lemma WordsOfEncoding(ty: WTy, v: WVal)
    requires HasForm(ty, v) && Fits(ty, v, 0)
    ensures Words(ty, SalvoEncode(ty, v)) == Some(Parsed(ToK(v), []))
  {
    FrameRoundTrips(ty, v);
    RustReads(ty, SalvoEncode(ty, v));
  }

  /** Rust's frame of a value is read on the JVM, as that value, exactly where each `Char` of it is
      one UTF-16 unit; any other is refused. */
  lemma FramesCrossExactly(ty: WTy, v: WVal)
    requires HasForm(ty, v) && Fits(ty, v, 0) && |EncodeVal(ty, v)| < 0x8000_0000
    ensures DecodeChecked(ty, SalvoEncode(ty, v)) == if OneUnitChars(v) then (true, ToK(v)) else (false, KNull)
  {
    WordsOfEncoding(ty, v);
    KotlinReads(ty, SalvoEncode(ty, v));
  }

  /** A value crosses: written by either backend, it is read by the other as the same value. */
  lemma ValuesCross(ty: WTy, v: WVal)
    requires HasForm(ty, v) && OneUnitChars(v) && NoNestedOptional(ty) && JvmSized(ty, v) && Fits(ty, v, 0)
    requires |EncodeVal(ty, v)| < 0x8000_0000
    ensures KHasForm(ty, ToK(v))
    ensures SalvoDecode(ty, WriteVal(ty, ToK(v))) == Some(v)
    ensures DecodeChecked(ty, SalvoEncode(ty, v)) == (true, ToK(v))
  {
    NoNestingNoPresentNull(ty, v);
    WritersAgreeExactly(ty, v);
    FrameRoundTrips(ty, v);
    FramesCrossExactly(ty, v);
  }
}
