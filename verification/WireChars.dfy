/** The two backends' readers, byte for byte: they read the same words, and differ in the code
    points they take for a `Char`. */
module WireChars {
  import opened Basics
  import opened Utf8
  import opened BigEndian
  import opened JvmBytes
  import JvmInt
  import opened WireFormat
  import opened WireTheorems
  import opened WireKotlin

  datatype Side = RustSide | KotlinSide

  /** The words a backend takes for a `Char`: a scalar value, or one UTF-16 unit. */
  predicate Takes(side: Side, u: int) {
    match side
    case RustSide => IsScalarValue(u)
    case KotlinSide => 0 <= u < 0x10000
  }

  predicate TakesAll(side: Side, k: KVal) {
    match k
    case KChar(u) => Takes(side, u)
    case KSeq(vals) => TakesEach(side, vals)
    case KUnion(_, payload) => TakesAll(side, payload)
    case _ => true
  }

  predicate TakesEach(side: Side, ks: seq<KVal>) {
    ks == [] || (TakesAll(side, ks[0]) && TakesEach(side, ks[1..]))
  }

  /** What `b` holds when any word is taken for a `Char`. */
  function Words(ty: WTy, b: seq<byte>): Option<Parsed<KVal>>
    decreases ty, 1, 0
  {
    match ty
    case CharT =>
      var p :- Take(b, 4);
      Some(Parsed(KChar(FromBe(p.val)), p.rest))
    case ListT(elem) =>
      var n :- Len(b);
      var p :- WordsSeq(ty, Repeat(elem, n.val), n.rest);
      Some(Parsed(KSeq(p.val), p.rest))
    case OptT(inner) =>
      var tag :- U8(b);
      if tag.val == 0 then Some(Parsed(KNull, tag.rest)) else if tag.val == 1 then Words(inner, tag.rest) else None
    case TupleT(elems) =>
      var p :- WordsSeq(ty, elems, b);
      Some(Parsed(KSeq(p.val), p.rest))
    case UnionT(arms) =>
      var tag :- U8(b);
      if tag.val < |arms| then
        var p :- Words(arms[tag.val], tag.rest);
        Some(Parsed(KUnion(tag.val, p.val), p.rest))
      else None
    case _ => MapK(DecodeVal(ty, b))
  }

  function WordsSeq(ghost owner: WTy, tys: seq<WTy>, b: seq<byte>): Option<Parsed<seq<KVal>>>
    requires forall i :: 0 <= i < |tys| ==> tys[i] < owner
    decreases owner, 0, |tys|
  {
    if tys == [] then Some(Parsed([], b))
    else
      var head :- Words(tys[0], b);
      var tail :- WordsSeq(owner, tys[1..], head.rest);
      Some(Parsed([head.val] + tail.val, tail.rest))
  }

  /** What is read, where a backend takes every `Char` of it. */
  function Taken(side: Side, p: Option<Parsed<KVal>>): Option<Parsed<KVal>> {
    if p.Some? && TakesAll(side, p.value.val) then p else None
  }

  function TakenSeq(side: Side, p: Option<Parsed<seq<KVal>>>): Option<Parsed<seq<KVal>>> {
    if p.Some? && TakesEach(side, p.value.val) then p else None
  }

  /** Reading only ever leaves a part of its input. */
  lemma {:induction false} RestIsNoLonger(ty: WTy, b: seq<byte>)
    ensures Words(ty, b).Some? ==> |Words(ty, b).value.rest| <= |b|
    decreases ty, 1, 0
  {
    match ty
    case CharT =>
    case ListT(elem) => if Len(b).Some? { RestsAreNoLonger(ty, Repeat(elem, Len(b).value.val), Len(b).value.rest); }
    case OptT(inner) => if b != [] { RestIsNoLonger(inner, b[1..]); }
    case TupleT(elems) => RestsAreNoLonger(ty, elems, b);
    case UnionT(arms) => if b != [] && b[0] < |arms| { RestIsNoLonger(arms[b[0]], b[1..]); }
    case _ => if DecodeVal(ty, b).Some? { EncodeDecodeVal(ty, b); }
  }

  lemma {:induction false} RestsAreNoLonger(owner: WTy, tys: seq<WTy>, b: seq<byte>)
    requires forall i :: 0 <= i < |tys| ==> tys[i] < owner
    ensures WordsSeq(owner, tys, b).Some? ==> |WordsSeq(owner, tys, b).value.rest| <= |b|
    decreases owner, 0, |tys|
  {
    if tys != [] && Words(tys[0], b).Some? {
      RestIsNoLonger(tys[0], b);
      RestsAreNoLonger(owner, tys[1..], Words(tys[0], b).value.rest);
    }
  }

  /** A list read or refused as its elements are. */
  lemma TakesConsed(side: Side, k: KVal, ks: seq<KVal>)
    ensures TakesEach(side, [k] + ks) <==> TakesAll(side, k) && TakesEach(side, ks)
  {
    assert ([k] + ks)[1..] == ks;
  }

  // ---- Rust

  lemma RustReadsOpt(inner: WTy, b: seq<byte>)
    requires b != [] ==> MapK(DecodeVal(inner, b[1..])) == Taken(RustSide, Words(inner, b[1..]))
    ensures MapK(DecodeVal(OptT(inner), b)) == Taken(RustSide, Words(OptT(inner), b))
  {}

  lemma RustReadsUnion(arms: seq<WTy>, b: seq<byte>)
    requires b != [] && b[0] < |arms| ==> MapK(DecodeVal(arms[b[0]], b[1..])) == Taken(RustSide, Words(arms[b[0]], b[1..]))
    ensures MapK(DecodeVal(UnionT(arms), b)) == Taken(RustSide, Words(UnionT(arms), b))
  {}

  /** Rust reads a value exactly where every word read for a `Char` is a scalar value. */
  lemma {:induction false} RustReads(ty: WTy, b: seq<byte>)
    ensures MapK(DecodeVal(ty, b)) == Taken(RustSide, Words(ty, b))
    decreases ty, 2, 0
  {
    match ty
    case CharT =>
    case ListT(_) => RustReadsList(ty, b);
    case OptT(inner) =>
      if b != [] { RustReads(inner, b[1..]); }
      RustReadsOpt(inner, b);
    case TupleT(elems) => RustReadsSeq(ty, elems, b);
    case UnionT(arms) =>
      if b != [] && b[0] < |arms| { RustReads(arms[b[0]], b[1..]); }
      RustReadsUnion(arms, b);
    case _ =>
  }

  lemma RustReadsList(ty: WTy, b: seq<byte>)
    requires ty.ListT?
    ensures MapK(DecodeVal(ty, b)) == Taken(RustSide, Words(ty, b))
    decreases ty, 1, 0
  {
    if Len(b).Some? { RustReadsSeq(ty, Repeat(ty.elem, Len(b).value.val), Len(b).value.rest); }
  }

  lemma {:induction false} RustReadsSeq(owner: WTy, tys: seq<WTy>, b: seq<byte>)
    requires forall i :: 0 <= i < |tys| ==> tys[i] < owner
    ensures MapKs(DecodeSeq(owner, tys, b)) == TakenSeq(RustSide, WordsSeq(owner, tys, b))
    decreases owner, 0, |tys|
  {
    if tys != [] {
      RustReads(tys[0], b);
      if Words(tys[0], b).Some? {
        var head := Words(tys[0], b).value;
        RustReadsSeq(owner, tys[1..], head.rest);
        var tail := WordsSeq(owner, tys[1..], head.rest);
        if tail.Some? { TakesConsed(RustSide, head.val, tail.value.val); }
        ToKsConsed(DecodeVal(tys[0], b), DecodeSeq(owner, tys[1..], head.rest));
      }
    }
  }

  lemma ToKsConsed(head: Option<Parsed<WVal>>, tail: Option<Parsed<seq<WVal>>>)
    ensures head.Some? && tail.Some? ==> ToKs([head.value.val] + tail.value.val) == [ToK(head.value.val)] + ToKs(tail.value.val)
  {
    if head.Some? && tail.Some? { assert ([head.value.val] + tail.value.val)[1..] == tail.value.val; }
  }

  // ---- Kotlin

  /** Below two gigabytes, the signed bound on a length is the unsigned one. */
  lemma ReadLenAgrees(b: seq<byte>)
    requires |b| < 0x8000_0000
    ensures ReadLen(b) == Len(b)
  {
  }

  lemma OneByte(x: byte)
    ensures FromBe([x]) == x
  {
    assert [x][..0] == [];
  }

  lemma ReadByteAgrees(ty: WTy, b: seq<byte>)
    requires ty.BoolT? || ty.ByteT?
    ensures ReadFixed(ty, b) == MapK(DecodeVal(ty, b))
  {
    if b != [] {
      OneByte(b[0]);
      assert b[..1] == [b[0]];
    }
  }

  lemma ReadWordAgrees(ty: WTy, b: seq<byte>)
    requires ty.IntT? || ty.FloatT?
    ensures ReadFixed(ty, b) == MapK(DecodeVal(ty, b))
  {
  }

  lemma ReadDoubleWordAgrees(ty: WTy, b: seq<byte>)
    requires ty.LongT? || ty.DoubleT?
    ensures ReadFixed(ty, b) == MapK(DecodeVal(ty, b))
  {
  }

  /** What decoding a string is, given its length; and that the JVM's reader answers it as well. */
  lemma StrDecodesAs(b: seq<byte>, n: Parsed<nat>)
    requires Len(b) == Some(n)
    ensures n.val <= |n.rest|
    ensures var s := Utf8.Decode(n.rest[..n.val]);
      DecodeVal(StrT, b) == if s.None? then None else Some(Parsed(StrV(s.value), n.rest[n.val..]))
  {}

  lemma StrReadsAs(b: seq<byte>, n: Parsed<nat>)
    requires ReadLen(b) == Some(n) && n.val <= |n.rest|
    ensures var s := Utf8.Decode(n.rest[..n.val]);
      ReadVal(StrT, b) == if s.None? then None else Some(Parsed(KStr(s.value), n.rest[n.val..]))
  {}

  lemma StrIsUnread(b: seq<byte>)
    requires Len(b) == None && ReadLen(b) == None
    ensures DecodeVal(StrT, b) == None && ReadVal(StrT, b) == None
  {}

  lemma StrMapped(s: Option<seq<scalar>>, rest: seq<byte>)
    ensures (if s.None? then None else Some(Parsed(KStr(s.value), rest))) ==
      MapK(if s.None? then None else Some(Parsed(StrV(s.value), rest)))
  {}

  lemma StrReadersAgree(b: seq<byte>)
    requires |b| < 0x8000_0000
    ensures ReadVal(StrT, b) == MapK(DecodeVal(StrT, b))
  {
    ReadLenAgrees(b);
    var len := Len(b);
    if len.None? {
      StrIsUnread(b);
    } else {
      StrDecodesAs(b, len.value);
      StrReadsAs(b, len.value);
      StrMapped(Utf8.Decode(len.value.rest[..len.value.val]), len.value.rest[len.value.val..]);
    }
  }

  lemma SmallSigned(u: nat)
    requires u < TWO32
    ensures 0 <= ToSigned(u, TWO32) <= 0xffff <==> u < 0x10000
    ensures u < 0x10000 ==> ToSigned(u, TWO32) == u
  {
  }

  lemma KotlinReadsChar(b: seq<byte>)
    ensures ReadVal(CharT, b) == Taken(KotlinSide, Words(CharT, b))
  {
    if |b| >= 4 { SmallSigned(FromBe(b[..4])); }
  }

  lemma KotlinReadsFixed(ty: WTy, b: seq<byte>)
    requires IsFixed(ty)
    ensures ReadVal(ty, b) == Taken(KotlinSide, Words(ty, b))
  {
    match ty
    case CharT => KotlinReadsChar(b);
    case BoolT => ReadByteAgrees(ty, b);
    case ByteT => ReadByteAgrees(ty, b);
    case IntT => ReadWordAgrees(ty, b);
    case FloatT => ReadWordAgrees(ty, b);
    case LongT => ReadDoubleWordAgrees(ty, b);
    case DoubleT => ReadDoubleWordAgrees(ty, b);
  }

  /** Kotlin reads a value exactly where every word read for a `Char` is one UTF-16 unit, on inputs
      a JVM array can hold. */
  lemma {:induction false} KotlinReads(ty: WTy, b: seq<byte>)
    requires |b| < 0x8000_0000
    ensures ReadVal(ty, b) == Taken(KotlinSide, Words(ty, b))
    decreases ty, 2, 0
  {
    match ty
    case StrT => StrReadersAgree(b);
    case UnitT =>
    case ListT(_) => KotlinReadsList(ty, b);
    case OptT(inner) => if b != [] { KotlinReads(inner, b[1..]); }
    case TupleT(elems) => KotlinReadsSeq(ty, elems, b);
    case UnionT(arms) => if b != [] && b[0] < |arms| { KotlinReads(arms[b[0]], b[1..]); }
    case _ => KotlinReadsFixed(ty, b);
  }

  lemma KotlinReadsList(ty: WTy, b: seq<byte>)
    requires ty.ListT? && |b| < 0x8000_0000
    ensures ReadVal(ty, b) == Taken(KotlinSide, Words(ty, b))
    decreases ty, 1, 0
  {
    ReadLenAgrees(b);
    if Len(b).Some? { KotlinReadsSeq(ty, Repeat(ty.elem, Len(b).value.val), Len(b).value.rest); }
  }

  lemma {:induction false} KotlinReadsSeq(owner: WTy, tys: seq<WTy>, b: seq<byte>)
    requires (forall i :: 0 <= i < |tys| ==> tys[i] < owner) && |b| < 0x8000_0000
    ensures ReadSeq(owner, tys, b) == TakenSeq(KotlinSide, WordsSeq(owner, tys, b))
    decreases owner, 0, |tys|
  {
    if tys != [] {
      KotlinReads(tys[0], b);
      if Words(tys[0], b).Some? {
        RestIsNoLonger(tys[0], b);
        var head := Words(tys[0], b).value;
        KotlinReadsSeq(owner, tys[1..], head.rest);
        var tail := WordsSeq(owner, tys[1..], head.rest);
        if tail.Some? { TakesConsed(KotlinSide, head.val, tail.value.val); }
      }
    }
  }

  /** The code points on which the two `Char` codecs agree, exactly: Rust refuses a surrogate and
      Kotlin anything past one UTF-16 unit. */
  lemma CharsAgreeExactly(b: seq<byte>)
    requires |b| >= 4
    ensures var u := FromBe(b[..4]);
      ReadVal(CharT, b) == MapK(DecodeVal(CharT, b)) <==> !(0xD800 <= u < 0xE000) && !(0x10000 <= u < 0x110000)
  {
    RustReads(CharT, b);
    KotlinReadsChar(b);
  }

  // ---- agreement

  /** The backends take the same, or nothing is read. */
  predicate TakenAlike(p: Option<Parsed<KVal>>) {
    p.Some? ==> (TakesAll(RustSide, p.value.val) <==> TakesAll(KotlinSide, p.value.val))
  }

  /** The two readers accept alike, answer the same value and leave the same rest exactly where
      the words read for a `Char` are all scalar values and all UTF-16 units, or neither. */
  lemma ReadersAgreeExactly(ty: WTy, b: seq<byte>)
    requires |b| < 0x8000_0000
    ensures ReadVal(ty, b) == MapK(DecodeVal(ty, b)) <==> TakenAlike(Words(ty, b))
  {
    RustReads(ty, b);
    KotlinReads(ty, b);
  }

  /** What `salvoDecodeChecked` answers where both backends decode alike. */
  function Checked(v: Option<WVal>): (bool, KVal) {
    if v.None? then (false, KNull) else (true, ToK(v.value))
  }

  /** A frame whose words leave no rest is decoded alike exactly where they are taken alike; any
      other is refused by both. */
  lemma FramesAgreeExactly(ty: WTy, b: seq<byte>)
    requires |b| < 0x8000_0000
    ensures DecodeChecked(ty, b) == Checked(SalvoDecode(ty, b)) <==>
      (Words(ty, b).Some? && Words(ty, b).value.rest == [] ==> TakenAlike(Words(ty, b)))
  {
    RustReads(ty, b);
    KotlinReads(ty, b);
  }

  /** Types in which no `Char` occurs. */
  predicate NoChar(ty: WTy) {
    match ty
    case CharT => false
    case ListT(elem) => NoChar(elem)
    case OptT(inner) => NoChar(inner)
    case TupleT(elems) => forall e | e in elems :: NoChar(e)
    case UnionT(arms) => forall a | a in arms :: NoChar(a)
    case _ => true
  }

  lemma NothingInOpt(side: Side, inner: WTy, b: seq<byte>)
    requires b != [] ==> Taken(side, Words(inner, b[1..])) == Words(inner, b[1..])
    ensures Taken(side, Words(OptT(inner), b)) == Words(OptT(inner), b)
  {}

  lemma NothingInUnion(side: Side, arms: seq<WTy>, b: seq<byte>)
    requires b != [] && b[0] < |arms| ==> Taken(side, Words(arms[b[0]], b[1..])) == Words(arms[b[0]], b[1..])
    ensures Taken(side, Words(UnionT(arms), b)) == Words(UnionT(arms), b)
  {}

  /** A value of any other type holds no `Char`. */
  lemma NothingInLeaf(side: Side, ty: WTy, b: seq<byte>)
    requires !ty.CharT? && !ty.ListT? && !ty.OptT? && !ty.TupleT? && !ty.UnionT?
    ensures Taken(side, Words(ty, b)) == Words(ty, b)
  {}

  /** Over types without `Char` both backends take whatever is read. */
  lemma {:induction false} NothingToRefuse(side: Side, ty: WTy, b: seq<byte>)
    requires NoChar(ty)
    ensures Taken(side, Words(ty, b)) == Words(ty, b)
    decreases ty, 1, 0
  {
    match ty
    case ListT(elem) => if Len(b).Some? { NothingInSeq(side, ty, Repeat(elem, Len(b).value.val), Len(b).value.rest); }
    case OptT(inner) =>
      if b != [] { NothingToRefuse(side, inner, b[1..]); }
      NothingInOpt(side, inner, b);
    case TupleT(elems) => NothingInSeq(side, ty, elems, b);
    case UnionT(arms) =>
      if b != [] && b[0] < |arms| { NothingToRefuse(side, arms[b[0]], b[1..]); }
      NothingInUnion(side, arms, b);
    case _ => NothingInLeaf(side, ty, b);
  }

  lemma {:induction false} NothingInSeq(side: Side, owner: WTy, tys: seq<WTy>, b: seq<byte>)
    requires forall i :: 0 <= i < |tys| ==> tys[i] < owner && NoChar(tys[i])
    ensures TakenSeq(side, WordsSeq(owner, tys, b)) == WordsSeq(owner, tys, b)
    decreases owner, 0, |tys|
  {
    if tys != [] {
      NothingToRefuse(side, tys[0], b);
      if Words(tys[0], b).Some? {
        var head := Words(tys[0], b).value;
        NothingInSeq(side, owner, tys[1..], head.rest);
        var tail := WordsSeq(owner, tys[1..], head.rest);
        if tail.Some? { TakesConsed(side, head.val, tail.value.val); }
      }
    }
  }

  /** Over types without `Char` the two readers agree on every input a JVM array can hold. */
  lemma ReadersAgree(ty: WTy, b: seq<byte>)
    requires NoChar(ty) && |b| < 0x8000_0000
    ensures ReadVal(ty, b) == MapK(DecodeVal(ty, b))
    ensures DecodeChecked(ty, b) == Checked(SalvoDecode(ty, b))
  {
    NothingToRefuse(RustSide, ty, b);
    NothingToRefuse(KotlinSide, ty, b);
    ReadersAgreeExactly(ty, b);
    FramesAgreeExactly(ty, b);
  }

  /** `null` is answered for a refused frame, and for one that decodes to `null`. */
  lemma NullMeans(ty: WTy, b: seq<byte>)
    requires |b| < 0x8000_0000 && TakenAlike(Words(ty, b))
    ensures KDecode(ty, b) == KNull <==> SalvoDecode(ty, b).None? || ToK(SalvoDecode(ty, b).value) == KNull
  {
    FramesAgreeExactly(ty, b);
  }
}
