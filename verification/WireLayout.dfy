/** The layout of the canonical encoding, type by type, in the words it is documented in: which
    bytes a value takes, with no encoder or decoder. */
module WireLayout {
  import opened Basics
  import opened Utf8
  import opened Utf8Bytes
  import opened BigEndian
  import opened WireFormat
  import opened WireFraming

  /** The number some bytes are, the first one highest. */
  ghost function Number(b: seq<byte>): (n: nat) {
    if b == [] then 0 else b[0] * Power(|b| - 1) + Number(b[1..])
  }

  function Power(k: nat): (p: nat) {
    if k == 0 then 1 else 0x100 * Power(k - 1)
  }

  /** A signed number's bytes: those of the number itself, or of what it lacks to the next power. */
  ghost predicate SignedBytes(b: seq<byte>, width: nat, n: int) {
    |b| == width && Number(b) == if n < 0 then n + Power(width) else n
  }

  ghost predicate UnsignedBytes(b: seq<byte>, width: nat, n: int) {
    |b| == width && Number(b) == n
  }

  /** `b` holds a value of `ty`: a number's bytes highest first; text and lists behind a count of
      four bytes; an optional behind a byte, 0 for absent; an arm behind its index; a tuple's
      components one behind the other. */
  ghost predicate Lies(ty: WTy, v: WVal, b: seq<byte>)
    requires HasForm(ty, v)
    decreases ty, 1, 0
  {
    match ty
    case BoolT => b == [if v.b then 1 else 0]
    case ByteT => b == [v.n]
    case IntT => SignedBytes(b, 4, v.n)
    case LongT => SignedBytes(b, 8, v.n)
    case FloatT => UnsignedBytes(b, 4, v.n)
    case DoubleT => UnsignedBytes(b, 8, v.n)
    case CharT => UnsignedBytes(b, 4, v.c)
    case StrT =>
      |b| >= 4 && UnsignedBytes(b[..4], 4, |b| - 4) && exists cs :: AreChars(cs) && Concat(cs) == b[4..] && ScalarsOf(cs) == v.s
    case UnitT => b == []
    case ListT(elem) =>
      |b| >= 4 && UnsignedBytes(b[..4], 4, |v.vals|) && LieInOrder(ty, Repeat(elem, |v.vals|), v.vals, b[4..])
    case OptT(inner) => if v.NoneV? then b == [0] else b != [] && b[0] == 1 && Lies(inner, v.some, b[1..])
    case TupleT(elems) => LieInOrder(ty, elems, v.vals, b)
    case UnionT(arms) => b != [] && b[0] == v.arm && Lies(arms[v.arm], v.payload, b[1..])
  }

  ghost predicate LieInOrder(owner: WTy, tys: seq<WTy>, vs: seq<WVal>, b: seq<byte>)
    requires (forall i :: 0 <= i < |tys| ==> tys[i] < owner) && HaveForm(owner, tys, vs)
    decreases owner, 0, |tys|
  {
    if tys == [] then b == []
    else exists n :: 0 <= n <= |b| && Lies(tys[0], vs[0], b[..n]) && LieInOrder(owner, tys[1..], vs[1..], b[n..])
  }

  // ---- numbers

  lemma {:induction false} PowersAgree(k: nat)
    ensures Power(k) == Pow256(k)
  {
    if k > 0 { PowersAgree(k - 1); }
  }

  lemma {:induction false} FirstByte(x: byte, rest: seq<byte>)
    ensures FromBe([x] + rest) == x * Pow256(|rest|) + FromBe(rest)
  {
    if rest == [] {
      assert [x] + rest == [x] && [x][..0] == [];
    } else {
      var init, last := rest[..|rest| - 1], rest[|rest| - 1];
      var b := [x] + rest;
      assert b[..|b| - 1] == [x] + init;
      FirstByte(x, init);
      Scaled(x, Pow256(|init|));
    }
  }

  lemma Scaled(x: int, p: int)
    ensures 0x100 * (x * p) == x * (0x100 * p)
  {}

  lemma {:induction false} NumberIsFromBe(b: seq<byte>)
    ensures Number(b) == FromBe(b)
  {
    if b != [] {
      NumberIsFromBe(b[1..]);
      FirstByte(b[0], b[1..]);
      PowersAgree(|b| - 1);
      assert b == [b[0]] + b[1..];
    }
  }

  /** Bytes of a number are its big-endian bytes. */
  lemma BytesOfNumber(b: seq<byte>, width: nat, n: nat)
    requires n < Pow256(width)
    ensures |b| == width && Number(b) == n <==> b == Be(n, width)
  {
    NumberIsFromBe(b);
    BeFromBe(b);
    FromBeBe(n, width);
  }

  lemma FixedLies(ty: WTy, v: WVal, b: seq<byte>)
    requires IsFixed(ty) && HasForm(ty, v)
    ensures Lies(ty, v, b) <==> b == EncodeVal(ty, v)
  {
    Pow256At4And8();
    PowersAgree(4);
    PowersAgree(8);
    if ty.BoolT? || ty.ByteT? {
      var u := BitsOf(ty, v);
      assert Be(u, 1) == Be(u / 0x100, 0) + [u % 0x100];
    } else {
      BytesOfNumber(b, FixedWidth(ty), BitsOf(ty, v));
    }
  }

  /** A body behind its count of four bytes. */
  lemma CountedExactly(b: seq<byte>, n: nat, body: seq<byte>)
    ensures |b| >= 4 && UnsignedBytes(b[..4], 4, n) && b[4..] == body <==> n < TWO32 && b == Be(n, 4) + body
  {
    Pow256At4And8();
    if |b| >= 4 {
      NumberIsFromBe(b[..4]);
      assert FromBe(b[..4]) < TWO32;
      assert b == b[..4] + b[4..];
    }
    if n < TWO32 {
      if |b| >= 4 { BytesOfNumber(b[..4], 4, n); }
      var all := Be(n, 4) + body;
      assert all[..4] == Be(n, 4) && all[4..] == body;
    }
  }

  lemma StrLiesAs(v: WVal, b: seq<byte>)
    requires v.StrV?
    ensures Lies(StrT, v, b) <==> |b| >= 4 && UnsignedBytes(b[..4], 4, |Utf8.Encode(v.s)|) && b[4..] == Utf8.Encode(v.s)
  {
    if |b| >= 4 {
      EncodesExactly(v.s, b[4..]);
      assert |b[4..]| == |b| - 4;
    }
  }

  lemma StrEncoded(v: WVal)
    requires v.StrV? && Short(StrT, v)
    ensures EncodeVal(StrT, v) == Be(|Utf8.Encode(v.s)|, 4) + Utf8.Encode(v.s)
  {
    Fits32(|Utf8.Encode(v.s)|);
  }

  lemma Fits32(n: nat)
    requires n < TWO32
    ensures n % TWO32 == n
  {}

  // ---- lists

  lemma ListLiesAs(ty: WTy, v: WVal, b: seq<byte>)
    requires ty.ListT? && HasForm(ty, v)
    ensures Lies(ty, v, b) <==>
      |b| >= 4 && UnsignedBytes(b[..4], 4, |v.vals|) && LieInOrder(ty, Repeat(ty.elem, |v.vals|), v.vals, b[4..])
  {}

  lemma ListIsShort(ty: WTy, v: WVal)
    requires ty.ListT? && HasForm(ty, v)
    ensures Short(ty, v) <==> |v.vals| < TWO32 && AllShort(ty, Repeat(ty.elem, |v.vals|), v.vals)
  {}

  lemma ListEncoded(ty: WTy, v: WVal)
    requires ty.ListT? && HasForm(ty, v) && |v.vals| < TWO32
    ensures EncodeVal(ty, v) == Be(|v.vals|, 4) + EncodeSeq(ty, Repeat(ty.elem, |v.vals|), v.vals)
  {
    Fits32(|v.vals|);
  }

  lemma StrLies(v: WVal, b: seq<byte>)
    requires v.StrV?
    ensures Lies(StrT, v, b) <==> Short(StrT, v) && b == EncodeVal(StrT, v)
  {
    StrLiesAs(v, b);
    if Short(StrT, v) { StrEncoded(v); }
    CountedExactly(b, |Utf8.Encode(v.s)|, Utf8.Encode(v.s));
  }

  // ---- what lies somewhere is encoded there

  lemma {:induction false} LyingIsEncoded(ty: WTy, v: WVal, b: seq<byte>)
    requires HasForm(ty, v) && Lies(ty, v, b)
    ensures Short(ty, v) && b == EncodeVal(ty, v)
    decreases ty, 2, 0
  {
    match ty
    case StrT => StrLies(v, b);
    case UnitT =>
    case ListT(_) => ListIsEncoded(ty, v, b);
    case OptT(inner) =>
      if v.SomeV? {
        LyingIsEncoded(inner, v.some, b[1..]);
        assert b == [b[0]] + b[1..];
      }
    case TupleT(elems) => OrderIsEncoded(ty, elems, v.vals, b);
    case UnionT(arms) =>
      LyingIsEncoded(arms[v.arm], v.payload, b[1..]);
      assert b == [b[0]] + b[1..];
    case _ => FixedLies(ty, v, b);
  }

  lemma {:induction false} ListIsEncoded(ty: WTy, v: WVal, b: seq<byte>)
    requires ty.ListT? && HasForm(ty, v) && Lies(ty, v, b)
    ensures Short(ty, v) && b == EncodeVal(ty, v)
    decreases ty, 1, 0
  {
    var n := |v.vals|;
    var tys := Repeat(ty.elem, n);
    ListLiesAs(ty, v, b);
    OrderIsEncoded(ty, tys, v.vals, b[4..]);
    CountedExactly(b, n, b[4..]);
    ListIsShort(ty, v);
    ListEncoded(ty, v);
  }

  lemma {:induction false} OrderIsEncoded(owner: WTy, tys: seq<WTy>, vs: seq<WVal>, b: seq<byte>)
    requires (forall i :: 0 <= i < |tys| ==> tys[i] < owner) && HaveForm(owner, tys, vs) && LieInOrder(owner, tys, vs, b)
    ensures AllShort(owner, tys, vs) && b == EncodeSeq(owner, tys, vs)
    decreases owner, 0, |tys|
  {
    if tys != [] {
      var head, tail := SplitPoint(owner, tys, vs, b);
      LyingIsEncoded(tys[0], vs[0], head);
      OrderIsEncoded(owner, tys[1..], vs[1..], tail);
      OrderJoins(owner, tys, vs, head, tail);
    }
  }

  lemma OrderJoins(owner: WTy, tys: seq<WTy>, vs: seq<WVal>, head: seq<byte>, tail: seq<byte>)
    requires (forall i :: 0 <= i < |tys| ==> tys[i] < owner) && HaveForm(owner, tys, vs) && tys != []
    requires Short(tys[0], vs[0]) && head == EncodeVal(tys[0], vs[0])
    requires AllShort(owner, tys[1..], vs[1..]) && tail == EncodeSeq(owner, tys[1..], vs[1..])
    ensures AllShort(owner, tys, vs) && head + tail == EncodeSeq(owner, tys, vs)
  {}

  lemma SplitPoint(owner: WTy, tys: seq<WTy>, vs: seq<WVal>, b: seq<byte>) returns (head: seq<byte>, tail: seq<byte>)
    requires (forall i :: 0 <= i < |tys| ==> tys[i] < owner) && HaveForm(owner, tys, vs)
    requires tys != [] && LieInOrder(owner, tys, vs, b)
    ensures b == head + tail && Lies(tys[0], vs[0], head) && LieInOrder(owner, tys[1..], vs[1..], tail)
  {
    var n :| 0 <= n <= |b| && Lies(tys[0], vs[0], b[..n]) && LieInOrder(owner, tys[1..], vs[1..], b[n..]);
    head, tail := b[..n], b[n..];
  }

  // ---- what is encoded lies there

  lemma {:induction false} EncodingLies(ty: WTy, v: WVal)
    requires HasForm(ty, v) && Short(ty, v)
    ensures Lies(ty, v, EncodeVal(ty, v))
    decreases ty, 2, 0
  {
    match ty
    case StrT => StrLies(v, EncodeVal(ty, v));
    case UnitT =>
    case ListT(_) => ListEncodingLies(ty, v);
    case OptT(inner) =>
      if v.SomeV? {
        EncodingLies(inner, v.some);
        assert EncodeVal(ty, v)[1..] == EncodeVal(inner, v.some);
      }
    case TupleT(elems) => OrderedEncodingsLie(ty, elems, v.vals);
    case UnionT(arms) =>
      EncodingLies(arms[v.arm], v.payload);
      assert EncodeVal(ty, v)[1..] == EncodeVal(arms[v.arm], v.payload);
    case _ => FixedLies(ty, v, EncodeVal(ty, v));
  }

  lemma {:induction false} ListEncodingLies(ty: WTy, v: WVal)
    requires ty.ListT? && HasForm(ty, v) && Short(ty, v)
    ensures Lies(ty, v, EncodeVal(ty, v))
    decreases ty, 1, 0
  {
    var n := |v.vals|;
    var tys := Repeat(ty.elem, n);
    ListIsShort(ty, v);
    OrderedEncodingsLie(ty, tys, v.vals);
    ListEncoded(ty, v);
    ListLiesAs(ty, v, EncodeVal(ty, v));
    CountedExactly(EncodeVal(ty, v), n, EncodeSeq(ty, tys, v.vals));
  }

  lemma {:induction false} OrderedEncodingsLie(owner: WTy, tys: seq<WTy>, vs: seq<WVal>)
    requires (forall i :: 0 <= i < |tys| ==> tys[i] < owner) && HaveForm(owner, tys, vs) && AllShort(owner, tys, vs)
    ensures LieInOrder(owner, tys, vs, EncodeSeq(owner, tys, vs))
    decreases owner, 0, |tys|
  {
    if tys != [] {
      EncodingLies(tys[0], vs[0]);
      OrderedEncodingsLie(owner, tys[1..], vs[1..]);
      LieSplit(owner, tys, vs, EncodeVal(tys[0], vs[0]), EncodeSeq(owner, tys[1..], vs[1..]));
    }
  }

  lemma LieSplit(owner: WTy, tys: seq<WTy>, vs: seq<WVal>, head: seq<byte>, tail: seq<byte>)
    requires (forall i :: 0 <= i < |tys| ==> tys[i] < owner) && HaveForm(owner, tys, vs)
    requires tys != [] && Lies(tys[0], vs[0], head) && LieInOrder(owner, tys[1..], vs[1..], tail)
    ensures LieInOrder(owner, tys, vs, head + tail)
  {
    var b := head + tail;
    assert b[..|head|] == head && b[|head|..] == tail;
  }

  /** A value lies in exactly its encoding, where its lengths have four bytes; any other lies
      nowhere. */
  lemma LiesExactly(ty: WTy, v: WVal, b: seq<byte>)
    requires HasForm(ty, v)
    ensures Lies(ty, v, b) <==> Short(ty, v) && b == EncodeVal(ty, v)
  {
    if Lies(ty, v, b) { LyingIsEncoded(ty, v, b); }
    if Short(ty, v) { EncodingLies(ty, v); }
  }
}
