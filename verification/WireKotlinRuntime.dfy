/** `WireIn`, `WireOut` and the Kotlin codecs as they run, word by word through signed shifts. */
module WireKotlinRuntime {
  import opened Basics
  import opened Utf8
  import opened BigEndian
  import opened JvmBytes
  import JvmInt
  import opened WireFormat
  import opened WireKotlin

  /** A `WireError` thrown inside is an answer `None`. */
  class WireIn {
    const data: seq<byte>
    var pos: nat

    constructor (data: seq<byte>)
      ensures this.data == data && pos == 0
    {
      this.data := data;
      pos := 0;
    }

    ghost predicate Valid()
      reads this
    {
      pos <= |data|
    }

    function Rest(): seq<byte>
      requires Valid()
      reads this
    {
      data[pos..]
    }

    method U8() returns (b: Option<byte>)
      requires Valid()
      modifies this
      ensures Valid() && pos >= old(pos)
      ensures match ReadU8(old(Rest()))
        case None => b.None? && pos == old(pos)
        case Some(p) => b == Some(p.val) && Rest() == p.rest
    {
      if pos >= |data| { return None; }
      b := Some(data[pos]);
      pos := pos + 1;
    }

    method I32() returns (v: Option<int>)
      requires Valid()
      modifies this
      ensures Valid() && pos >= old(pos)
      ensures match ReadInt(old(Rest()))
        case None => v.None?
        case Some(p) => v == Some(p.val) && Rest() == p.rest
    {
      ghost var b := Rest();
      var b0 := U8();
      if b0.None? { return None; }
      var b1 := U8();
      if b1.None? { return None; }
      var b2 := U8();
      if b2.None? { return None; }
      var b3 := U8();
      if b3.None? { return None; }
      assert b[..4] == [b0.value, b1.value, b2.value, b3.value];
      ReadI32IsFromBe(b0.value, b1.value, b2.value, b3.value);
      v := Some(ReadI32(b0.value, b1.value, b2.value, b3.value));
    }

    method I64() returns (v: Option<int>)
      requires Valid()
      modifies this
      ensures Valid() && pos >= old(pos)
      ensures match ReadLong(old(Rest()))
        case None => v.None?
        case Some(p) => v == Some(p.val) && Rest() == p.rest
    {
      ghost var b := Rest();
      var high := I32();
      if high.None? { return None; }
      var low := I32();
      if low.None? { return None; }
      assert b[4..][..4] == b[4..8] && b[..8] == b[..4] + b[4..8];
      ReadI64IsFromBe(b[..4], b[4..8]);
      v := Some(ReadI64(high.value, low.value));
    }

    method Len() returns (n: Option<nat>)
      requires Valid()
      modifies this
      ensures Valid() && pos >= old(pos)
      ensures match ReadLen(old(Rest()))
        case None => n.None?
        case Some(p) => n == Some(p.val) && Rest() == p.rest
    {
      var v := I32();
      if v.None? || v.value < 0 || v.value > |data| - pos { return None; }
      n := Some(v.value);
    }

    /** `raw(n)`: the next `n` bytes, or an error where there are not so many: the check's own or,
        where `pos + n` leaves the `Int`s, the copy's. */
    method Raw(n: int) returns (out: Option<seq<byte>>)
      requires Valid()
      modifies this
      ensures Valid() && pos >= old(pos)
      ensures out.Some? <==> 0 <= n <= |old(Rest())|
      ensures out.Some? ==> out.value == old(Rest())[..n] && Rest() == old(Rest())[n..]
      ensures out.None? ==> pos == old(pos)
    {
      if n < 0 || pos + n > |data| { return None; }
      out := Some(data[pos..pos + n]);
      pos := pos + n;
    }
  }

  method DecScalar(ty: WTy, inp: WireIn) returns (v: Option<KVal>)
    requires inp.Valid() && IsFixed(ty)
    modifies inp
    ensures inp.Valid() && inp.pos >= old(inp.pos)
    ensures match ReadFixed(ty, old(inp.Rest()))
      case None => v.None?
      case Some(p) => v == Some(p.val) && inp.Rest() == p.rest
  {
    match ty
    case BoolT =>
      var t := inp.U8();
      v := if t == Some(0) then Some(KBool(false)) else if t == Some(1) then Some(KBool(true)) else None;
    case ByteT =>
      var n := inp.U8();
      v := if n.None? then None else Some(KNum(n.value));
    case IntT =>
      var n := inp.I32();
      v := if n.None? then None else Some(KNum(n.value));
    case FloatT =>
      var n := inp.I32();
      v := if n.None? then None else Some(KNum(ToUnsigned(n.value, TWO32)));
    case LongT =>
      var n := inp.I64();
      v := if n.None? then None else Some(KNum(n.value));
    case DoubleT =>
      var n := inp.I64();
      v := if n.None? then None else Some(KNum(ToUnsigned(n.value, TWO64)));
    case CharT =>
      var n := inp.I32();
      v := if n.None? || n.value < 0 || n.value > 0xffff then None else Some(KChar(n.value));
  }

  /** `dec` of a composed codec. */
  method Dec(ty: WTy, inp: WireIn) returns (v: Option<KVal>)
    requires inp.Valid()
    modifies inp
    ensures inp.Valid() && inp.pos >= old(inp.pos)
    ensures match ReadVal(ty, old(inp.Rest()))
      case None => v.None?
      case Some(p) => v == Some(p.val) && inp.Rest() == p.rest
    decreases ty, 1
  {
    match ty
    case StrT =>
      var n := inp.Len();
      if n.None? { return None; }
      var bytes := inp.Raw(n.value);
      if bytes.None? { return None; }
      var s := Utf8.Decode(bytes.value);
      v := if s.None? then None else Some(KStr(s.value));
    case UnitT => v := Some(KUnit);
    case ListT(elem) =>
      var n := inp.Len();
      if n.None? { return None; }
      var vs := DecSeq(ty, Repeat(elem, n.value), inp);
      v := if vs.None? then None else Some(KSeq(vs.value));
    case OptT(inner) =>
      var tag := inp.U8();
      if tag.None? { return None; }
      if tag.value == 0 { return Some(KNull); }
      if tag.value != 1 { return None; }
      v := Dec(inner, inp);
    case TupleT(elems) =>
      var vs := DecSeq(ty, elems, inp);
      v := if vs.None? then None else Some(KSeq(vs.value));
    case UnionT(arms) =>
      var tag := inp.U8();
      if tag.None? || tag.value >= |arms| { return None; }
      var payload := Dec(arms[tag.value], inp);
      v := if payload.None? then None else Some(KUnion(tag.value, payload.value));
    case _ => v := DecScalar(ty, inp);
  }

  /** With `done` read and `at` left, reading the whole is reading what remains. */
  ghost predicate Continues(owner: WTy, tys: seq<WTy>, i: nat, b: seq<byte>, done: seq<KVal>, at: seq<byte>)
    requires (forall j :: 0 <= j < |tys| ==> tys[j] < owner) && i <= |tys|
  {
    ReadSeq(owner, tys, b) ==
      match ReadSeq(owner, tys[i..], at)
      case None => None
      case Some(tail) => Some(Parsed(done + tail.val, tail.rest))
  }

  lemma ReadSeqSnoc(owner: WTy, tys: seq<WTy>, i: nat, b: seq<byte>, done: seq<KVal>, at: seq<byte>)
    requires (forall j :: 0 <= j < |tys| ==> tys[j] < owner) && i < |tys|
    requires Continues(owner, tys, i, b, done, at)
    ensures var head := ReadVal(tys[i], at);
      if head.None? then ReadSeq(owner, tys, b).None?
      else Continues(owner, tys, i + 1, b, done + [head.value.val], head.value.rest)
  {
    var head := ReadVal(tys[i], at);
    assert tys[i..][1..] == tys[i + 1..];
    if head.Some? {
      var tail := ReadSeq(owner, tys[i + 1..], head.value.rest);
      if tail.Some? {
        assert done + ([head.value.val] + tail.value.val) == done + [head.value.val] + tail.value.val;
      }
    }
  }

  /** The loop of a list codec, and the fields of a composed one. */
  method DecSeq(ghost owner: WTy, tys: seq<WTy>, inp: WireIn) returns (vs: Option<seq<KVal>>)
    requires inp.Valid() && forall i :: 0 <= i < |tys| ==> tys[i] < owner
    modifies inp
    ensures inp.Valid() && inp.pos >= old(inp.pos)
    ensures match ReadSeq(owner, tys, old(inp.Rest()))
      case None => vs.None?
      case Some(p) => vs == Some(p.val) && inp.Rest() == p.rest
    decreases owner, 0
  {
    var out: seq<KVal> := [];
    var i := 0;
    ghost var b := inp.Rest();
    assert tys[0..] == tys;
    assert forall vs: seq<KVal> :: [] + vs == vs;
    while i < |tys|
      invariant 0 <= i <= |tys| && inp.Valid() && inp.pos >= old(inp.pos)
      invariant Continues(owner, tys, i, b, out, inp.Rest())
    {
      ReadSeqSnoc(owner, tys, i, b, out, inp.Rest());
      var v := Dec(tys[i], inp);
      if v.None? { return None; }
      out := out + [v.value];
      i := i + 1;
    }
    assert out + [] == out;
    return Some(out);
  }

  method SalvoDecodeChecked(ty: WTy, frame: seq<byte>) returns (ok: bool, v: KVal)
    ensures (ok, v) == DecodeChecked(ty, frame)
  {
    var inp := new WireIn(frame);
    assert inp.Rest() == frame;
    var r := Dec(ty, inp);
    if r.None? || inp.pos != |inp.data| { return false, KNull; }
    return true, r.value;
  }

  // ---- writing

  class WireOut {
    var buf: seq<byte>

    constructor ()
      ensures buf == []
    {
      buf := [];
    }

    /** Writes the low eight bits. */
    method U8(b: int)
      requires JvmInt.Fits(b, TWO32)
      modifies this
      ensures buf == old(buf) + [ToUnsigned(b, TWO32) % 0x100]
      ensures 0 <= b < 0x100 ==> buf == old(buf) + [b]
    {
      buf := buf + [LowByte(b)];
    }

    method I32(v: int)
      requires JvmInt.Fits(v, TWO32)
      modifies this
      ensures buf == old(buf) + IntBytes(v)
    {
      U8(JvmInt.Ushr(v, 24, TWO32));
      U8(JvmInt.Ushr(v, 16, TWO32));
      U8(JvmInt.Ushr(v, 8, TWO32));
      U8(v);
      WriteI32IsBe(v);
      assert buf == old(buf) + WriteI32(v);
    }

    method I64(v: int)
      requires JvmInt.Fits(v, TWO64)
      modifies this
      ensures buf == old(buf) + LongBytes(v)
    {
      var high, low := JvmInt.Wrap(JvmInt.Ushr(v, 32, TWO64), TWO32), JvmInt.Wrap(v, TWO32);
      I32(high);
      I32(low);
      WriteI32IsBe(high);
      WriteI32IsBe(low);
      WriteI64IsBe(v);
      assert buf == old(buf) + (WriteI32(high) + WriteI32(low));
    }

    method Raw(bytes: seq<byte>)
      modifies this
      ensures buf == old(buf) + bytes
    {
      buf := buf + bytes;
    }
  }

  method EncScalar(ty: WTy, v: KVal, out: WireOut)
    requires IsFixed(ty) && KHasForm(ty, v)
    modifies out
    ensures out.buf == old(out.buf) + WriteFixed(ty, v)
  {
    match ty
    case BoolT => out.U8(if v.b then 1 else 0);
    case ByteT => out.U8(v.n);
    case IntT => out.I32(v.n);
    case FloatT => out.I32(ToSigned(v.n, TWO32));
    case LongT => out.I64(v.n);
    case DoubleT => out.I64(ToSigned(v.n, TWO64));
    case CharT => out.I32(v.unit);
  }

  /** `enc` of a composed codec. */
  method Enc(ty: WTy, v: KVal, out: WireOut)
    requires KHasForm(ty, v)
    modifies out
    ensures out.buf == old(out.buf) + WriteVal(ty, v)
    decreases ty, 1
  {
    match ty
    case StrT => EncStr(v, out);
    case UnitT =>
    case ListT(_) => EncList(ty, v, out);
    case OptT(_) => EncOpt(ty, v, out);
    case TupleT(elems) => EncSeq(ty, elems, v.vals, out);
    case UnionT(_) => EncUnion(ty, v, out);
    case _ => EncScalar(ty, v, out);
  }

  method EncOpt(ty: WTy, v: KVal, out: WireOut)
    requires ty.OptT? && KHasForm(ty, v)
    modifies out
    ensures out.buf == old(out.buf) + WriteVal(ty, v)
    decreases ty, 0, 1
  {
    if v == KNull {
      out.U8(0);
    } else {
      out.U8(1);
      Enc(ty.inner, v, out);
      assert out.buf == old(out.buf) + ([1] + WriteVal(ty.inner, v));
    }
  }

  method EncUnion(ty: WTy, v: KVal, out: WireOut)
    requires ty.UnionT? && KHasForm(ty, v)
    modifies out
    ensures out.buf == old(out.buf) + WriteVal(ty, v)
    decreases ty, 0, 1
  {
    out.U8(v.arm);
    Enc(ty.arms[v.arm], v.payload, out);
    assert out.buf == old(out.buf) + ([v.arm] + WriteVal(ty.arms[v.arm], v.payload));
  }

  method EncStr(v: KVal, out: WireOut)
    requires KHasForm(StrT, v)
    modifies out
    ensures out.buf == old(out.buf) + WriteVal(StrT, v)
  {
    var bytes := Utf8.Encode(v.s);
    out.I32(|bytes|);
    out.Raw(bytes);
  }

  method EncList(ty: WTy, v: KVal, out: WireOut)
    requires ty.ListT? && KHasForm(ty, v)
    modifies out
    ensures out.buf == old(out.buf) + WriteVal(ty, v)
    decreases ty, 0, 1
  {
    out.I32(|v.vals|);
    EncSeq(ty, Repeat(ty.elem, |v.vals|), v.vals, out);
  }

  lemma StepOn(owner: WTy, tys: seq<WTy>, vs: seq<KVal>, i: nat, before: seq<byte>, total: seq<byte>)
    requires (forall j :: 0 <= j < |tys| ==> tys[j] < owner) && |tys| == |vs| && i < |tys|
    requires KHaveForm(owner, tys[i..], vs[i..]) && before + WriteSeq(owner, tys[i..], vs[i..]) == total
    ensures KHaveForm(owner, tys[i + 1..], vs[i + 1..]) && KHasForm(tys[i], vs[i])
    ensures before + WriteVal(tys[i], vs[i]) + WriteSeq(owner, tys[i + 1..], vs[i + 1..]) == total
  {
    assert tys[i..][1..] == tys[i + 1..] && vs[i..][1..] == vs[i + 1..];
    var tail := WriteSeq(owner, tys[i + 1..], vs[i + 1..]);
    assert before + WriteVal(tys[i], vs[i]) + tail == before + (WriteVal(tys[i], vs[i]) + tail);
  }

  method EncSeq(ghost owner: WTy, tys: seq<WTy>, vs: seq<KVal>, out: WireOut)
    requires (forall i :: 0 <= i < |tys| ==> tys[i] < owner) && KHaveForm(owner, tys, vs)
    modifies out
    ensures out.buf == old(out.buf) + WriteSeq(owner, tys, vs)
    decreases owner, 0, 0
  {
    var i := 0;
    ghost var total := out.buf + WriteSeq(owner, tys, vs);
    assert tys[0..] == tys && vs[0..] == vs;
    while i < |tys|
      invariant 0 <= i <= |tys| == |vs| && KHaveForm(owner, tys[i..], vs[i..])
      invariant out.buf + WriteSeq(owner, tys[i..], vs[i..]) == total
    {
      StepOn(owner, tys, vs, i, out.buf, total);
      Enc(tys[i], vs[i], out);
      i := i + 1;
    }
  }

  method SalvoEncodeK(ty: WTy, v: KVal) returns (frame: seq<byte>)
    requires KHasForm(ty, v)
    ensures frame == WriteVal(ty, v)
  {
    var out := new WireOut();
    Enc(ty, v, out);
    frame := out.buf;
  }
}
