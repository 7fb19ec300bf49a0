/** The Rust runtime's codec: a reader that advances through a frame, an encoder that pushes. */
module WireRust {
  import opened Basics
  import opened Utf8
  import opened BigEndian
  import opened WireFormat

  class Reader {
    const data: seq<byte>
    var pos: nat

    constructor (data: seq<byte>)
      ensures this.data == data && pos == 0
    {
      this.data := data;
      pos := 0;
    }

    /** The position never passes the end. */
    ghost predicate Valid()
      reads this
    {
      pos <= |data|
    }

    /** What is left to read. */
    function Rest(): seq<byte>
      requires Valid()
      reads this
    {
      data[pos..]
    }

    method Take(n: nat) returns (out: Option<seq<byte>>)
      requires Valid()
      modifies this
      ensures Valid() && pos >= old(pos)
      ensures match WireFormat.Take(old(Rest()), n)
        case None => out.None?
        case Some(p) => out == Some(p.val) && Rest() == p.rest
    {
      var end := pos + n;
      if end > |data| { return None; }
      out := Some(data[pos..end]);
      assert old(Rest())[..n] == data[pos..end] && old(Rest())[n..] == data[end..];
      pos := end;
    }

    method U8() returns (out: Option<byte>)
      requires Valid()
      modifies this
      ensures Valid() && pos >= old(pos)
      ensures match WireFormat.U8(old(Rest()))
        case None => out.None?
        case Some(p) => out == Some(p.val) && Rest() == p.rest
    {
      var b := Take(1);
      if b.None? { return None; }
      out := Some(b.value[0]);
    }

    /** Four or eight bytes, big-endian. */
    method Fixed(width: nat) returns (out: Option<nat>)
      requires Valid()
      modifies this
      ensures Valid() && pos >= old(pos)
      ensures match WireFormat.Take(old(Rest()), width)
        case None => out.None?
        case Some(p) => out == Some(FromBe(p.val)) && Rest() == p.rest
    {
      var b := Take(width);
      if b.None? { return None; }
      out := Some(FromBe(b.value));
    }

    method Len() returns (out: Option<nat>)
      requires Valid()
      modifies this
      ensures Valid() && pos >= old(pos)
      ensures match WireFormat.Len(old(Rest()))
        case None => out.None?
        case Some(p) => out == Some(p.val) && Rest() == p.rest
    {
      var n := Fixed(4);
      if n.None? || n.value > |data| - pos { return None; }
      out := n;
    }

    method Done() returns (done: bool)
      requires Valid()
      ensures done <==> Rest() == []
    {
      done := pos == |data|;
    }
  }

  // ---- decoding

  /** `__dec`: reads one value, or stops at the first thing that is not one. */
  method Dec(ty: WTy, r: Reader) returns (v: Option<WVal>)
    requires r.Valid()
    modifies r
    ensures r.Valid() && r.pos >= old(r.pos)
    ensures match DecodeVal(ty, old(r.Rest()))
      case None => v.None?
      case Some(p) => v == Some(p.val) && r.Rest() == p.rest
    decreases ty, 1
  {
    match ty
    case StrT =>
      var n := r.Len();
      if n.None? { return None; }
      var b := r.Take(n.value);
      if b.None? { return None; }
      var s := Utf8.Decode(b.value);
      v := if s.None? then None else Some(StrV(s.value));
    case UnitT => v := Some(UnitV);
    case ListT(elem) =>
      var n := r.Len();
      if n.None? { return None; }
      var vs := DecSeq(ty, Repeat(elem, n.value), r);
      v := if vs.None? then None else Some(SeqV(vs.value));
    case OptT(_) => v := DecOpt(ty, r);
    case TupleT(elems) =>
      var vs := DecSeq(ty, elems, r);
      v := if vs.None? then None else Some(SeqV(vs.value));
    case UnionT(_) => v := DecUnion(ty, r);
    case _ =>
      var u := r.Fixed(FixedWidth(ty));
      if u.None? { return None; }
      v := OfBits(ty, u.value);
  }

  method DecOpt(ty: WTy, r: Reader) returns (v: Option<WVal>)
    requires ty.OptT? && r.Valid()
    modifies r
    ensures r.Valid() && r.pos >= old(r.pos)
    ensures match DecodeVal(ty, old(r.Rest()))
      case None => v.None?
      case Some(p) => v == Some(p.val) && r.Rest() == p.rest
    decreases ty, 0, 1
  {
    var tag := r.U8();
    if tag.None? { return None; }
    if tag.value == 0 { return Some(NoneV); }
    if tag.value != 1 { return None; }
    var some := Dec(ty.inner, r);
    v := if some.None? then None else Some(SomeV(some.value));
  }

  method DecUnion(ty: WTy, r: Reader) returns (v: Option<WVal>)
    requires ty.UnionT? && r.Valid()
    modifies r
    ensures r.Valid() && r.pos >= old(r.pos)
    ensures match DecodeVal(ty, old(r.Rest()))
      case None => v.None?
      case Some(p) => v == Some(p.val) && r.Rest() == p.rest
    decreases ty, 0, 1
  {
    var tag := r.U8();
    if tag.None? || tag.value >= |ty.arms| { return None; }
    var payload := Dec(ty.arms[tag.value], r);
    v := if payload.None? then None else Some(UnionV(tag.value, payload.value));
  }

  lemma DecodeSeqSnoc(owner: WTy, tys: seq<WTy>, i: nat, b: seq<byte>, done: seq<WVal>, at: seq<byte>)
    requires (forall j :: 0 <= j < |tys| ==> tys[j] < owner) && i < |tys|
    requires Continues(owner, tys, i, b, done, at)
    ensures var head := DecodeVal(tys[i], at);
      if head.None? then DecodeSeq(owner, tys, b).None?
      else Continues(owner, tys, i + 1, b, done + [head.value.val], head.value.rest)
  {
    var head := DecodeVal(tys[i], at);
    assert tys[i..][1..] == tys[i + 1..];
    if head.Some? {
      var tail := DecodeSeq(owner, tys[i + 1..], head.value.rest);
      if tail.Some? {
        assert done + ([head.value.val] + tail.value.val) == done + [head.value.val] + tail.value.val;
      }
    }
  }

  /** With `done` read and `at` left, decoding the whole is decoding what remains. */
  ghost predicate Continues(owner: WTy, tys: seq<WTy>, i: nat, b: seq<byte>, done: seq<WVal>, at: seq<byte>)
    requires (forall j :: 0 <= j < |tys| ==> tys[j] < owner) && i <= |tys|
  {
    DecodeSeq(owner, tys, b) ==
      match DecodeSeq(owner, tys[i..], at)
      case None => None
      case Some(tail) => Some(Parsed(done + tail.val, tail.rest))
  }

  /** The elements of a list, a tuple or a struct, pushed as they are read. */
  method DecSeq(ghost owner: WTy, tys: seq<WTy>, r: Reader) returns (vs: Option<seq<WVal>>)
    requires r.Valid() && forall i :: 0 <= i < |tys| ==> tys[i] < owner
    modifies r
    ensures r.Valid() && r.pos >= old(r.pos)
    ensures match DecodeSeq(owner, tys, old(r.Rest()))
      case None => vs.None?
      case Some(p) => vs == Some(p.val) && r.Rest() == p.rest
    decreases owner, 0
  {
    var out: seq<WVal> := [];
    var i := 0;
    ghost var b := r.Rest();
    assert tys[0..] == tys;
    assert forall vs: seq<WVal> :: [] + vs == vs;
    while i < |tys|
      invariant 0 <= i <= |tys| && r.Valid() && r.pos >= old(r.pos)
      invariant Continues(owner, tys, i, b, out, r.Rest())
    {
      DecodeSeqSnoc(owner, tys, i, b, out, r.Rest());
      var v := Dec(tys[i], r);
      if v.None? { return None; }
      out := out + [v.value];
      i := i + 1;
    }
    assert out + [] == out;
    return Some(out);
  }

  /** `salvo_decode`: one frame is exactly one value. */
  method Decode(ty: WTy, data: seq<byte>) returns (v: Option<WVal>)
    ensures v == SalvoDecode(ty, data)
  {
    var r := new Reader(data);
    assert r.Rest() == data;
    v := Dec(ty, r);
    if v.None? { return None; }
    var done := r.Done();
    if !done { return None; }
  }

  // ---- encoding

  class Out {
    var bytes: seq<byte>

    constructor ()
      ensures bytes == []
    {
      bytes := [];
    }

    method Push(b: byte)
      modifies this
      ensures bytes == old(bytes) + [b]
    {
      bytes := bytes + [b];
    }

    method Extend(more: seq<byte>)
      modifies this
      ensures bytes == old(bytes) + more
    {
      bytes := bytes + more;
    }
  }

  /** `__enc`: appends the value's bytes. */
  method Enc(ty: WTy, v: WVal, out: Out)
    requires HasForm(ty, v)
    modifies out
    ensures out.bytes == old(out.bytes) + EncodeVal(ty, v)
    decreases ty, 1
  {
    match ty
    case StrT =>
      var text := Utf8.Encode(v.s);
      out.Extend(Be(|text| % TWO32, 4));
      out.Extend(text);
    case UnitT =>
    case ListT(elem) =>
      out.Extend(Be(|v.vals| % TWO32, 4));
      EncSeq(ty, Repeat(elem, |v.vals|), v.vals, out);
    case OptT(_) => EncOpt(ty, v, out);
    case TupleT(elems) => EncSeq(ty, elems, v.vals, out);
    case UnionT(_) => EncUnion(ty, v, out);
    case _ => out.Extend(Be(BitsOf(ty, v), FixedWidth(ty)));
  }

  method EncOpt(ty: WTy, v: WVal, out: Out)
    requires ty.OptT? && HasForm(ty, v)
    modifies out
    ensures out.bytes == old(out.bytes) + EncodeVal(ty, v)
    decreases ty, 0, 1
  {
    if v.NoneV? {
      out.Push(0);
    } else {
      out.Push(1);
      Enc(ty.inner, v.some, out);
      assert out.bytes == old(out.bytes) + ([1] + EncodeVal(ty.inner, v.some));
    }
  }

  method EncUnion(ty: WTy, v: WVal, out: Out)
    requires ty.UnionT? && HasForm(ty, v)
    modifies out
    ensures out.bytes == old(out.bytes) + EncodeVal(ty, v)
    decreases ty, 0, 1
  {
    out.Push(v.arm);
    Enc(ty.arms[v.arm], v.payload, out);
    assert out.bytes == old(out.bytes) + ([v.arm] + EncodeVal(ty.arms[v.arm], v.payload));
  }

  lemma StepOn(owner: WTy, tys: seq<WTy>, vs: seq<WVal>, i: nat, before: seq<byte>, total: seq<byte>)
    requires (forall j :: 0 <= j < |tys| ==> tys[j] < owner) && |tys| == |vs| && i < |tys|
    requires HaveForm(owner, tys[i..], vs[i..]) && before + EncodeSeq(owner, tys[i..], vs[i..]) == total
    ensures HaveForm(owner, tys[i + 1..], vs[i + 1..]) && HasForm(tys[i], vs[i])
    ensures before + EncodeVal(tys[i], vs[i]) + EncodeSeq(owner, tys[i + 1..], vs[i + 1..]) == total
  {
    assert tys[i..][1..] == tys[i + 1..] && vs[i..][1..] == vs[i + 1..];
    var tail := EncodeSeq(owner, tys[i + 1..], vs[i + 1..]);
    assert before + EncodeVal(tys[i], vs[i]) + tail == before + (EncodeVal(tys[i], vs[i]) + tail);
  }

  method EncSeq(ghost owner: WTy, tys: seq<WTy>, vs: seq<WVal>, out: Out)
    requires (forall i :: 0 <= i < |tys| ==> tys[i] < owner) && HaveForm(owner, tys, vs)
    modifies out
    ensures out.bytes == old(out.bytes) + EncodeSeq(owner, tys, vs)
    decreases owner, 0, 0
  {
    var i := 0;
    ghost var total := out.bytes + EncodeSeq(owner, tys, vs);
    assert tys[0..] == tys && vs[0..] == vs;
    while i < |tys|
      invariant 0 <= i <= |tys| == |vs| && HaveForm(owner, tys[i..], vs[i..])
      invariant out.bytes + EncodeSeq(owner, tys[i..], vs[i..]) == total
    {
      StepOn(owner, tys, vs, i, out.bytes, total);
      Enc(tys[i], vs[i], out);
      i := i + 1;
    }
  }

  method Encode(ty: WTy, v: WVal) returns (frame: seq<byte>)
    requires HasForm(ty, v)
    ensures frame == SalvoEncode(ty, v)
  {
    var out := new Out();
    Enc(ty, v, out);
    frame := out.bytes;
  }
}
