/** `WireOut` and `WireIn` on numbers: the shifts and masks of the Kotlin codec write and read
    the same big-endian bytes as the unsigned arithmetic of the Rust one. */
module JvmBytes {
  import opened Basics
  import opened Utf8
  import opened BigEndian
  import JvmInt

  lemma Powers()
    ensures JvmInt.Pow2(0) == 1 && JvmInt.Pow2(8) == 0x100 && JvmInt.Pow2(16) == 0x1_0000
    ensures JvmInt.Pow2(24) == 0x100_0000 && JvmInt.Pow2(32) == TWO32
  {
    assert JvmInt.Pow2(4) == 0x10;
    assert JvmInt.Pow2(8) == 0x100;
    assert JvmInt.Pow2(12) == 0x1000;
    assert JvmInt.Pow2(16) == 0x1_0000;
    assert JvmInt.Pow2(20) == 0x10_0000;
    assert JvmInt.Pow2(24) == 0x100_0000;
    assert JvmInt.Pow2(28) == 0x1000_0000;
  }

  // ---- writing

  lemma AndLowByte(b: int)
    requires JvmInt.Fits(b, TWO32)
    ensures JvmInt.And(b, 0xff, TWO32) == ToUnsigned(b, TWO32) % 0x100
  {
    Powers();
    var u := ToUnsigned(b, TWO32);
    JvmInt.AndOfMask(u, 8);
    assert ToUnsigned(0xff, TWO32) == 0xff;
    JvmInt.WrapFacts(u % 0x100, TWO32);
  }

  /** `b and 0xff`. */
  function LowByte(b: int): (r: byte)
    requires JvmInt.Fits(b, TWO32)
    ensures r == ToUnsigned(b, TWO32) % 0x100
  {
    AndLowByte(b);
    JvmInt.And(b, 0xff, TWO32)
  }

  function WriteI32(v: int): (b: seq<byte>)
    requires JvmInt.Fits(v, TWO32)
  {
    [LowByte(JvmInt.Ushr(v, 24, TWO32)), LowByte(JvmInt.Ushr(v, 16, TWO32)), LowByte(JvmInt.Ushr(v, 8, TWO32)), LowByte(v)]
  }

  function WriteI64(v: int): (b: seq<byte>)
    requires JvmInt.Fits(v, TWO64)
  {
    WriteI32(JvmInt.Wrap(JvmInt.Ushr(v, 32, TWO64), TWO32)) + WriteI32(JvmInt.Wrap(v, TWO32))
  }

  lemma BeOfFour(u: nat)
    ensures Be(u, 4) == [u / 0x100_0000 % 0x100, u / 0x1_0000 % 0x100, u / 0x100 % 0x100, u % 0x100]
  {
    assert Be(u / 0x100_0000, 1) == [] + [u / 0x100_0000 % 0x100];
    assert Be(u / 0x1_0000, 2) == Be(u / 0x100_0000, 1) + [u / 0x1_0000 % 0x100];
    assert Be(u / 0x100, 3) == Be(u / 0x1_0000, 2) + [u / 0x100 % 0x100];
  }

  lemma ShiftedByte(v: int, k: nat)
    requires JvmInt.Fits(v, TWO32) && (k == 8 || k == 16 || k == 24)
    ensures LowByte(JvmInt.Ushr(v, k, TWO32)) == ToUnsigned(v, TWO32) / JvmInt.Pow2(k) % 0x100
  {
    Powers();
    var u := ToUnsigned(v, TWO32);
    var q := u / JvmInt.Pow2(k);
    assert 0 <= q < 0x100_0000 by {
      if k == 8 { assert q == u / 0x100; } else if k == 16 { assert q == u / 0x1_0000; } else { assert q == u / 0x100_0000; }
    }
    JvmInt.WrapFacts(q, TWO32);
  }

  /** The signed writer's four bytes are the unsigned big-endian ones. */
  lemma WriteI32IsBe(v: int)
    requires JvmInt.Fits(v, TWO32)
    ensures WriteI32(v) == Be(ToUnsigned(v, TWO32), 4)
  {
    Powers();
    BeOfFour(ToUnsigned(v, TWO32));
    ShiftedByte(v, 8);
    ShiftedByte(v, 16);
    ShiftedByte(v, 24);
  }

  lemma BeSplits(high: nat, low: nat, k: nat)
    requires low < Pow256(k)
    ensures Be(high * Pow256(k) + low, k + 4) == Be(high, 4) + Be(low, k)
    decreases k
  {
    if k > 0 {
      var n := high * Pow256(k) + low;
      var rest := high * Pow256(k - 1) + low / 0x100;
      assert high * Pow256(k) == 0x100 * (high * Pow256(k - 1));
      assert n == 0x100 * rest + low % 0x100;
      JvmInt.DivisionIsUnique(n, 0x100, rest, low % 0x100);
      BeSplits(high, low / 0x100, k - 1);
      assert Be(high, 4) + Be(low / 0x100, k - 1) + [low % 0x100] == Be(high, 4) + (Be(low / 0x100, k - 1) + [low % 0x100]);
    } else {
      assert high * Pow256(0) == high;
      assert Be(high, 4) + [] == Be(high, 4);
    }
  }

  lemma HighWord(v: int)
    requires JvmInt.Fits(v, TWO64)
    ensures ToUnsigned(JvmInt.Wrap(JvmInt.Ushr(v, 32, TWO64), TWO32), TWO32) == ToUnsigned(v, TWO64) / TWO32
  {
    Powers();
    var q := ToUnsigned(v, TWO64) / TWO32;
    assert 0 <= q < TWO32;
    JvmInt.WrapFacts(q, TWO64);
    JvmInt.WrapFacts(q, TWO32);
  }

  lemma LowWord(v: int)
    requires JvmInt.Fits(v, TWO64)
    ensures ToUnsigned(JvmInt.Wrap(v, TWO32), TWO32) == ToUnsigned(v, TWO64) % TWO32
  {
    JvmInt.WrapFacts(v, TWO32);
  }

  lemma WriteI64IsBe(v: int)
    requires JvmInt.Fits(v, TWO64)
    ensures WriteI64(v) == Be(ToUnsigned(v, TWO64), 8)
  {
    Pow256At4And8();
    var u := ToUnsigned(v, TWO64);
    var high, low := u / TWO32, u % TWO32;
    assert u == high * TWO32 + low;
    HighWord(v);
    LowWord(v);
    WriteI32IsBe(JvmInt.Wrap(JvmInt.Ushr(v, 32, TWO64), TWO32));
    WriteI32IsBe(JvmInt.Wrap(v, TWO32));
    BeSplits(high, low, 4);
  }

  // ---- reading

  function ReadI32(b0: byte, b1: byte, b2: byte, b3: byte): (v: int)
    ensures JvmInt.Fits(v, TWO32)
  {
    JvmInt.Or(JvmInt.Or(JvmInt.Or(
      JvmInt.Shl(b0, 24, TWO32), JvmInt.Shl(b1, 16, TWO32), TWO32),
      JvmInt.Shl(b2, 8, TWO32), TWO32), b3, TWO32)
  }

  function ReadI64(high: int, low: int): (v: int)
    requires JvmInt.Fits(high, TWO32) && JvmInt.Fits(low, TWO32)
    ensures JvmInt.Fits(v, TWO64)
  {
    JvmInt.Or(JvmInt.Shl(high, 32, TWO64), JvmInt.And(low, 0xffff_ffff, TWO64), TWO64)
  }

  lemma FromBeOfFour(b0: byte, b1: byte, b2: byte, b3: byte)
    ensures FromBe([b0, b1, b2, b3]) == ((b0 * 0x100 + b1) * 0x100 + b2) * 0x100 + b3
  {
    FromBeSnoc([], b0);
    FromBeSnoc([b0], b1);
    FromBeSnoc([b0, b1], b2);
    FromBeSnoc([b0, b1, b2], b3);
    assert [] + [b0] == [b0] && [b0] + [b1] == [b0, b1] && [b0, b1] + [b2] == [b0, b1, b2];
    assert [b0, b1, b2] + [b3] == [b0, b1, b2, b3];
  }

  /** An `or` of words that do not overlap, read unsigned. */
  lemma OrIsSum(a: int, b: int, high: nat, k: nat, modulus: int)
    requires modulus > 0 && JvmInt.Fits(a, modulus) && JvmInt.Fits(b, modulus)
    requires ToUnsigned(a, modulus) == high * JvmInt.Pow2(k) && ToUnsigned(b, modulus) < JvmInt.Pow2(k)
    requires ToUnsigned(a, modulus) + ToUnsigned(b, modulus) < modulus
    ensures ToUnsigned(JvmInt.Or(a, b, modulus), modulus) == ToUnsigned(a, modulus) + ToUnsigned(b, modulus)
  {
    JvmInt.OrOfDisjoint(high, ToUnsigned(b, modulus), k);
    JvmInt.WrapFacts(ToUnsigned(a, modulus) + ToUnsigned(b, modulus), modulus);
  }

  lemma SignedOfUnsigned(v: int, u: nat, modulus: int)
    requires modulus > 0 && JvmInt.Fits(v, modulus) && u < modulus && ToUnsigned(v, modulus) == u
    ensures v == ToSigned(u, modulus)
  {
  }

  lemma ProductBound(b: nat, p: nat, bMax: nat, pMax: nat)
    requires b <= bMax && p <= pMax
    ensures 0 <= b * p <= bMax * pMax
  {
    assert b * p <= b * pMax;
    assert b * pMax <= bMax * pMax;
  }

  lemma ShlOfByte(b: byte, k: nat, p: nat)
    requires JvmInt.Pow2(k) == p && p <= 0x100_0000
    ensures ToUnsigned(JvmInt.Shl(b, k, TWO32), TWO32) == b * p < TWO32
  {
    ProductBound(b, p, 0xff, 0x100_0000);
    var n := b * p;
    assert JvmInt.Shl(b, k, TWO32) == JvmInt.Wrap(n, TWO32);
    JvmInt.WrapFacts(n, TWO32);
  }

  /** The signed reader's word is the unsigned one, in two's complement. */
  lemma ReadI32IsFromBe(b0: byte, b1: byte, b2: byte, b3: byte)
    ensures ReadI32(b0, b1, b2, b3) == ToSigned(FromBe([b0, b1, b2, b3]), TWO32)
  {
    Powers();
    FromBeOfFour(b0, b1, b2, b3);
    var s0, s1, s2 := JvmInt.Shl(b0, 24, TWO32), JvmInt.Shl(b1, 16, TWO32), JvmInt.Shl(b2, 8, TWO32);
    ShlOfByte(b0, 24, 0x100_0000);
    ShlOfByte(b1, 16, 0x1_0000);
    ShlOfByte(b2, 8, 0x100);
    OrIsSum(s0, s1, b0, 24, TWO32);
    var t1 := JvmInt.Or(s0, s1, TWO32);
    OrIsSum(t1, s2, b0 * 0x100 + b1, 16, TWO32);
    var t2 := JvmInt.Or(t1, s2, TWO32);
    OrIsSum(t2, b3, (b0 * 0x100 + b1) * 0x100 + b2, 8, TWO32);
    SignedOfUnsigned(ReadI32(b0, b1, b2, b3), FromBe([b0, b1, b2, b3]), TWO32);
  }

  lemma FromBeSnoc(b: seq<byte>, last: byte)
    ensures FromBe(b + [last]) == 0x100 * FromBe(b) + last
  {
    assert (b + [last])[..|b|] == b;
  }

  lemma Distribute(a: nat, p: nat, c: nat)
    ensures 0x100 * (a * p + c) == a * (0x100 * p) + 0x100 * c
  {
  }

  lemma {:induction false} FromBeSplits(a: seq<byte>, b: seq<byte>)
    ensures FromBe(a + b) == FromBe(a) * Pow256(|b|) + FromBe(b)
    decreases |b|
  {
    if b == [] {
      assert a + b == a;
    } else {
      var init, last := b[..|b| - 1], b[|b| - 1];
      assert a + b == (a + init) + [last];
      FromBeSnoc(a + init, last);
      FromBeSplits(a, init);
      Distribute(FromBe(a), Pow256(|init|), FromBe(init));
    }
  }

  lemma ReadI64IsFromBe(a: seq<byte>, b: seq<byte>)
    requires |a| == 4 && |b| == 4
    ensures ReadI64(ToSigned(FromBe(a), TWO32), ToSigned(FromBe(b), TWO32)) == ToSigned(FromBe(a + b), TWO64)
  {
    Powers();
    Pow256At4And8();
    FromBeSplits(a, b);
    var high, low := ToSigned(FromBe(a), TWO32), ToSigned(FromBe(b), TWO32);
    ShlOfWord(high);
    MaskOfWord(low);
    OrIsSum(JvmInt.Shl(high, 32, TWO64), JvmInt.And(low, 0xffff_ffff, TWO64), FromBe(a), 32, TWO64);
    SignedOfUnsigned(ReadI64(high, low), FromBe(a + b), TWO64);
  }

  lemma ShlOfWord(high: int)
    requires JvmInt.Fits(high, TWO32)
    ensures ToUnsigned(JvmInt.Shl(high, 32, TWO64), TWO64) == ToUnsigned(high, TWO32) * TWO32
  {
    Powers();
    JvmInt.WrapFacts(high * TWO32, TWO64);
    if high < 0 { assert (high * TWO32) % TWO64 == high * TWO32 + TWO64; }
  }

  /** The low word of a sign-extended one is the word. */
  lemma SignExtended(low: int)
    requires JvmInt.Fits(low, TWO32)
    ensures ToUnsigned(low, TWO64) % TWO32 == ToUnsigned(low, TWO32)
  {
    if low < 0 {
      JvmInt.DivisionIsUnique(low + TWO64, TWO32, TWO32 - 1, low + TWO32);
    } else {
      JvmInt.SmallMod(low, TWO32);
    }
  }

  lemma MaskOfWord(low: int)
    requires JvmInt.Fits(low, TWO32)
    ensures ToUnsigned(JvmInt.And(low, 0xffff_ffff, TWO64), TWO64) == ToUnsigned(low, TWO32)
  {
    Powers();
    var u := ToUnsigned(low, TWO64);
    JvmInt.AndOfMask(u, 32);
    SignExtended(low);
    JvmInt.WrapFacts(u % TWO32, TWO64);
  }
}
