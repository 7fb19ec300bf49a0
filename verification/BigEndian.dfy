/** Big-endian bytes of a number, and two's complement. */
module BigEndian {
  import opened Basics
  import opened Utf8

  const TWO32: int := 0x1_0000_0000
  const TWO64: int := 0x1_0000_0000_0000_0000

  function Pow256(k: nat): (p: nat)
    ensures p > 0
  {
    if k == 0 then 1 else 0x100 * Pow256(k - 1)
  }

  /** The low `k` bytes of `n`, most significant first. */
  function Be(n: nat, k: nat): (b: seq<byte>)
    ensures |b| == k
  {
    if k == 0 then [] else Be(n / 0x100, k - 1) + [n % 0x100]
  }

  function FromBe(b: seq<byte>): (n: nat)
    ensures n < Pow256(|b|)
    ensures (|b| == 4 ==> n < TWO32) && (|b| == 8 ==> n < TWO64)
  {
    Pow256At4And8();
    if b == [] then 0
    else
      var high := FromBe(b[..|b| - 1]);
      0x100 * high + b[|b| - 1]
  }

  lemma {:induction false} FromBeBe(n: nat, k: nat)
    requires n < Pow256(k)
    ensures FromBe(Be(n, k)) == n
  {
    if k > 0 {
      var b := Be(n, k);
      assert b[..k - 1] == Be(n / 0x100, k - 1);
      assert n == 0x100 * (n / 0x100) + n % 0x100;
      FromBeBe(n / 0x100, k - 1);
    }
  }

  lemma {:induction false} BeFromBe(b: seq<byte>)
    ensures Be(FromBe(b), |b|) == b
  {
    if b != [] {
      var high, last := FromBe(b[..|b| - 1]), b[|b| - 1];
      assert (0x100 * high + last) / 0x100 == high && (0x100 * high + last) % 0x100 == last;
      BeFromBe(b[..|b| - 1]);
      assert b == b[..|b| - 1] + [last];
    }
  }

  lemma Pow256At4And8()
    ensures Pow256(4) == TWO32 && Pow256(8) == TWO64
  {
    assert Pow256(1) == 0x100;
    assert Pow256(2) == 0x1_0000;
    assert Pow256(3) == 0x100_0000;
    assert Pow256(4) == TWO32;
    assert Pow256(5) == 0x100_0000_0000;
    assert Pow256(6) == 0x1_0000_0000_0000;
    assert Pow256(7) == 0x100_0000_0000_0000;
  }

  // ---- two's complement

  function ToUnsigned(n: int, modulus: int): (u: nat)
    requires modulus > 0 && -modulus <= n < modulus
    ensures u < modulus
  {
    if n < 0 then n + modulus else n
  }

  function ToSigned(u: nat, modulus: int): (n: int)
    requires u < modulus
    ensures -modulus <= 2 * n < modulus
  {
    if 2 * u >= modulus then u - modulus else u
  }
}
