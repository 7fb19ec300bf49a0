/** The JVM's `Int` and `Long` operators, on the numbers they stand for. */
module JvmInt {
  import opened Basics
  import opened BigEndian

  /** `n` reduced to a two's complement word of the given modulus. */
  function Wrap(n: int, modulus: int): (w: int)
    requires modulus > 0
    ensures -modulus <= 2 * w < modulus
  {
    ToSigned(n % modulus, modulus)
  }

  predicate Fits(n: int, modulus: int) {
    -modulus <= 2 * n < modulus
  }

  function Pow2(k: nat): (p: nat)
    ensures p > 0
  {
    if k == 0 then 1 else 2 * Pow2(k - 1)
  }

  lemma TwiceTimes(a: int, b: int)
    ensures (2 * a) * b == 2 * (a * b)
  {}

  lemma {:induction false} Pow2Add(a: nat, b: nat)
    ensures Pow2(a + b) == Pow2(a) * Pow2(b)
  {
    if a > 0 {
      Pow2Add(a - 1, b);
      TwiceTimes(Pow2(a - 1), Pow2(b));
    }
  }

  lemma PowerDoubled(k: nat, p: int)
    requires Pow2(k) == p
    ensures Pow2(2 * k) == p * p
  {
    Pow2Add(k, k);
  }

  lemma WordPowers()
    ensures Pow2(30) == 0x4000_0000 && Pow2(31) == 0x8000_0000 && Pow2(32) == TWO32 && Pow2(64) == TWO64
  {
    PowerDoubled(1, 2);
    PowerDoubled(2, 4);
    PowerDoubled(4, 0x10);
    PowerDoubled(8, 0x100);
    PowerDoubled(16, 0x1_0000);
    PowerDoubled(32, TWO32);
  }

  // ---- bitwise operations on naturals, bit by bit

  function BitOr(a: nat, b: nat): nat
    decreases a + b
  {
    if a == 0 then b else if b == 0 then a
    else 2 * BitOr(a / 2, b / 2) + (if a % 2 == 1 || b % 2 == 1 then 1 else 0)
  }

  function BitAnd(a: nat, b: nat): nat
    decreases a
  {
    if a == 0 || b == 0 then 0
    else 2 * BitAnd(a / 2, b / 2) + (if a % 2 == 1 && b % 2 == 1 then 1 else 0)
  }

  /** Numbers whose bits do not overlap are added by `or`. */
  lemma {:induction false} OrOfDisjoint(high: nat, low: nat, k: nat)
    requires low < Pow2(k)
    ensures BitOr(high * Pow2(k), low) == high * Pow2(k) + low
    decreases k
  {
    if k > 0 && high > 0 && low > 0 {
      var a := high * Pow2(k);
      assert a == 2 * (high * Pow2(k - 1));
      assert a / 2 == high * Pow2(k - 1) && a % 2 == 0;
      assert low == 2 * (low / 2) + low % 2;
      OrOfDisjoint(high, low / 2, k - 1);
    }
  }

  lemma AndWithOdd(n: nat, mask: nat, half: nat)
    requires n > 0 && mask == 2 * half + 1
    ensures BitAnd(n, mask) == 2 * BitAnd(n / 2, half) + n % 2
  {
    assert mask / 2 == half && mask % 2 == 1;
  }

  lemma MaskOneMore(n: nat, k: nat)
    requires n > 0 && k > 0 && BitAnd(n / 2, Pow2(k - 1) - 1) == n / 2 % Pow2(k - 1)
    ensures BitAnd(n, Pow2(k) - 1) == n % Pow2(k)
  {
    AndWithOdd(n, Pow2(k) - 1, Pow2(k - 1) - 1);
    HalveMod(n, Pow2(k - 1));
  }

  /** Masking with `k` ones keeps the low `k` bits. */
  lemma {:induction false} AndOfMask(n: nat, k: nat)
    ensures BitAnd(n, Pow2(k) - 1) == n % Pow2(k)
    decreases k
  {
    if k == 0 {
      assert n % 1 == 0;
    } else if n == 0 {
      SmallMod(0, Pow2(k));
    } else {
      AndOfMask(n / 2, k - 1);
      MaskOneMore(n, k);
    }
  }

  lemma HalveMod(n: nat, m: nat)
    requires m > 0
    ensures n % (2 * m) == 2 * (n / 2 % m) + n % 2
  {
    var q, r := n / 2 / m, n / 2 % m;
    assert n / 2 == m * q + r;
    assert n == 2 * (n / 2) + n % 2;
    assert n == 2 * m * q + (2 * r + n % 2);
    DivisionIsUnique(n, 2 * m, q, 2 * r + n % 2);
  }

  lemma AtLeastOnce(d: int, x: int)
    requires d > 0 && x >= 1
    ensures d * x >= d
  {
  }

  lemma QuotientNotAbove(d: int, q: int, r: int, q2: int, r2: int)
    requires d > 0 && d * q + r == d * q2 + r2 && 0 <= r && r2 < d
    ensures q <= q2
  {
    assert d * (q - q2) == d * q - d * q2;
    if q > q2 { AtLeastOnce(d, q - q2); }
  }

  lemma DivisionIsUnique(n: int, d: int, q: int, r: int)
    requires d > 0 && n == d * q + r && 0 <= r < d
    ensures n / d == q && n % d == r
  {
    var q2, r2 := n / d, n % d;
    assert n == d * q2 + r2;
    QuotientNotAbove(d, q, r, q2, r2);
    QuotientNotAbove(d, q2, r2, q, r);
  }

  lemma SmallMod(x: int, m: int)
    requires 0 <= x < m
    ensures x % m == x
  {
    DivisionIsUnique(x, m, 0, x);
  }

  /** Wrapping keeps the residue, and a number that fits. */
  lemma WrapFacts(n: int, m: int)
    requires m > 0
    ensures ToUnsigned(Wrap(n, m), m) == n % m
    ensures 0 <= n < m ==> ToUnsigned(Wrap(n, m), m) == n
    ensures Fits(n, m) ==> Wrap(n, m) == n
  {
    if 0 <= n < m { SmallMod(n, m); }
    if Fits(n, m) && n < 0 { DivisionIsUnique(n, m, -1, n + m); }
  }

  /** Numbers a multiple of the modulus apart are one word. */
  lemma WrapOfShifted(n: int, k: int, m: int)
    requires m > 0
    ensures (n + k * m) % m == n % m && Wrap(n + k * m, m) == Wrap(n, m)
  {
    var q, r := n / m, n % m;
    assert m * (q + k) == m * q + k * m;
    DivisionIsUnique(n + k * m, m, q + k, r);
  }

  // ---- the operators

  function Or(a: int, b: int, modulus: int): int
    requires modulus > 0 && Fits(a, modulus) && Fits(b, modulus)
  {
    Wrap(BitOr(ToUnsigned(a, modulus), ToUnsigned(b, modulus)), modulus)
  }

  function And(a: int, b: int, modulus: int): int
    requires modulus > 0 && Fits(a, modulus) && Fits(b, modulus)
  {
    Wrap(BitAnd(ToUnsigned(a, modulus), ToUnsigned(b, modulus)), modulus)
  }

  function Shl(a: int, k: nat, modulus: int): int
    requires modulus > 0
  {
    Wrap(a * Pow2(k), modulus)
  }

  function Ushr(a: int, k: nat, modulus: int): int
    requires modulus > 0 && Fits(a, modulus)
  {
    Wrap(ToUnsigned(a, modulus) / Pow2(k), modulus)
  }
}
