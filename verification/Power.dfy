/** `**` and the shifts, as the two backends spell them. */
module Power {
  import opened Basics
  import opened BigEndian
  import opened JvmInt

  // ---- products by repeated squaring

  /** The product repeated squaring makes, whatever multiplying means: `r`, then the squares of `x`
      at the bits of `n`, lowest first. */
  function Squaring<T>(mul: (T, T) -> T, x: T, n: nat, r: T): T
    decreases n
  {
    if n == 0 then r else Squaring(mul, mul(x, x), n / 2, if n % 2 == 1 then mul(r, x) else r)
  }

  /** `r` multiplied `n` times by `x`. */
  ghost function Repeated<T>(mul: (T, T) -> T, x: T, n: nat, r: T): T {
    if n == 0 then r else mul(Repeated(mul, x, n - 1, r), x)
  }

  ghost predicate Associative<T(!new)>(mul: (T, T) -> T) {
    forall a, b, c :: mul(mul(a, b), c) == mul(a, mul(b, c))
  }

  lemma {:induction false} TwiceIsSquared<T(!new)>(mul: (T, T) -> T, x: T, n: nat, r: T)
    requires Associative(mul)
    ensures Repeated(mul, mul(x, x), n, r) == Repeated(mul, x, 2 * n, r)
  {
    if n > 0 {
      TwiceIsSquared(mul, x, n - 1, r);
      var before := Repeated(mul, x, 2 * n - 2, r);
      assert Repeated(mul, x, 2 * n, r) == mul(mul(before, x), x);
    }
  }

  lemma {:induction false} FirstIsLast<T(!new)>(mul: (T, T) -> T, x: T, n: nat, r: T)
    ensures Repeated(mul, x, n, mul(r, x)) == Repeated(mul, x, n + 1, r)
  {
    if n > 0 { FirstIsLast(mul, x, n - 1, r); }
  }

  /** Where multiplying associates, repeated squaring multiplies `n` times. */
  lemma {:induction false} SquaringIsRepeated<T(!new)>(mul: (T, T) -> T, x: T, n: nat, r: T)
    requires Associative(mul)
    ensures Squaring(mul, x, n, r) == Repeated(mul, x, n, r)
    decreases n
  {
    if n > 0 {
      var r2 := if n % 2 == 1 then mul(r, x) else r;
      SquaringIsRepeated(mul, mul(x, x), n / 2, r2);
      TwiceIsSquared(mul, x, n / 2, r2);
      if n % 2 == 1 { FirstIsLast(mul, x, n - 1, r); }
    }
  }

  // ---- integers

  function Times(modulus: int): (int, int) -> int
    requires modulus > 0
  {
    (a: int, b: int) => Wrap(a * b, modulus)
  }

  ghost function Exact(b: int, e: nat): int {
    if e == 0 then 1 else Exact(b, e - 1) * b
  }

  lemma Shifted(n: int, m: int) returns (t: int)
    requires m > 0
    ensures Wrap(n, m) == n + t * m
  {
    var w := Wrap(n, m);
    assert n == m * (n / m) + n % m;
    if w == n % m {
      t := -(n / m);
      assert t * m == -(m * (n / m));
    } else {
      t := -(n / m) - 1;
      assert t * m == -(m * (n / m)) - m;
    }
  }

  /** Wrapping a factor does not change the wrapped product. */
  lemma WrapFactor(a: int, b: int, m: int)
    requires m > 0
    ensures Wrap(Wrap(a, m) * b, m) == Wrap(a * b, m)
    ensures Wrap(b * Wrap(a, m), m) == Wrap(a * b, m)
  {
    var t := Shifted(a, m);
    assert Wrap(a, m) * b == a * b + (t * b) * m;
    assert b * Wrap(a, m) == Wrap(a, m) * b;
    WrapOfShifted(a * b, t * b, m);
  }

  lemma Reassociated(a: int, b: int, c: int)
    ensures (a * b) * c == (b * c) * a
  {}

  lemma TimesThree(a: int, b: int, c: int, m: int)
    requires m > 0
    ensures Wrap(Wrap(a * b, m) * c, m) == Wrap(a * Wrap(b * c, m), m)
  {
    WrapFactor(a * b, c, m);
    WrapFactor(b * c, a, m);
    Reassociated(a, b, c);
  }

  lemma TimesAssociates(m: int)
    requires m > 0
    ensures Associative(Times(m))
  {
    forall a, b, c
      ensures Times(m)(Times(m)(a, b), c) == Times(m)(a, Times(m)(b, c))
    {
      TimesThree(a, b, c, m);
    }
  }

  lemma {:induction false} RepeatedIsExact(m: int, b: int, e: nat)
    requires m > 2
    ensures Repeated(Times(m), b, e, 1) == Wrap(Exact(b, e), m)
  {
    if e == 0 {
      WrapFacts(1, m);
    } else {
      RepeatedIsExact(m, b, e - 1);
      WrapFactor(Exact(b, e - 1), b, m);
    }
  }

  /** What `wrapping_pow` answers: the low bits of the exact power. A negative exponent panics. */
  ghost function WrappingPow(b: int, e: int, modulus: int): Option<int>
    requires modulus > 0
  {
    if e < 0 then None else Some(Wrap(Exact(b, e), modulus))
  }

  /** The JVM's loop over `Int` or `Long` answers what `wrapping_pow` does, for every base and
      exponent, and throws where it panics. */
  method IntegerPow(b: int, e: int, modulus: int) returns (r: Option<int>)
    requires modulus == TWO32 || modulus == TWO64
    ensures r == WrappingPow(b, e, modulus)
  {
    if e < 0 { return None; }
    ghost var mul := Times(modulus);
    var x, n, product := b, e, 1;
    while n > 0
      invariant n >= 0 && Squaring(mul, x, n, product) == Squaring(mul, b, e, 1)
    {
      if n % 2 == 1 { product := Wrap(product * x, modulus); }
      x := Wrap(x * x, modulus);
      n := n / 2;
    }
    TimesAssociates(modulus);
    SquaringIsRepeated(mul, b, e, 1);
    RepeatedIsExact(modulus, b, e);
    return Some(product);
  }

  // ---- doubles, with an arithmetic of their own

  /** What `Double ** Int` is: the squaring product of the magnitude, inverted below zero. */
  ghost function DoublePowOf<D>(mul: (D, D) -> D, invert: D -> D, one: D, x: D, e: int): D {
    var product := Squaring(mul, x, if e < 0 then -e else e, one);
    if e < 0 then invert(product) else product
  }

  /** The JVM's spelling: the magnitude is taken as a `Long`. */
  method JvmDoublePow<D>(mul: (D, D) -> D, invert: D -> D, one: D, base: D, e: int) returns (r: D)
    requires Fits(e, TWO32)
    ensures r == DoublePowOf(mul, invert, one, base, e)
  {
    WrapFacts(-e, TWO64);
    var x, n, product := base, if e < 0 then Wrap(-e, TWO64) else e, one;
    while n > 0
      invariant n >= 0 && Squaring(mul, x, n, product) == Squaring(mul, base, if e < 0 then -e else e, one)
    {
      if n % 2 == 1 { product := mul(product, x); }
      x := mul(x, x);
      n := n / 2;
    }
    return if e < 0 then invert(product) else product;
  }

  /** Rust's: `unsigned_abs`, in 32 bits without a sign. */
  method RustDoublePow<D>(mul: (D, D) -> D, invert: D -> D, one: D, base: D, e: int) returns (r: D)
    requires Fits(e, TWO32)
    ensures r == DoublePowOf(mul, invert, one, base, e)
  {
    var magnitude := if e < 0 then (TWO32 - ToUnsigned(e, TWO32)) % TWO32 else ToUnsigned(e, TWO32);
    var x, n, product := base, magnitude, one;
    while n > 0
      invariant n >= 0 && Squaring(mul, x, n, product) == Squaring(mul, base, if e < 0 then -e else e, one)
    {
      if n % 2 == 1 { product := mul(product, x); }
      x := mul(x, x);
      n := n / 2;
    }
    return if e < 0 then invert(product) else product;
  }

  /** In 32 bits the magnitude of the smallest `Int` has the wrong sign: taking it as a `Long`
      is what keeps the two alike. */
  lemma SmallestIntHasNoMagnitude(e: int)
    requires Fits(e, TWO32)
    ensures Wrap(-e, TWO32) == -e <==> e != -0x8000_0000
    ensures Wrap(-e, TWO64) == -e
  {
    WrapFacts(-e, TWO32);
    WrapFacts(-e, TWO64);
    if e == -0x8000_0000 { assert Wrap(0x8000_0000, TWO32) == -0x8000_0000; }
  }

  // ---- shifts

  /** The JVM shifts by the low bits of the count; so many as index a bit of the word. */
  function JvmCount(n: int, bits: nat): nat
    requires Fits(n, TWO32)
  {
    BitAnd(ToUnsigned(n, TWO32), if bits == 64 then 63 else 31)
  }

  /** Rust's `wrapping_shl` and `wrapping_shr`, handed the count as a `u32`, take it modulo the
      width. */
  function RustCount(n: int, bits: nat): nat
    requires Fits(n, TWO32) && bits > 0
  {
    ToUnsigned(n, TWO32) % bits
  }

  /** Both shift by the count modulo the width, negative counts included. */
  lemma CountsAgree(n: int, bits: nat)
    requires Fits(n, TWO32) && (bits == 32 || bits == 64)
    ensures JvmCount(n, bits) == RustCount(n, bits) == n % bits
  {
    assert Pow2(4) == 16;
    assert Pow2(6) == 4 * Pow2(4);
    AndOfMask(ToUnsigned(n, TWO32), if bits == 64 then 6 else 5);
    assert TWO32 == (TWO32 / 64) * 64;
    if n < 0 {
      assert ToUnsigned(n, TWO32) == n + TWO32;
      WrapOfShifted(n, TWO32 / bits, bits);
    }
  }

  // The JVM's shifts are defined on numbers (section 15.19 of the Java Language Specification),
  // Rust's on the bits of a word.

  /** `>>`: the quotient by a power of two, rounded down. */
  function JvmShr(a: int, k: nat): int {
    a / Pow2(k)
  }

  /** `>>>`: the same for a number that is not negative, else with `2^(bits - k)` added. */
  function JvmUshr(a: int, k: nat, bits: nat): int
    requires k < bits
  {
    if a >= 0 then JvmShr(a, k) else Wrap(JvmShr(a, k) + Pow2(bits - k), Pow2(bits))
  }

  /** `<<` on the bits: those shifted out are dropped. */
  function RustShl(a: int, k: nat, bits: nat): int
    requires Fits(a, Pow2(bits))
  {
    ToSigned(ToUnsigned(a, Pow2(bits)) * Pow2(k) % Pow2(bits), Pow2(bits))
  }

  /** `>>` of an unsigned word: zeros come in. */
  function BitsRight(a: int, k: nat, bits: nat): nat
    requires Fits(a, Pow2(bits))
  {
    ToUnsigned(a, Pow2(bits)) / Pow2(k)
  }

  /** `>>` of a signed word: copies of the sign come in. */
  function RustShr(a: int, k: nat, bits: nat): int
    requires Fits(a, Pow2(bits)) && k < bits
  {
    if a >= 0 then BitsRight(a, k, bits)
    else BitOr((Pow2(k) - 1) * Pow2(bits - k), BitsRight(a, k, bits)) - Pow2(bits)
  }

  function RustUshr(a: int, k: nat, bits: nat): int
    requires Fits(a, Pow2(bits))
  {
    Wrap(BitsRight(a, k, bits), Pow2(bits))
  }

  lemma Distributed(a: int, b: int, c: int)
    ensures (a + b) * c == a * c + c * b
  {}

  lemma ShlsAgree(a: int, k: nat, bits: nat)
    requires Fits(a, Pow2(bits))
    ensures RustShl(a, k, bits) == Shl(a, k, Pow2(bits))
  {
    var m := Pow2(bits);
    if a < 0 {
      Distributed(a, m, Pow2(k));
      WrapOfShifted(a * Pow2(k), Pow2(k), m);
    }
  }

  /** Adding a multiple of the divisor adds to the quotient. */
  lemma QuotientOfShifted(a: int, q: int, d: int)
    requires d > 0
    ensures (a + q * d) / d == a / d + q
  {
    assert a + q * d == d * (a / d + q) + a % d by {
      assert a == d * (a / d) + a % d;
      assert d * (a / d + q) == d * (a / d) + q * d;
    }
    DivisionIsUnique(a + q * d, d, a / d + q, a % d);
  }

  lemma BitsRightOfNegative(a: int, k: nat, bits: nat)
    requires a < 0 && Fits(a, Pow2(bits)) && k < bits
    ensures BitsRight(a, k, bits) == JvmShr(a, k) + Pow2(bits - k)
    ensures BitsRight(a, k, bits) < Pow2(bits - k)
  {
    Pow2Add(bits - k, k);
    QuotientOfShifted(a, Pow2(bits - k), Pow2(k));
    NegativeQuotient(a, Pow2(k));
  }

  lemma NegativeQuotient(a: int, d: int)
    requires a < 0 && d > 0
    ensures a / d < 0
  {
    QuotientNotAbove(d, a / d, a % d, -1, a + d);
  }

  lemma OnceLess(a: int, b: int)
    ensures (a - 1) * b == a * b - b
  {}

  lemma ShrsAgree(a: int, k: nat, bits: nat)
    requires Fits(a, Pow2(bits)) && k < bits
    ensures RustShr(a, k, bits) == JvmShr(a, k)
  {
    if a < 0 {
      BitsRightOfNegative(a, k, bits);
      OrOfDisjoint(Pow2(k) - 1, BitsRight(a, k, bits), bits - k);
      Pow2Add(k, bits - k);
      OnceLess(Pow2(k), Pow2(bits - k));
    }
  }

  lemma UshrsAgree(a: int, k: nat, bits: nat)
    requires Fits(a, Pow2(bits)) && k < bits
    ensures RustUshr(a, k, bits) == JvmUshr(a, k, bits)
  {
    if a < 0 {
      BitsRightOfNegative(a, k, bits);
    } else {
      QuotientNotMore(a, Pow2(k));
      WrapFacts(JvmShr(a, k), Pow2(bits));
    }
  }

  lemma QuotientNotMore(a: nat, d: int)
    requires d > 0
    ensures 0 <= a / d <= a
  {
    assert a == d * (a / d) + a % d;
    QuotientNotAbove(d, 0, a, a / d, a % d);
    if a > 0 { AtLeastOnce(a, d); }
    QuotientNotAbove(d, a / d, a % d, a, a - d * a);
  }

  /** Both backends' three shifts answer alike for every value and every count. */
  lemma ShiftsAgree(a: int, n: int, bits: nat)
    requires (bits == 32 || bits == 64) && Fits(a, Pow2(bits)) && Fits(n, TWO32)
    ensures Pow2(bits) == if bits == 32 then TWO32 else TWO64
    ensures var jvm, rust := JvmCount(n, bits), RustCount(n, bits);
      && jvm < bits && rust < bits
      && RustShl(a, rust, bits) == Shl(a, jvm, Pow2(bits))
      && RustShr(a, rust, bits) == JvmShr(a, jvm)
      && RustUshr(a, rust, bits) == JvmUshr(a, jvm, bits)
  {
    WordPowers();
    CountsAgree(n, bits);
    ShlsAgree(a, RustCount(n, bits), bits);
    ShrsAgree(a, RustCount(n, bits), bits);
    UshrsAgree(a, RustCount(n, bits), bits);
  }
}
