/** How a growable buffer's capacity is chosen: doubled, in `Int` arithmetic, until there is room. */
module Growth {
  import opened Basics
  import opened BigEndian
  import opened JvmInt

  const INT: int := 0x1_0000_0000
  const MAX_INT: int := 0x7fff_ffff
  const SMALLEST: int := 16
  const SAFE: int := 0x4000_0000

  /** The capacity reached from `cap` in at most `rounds` doublings. */
  function Grown(cap: int, need: int, rounds: nat): Option<int>
    decreases rounds
  {
    if cap >= need then Some(cap)
    else if rounds == 0 then None
    else Grown(Wrap(2 * cap, INT), need, rounds - 1)
  }

  function Start(size: nat): int {
    if size < SMALLEST then SMALLEST else size
  }

  /** Whether a buffer of `size` bytes gets room for `need`. */
  predicate CanGrow(size: nat, need: int) {
    need <= size || Grown(Start(size), need, 32).Some?
  }

  // ---- a loop that does not end

  /** A wrapped number and the words taken from it. */
  lemma WrapIsShifted(n: int) returns (t: int)
    ensures Wrap(n, INT) == n + t * INT
  {
    t := (Wrap(n, INT) - n) / INT;
    assert n == INT * (n / INT) + n % INT;
    var w := Wrap(n, INT);
    assert w == n % INT || w == n % INT - INT;
    if w == n % INT { t := -(n / INT); } else { t := -(n / INT) - 1; }
  }

  lemma {:induction false} ZeroStays(need: int, rounds: nat)
    requires need > 0
    ensures Grown(0, need, rounds) == None
  {
    if rounds > 0 {
      WrapFacts(0, INT);
      ZeroStays(need, rounds - 1);
    }
  }

  lemma Regroup(m: int, d: int, h: int, t: int)
    requires (2 * d) * h == INT
    ensures 2 * (m * d) + t * INT == (m + t * h) * (2 * d)
  {
    assert (m + t * h) * (2 * d) == m * (2 * d) + (t * h) * (2 * d);
    assert (t * h) * (2 * d) == t * ((2 * d) * h);
    assert m * (2 * d) == 2 * (m * d);
  }

  /** `cap` is a multiple of `d`, and `d` reaches a whole word in `left` doublings. */
  lemma {:induction false} NeverEnds(cap: int, need: int, m: int, d: int, left: nat, rounds: nat)
    requires d > 0 && d * Pow2(left) == INT && cap == m * d && Fits(cap, INT)
    requires Grown(cap, need, left) == None
    ensures Grown(cap, need, rounds) == None
    decreases rounds
  {
    if left == 0 {
      assert m == 0;
      ZeroStays(need, rounds);
    } else if rounds > 0 {
      var t := WrapIsShifted(2 * cap);
      assert (2 * d) * Pow2(left - 1) == d * (2 * Pow2(left - 1));
      Regroup(m, d, Pow2(left - 1), t);
      NeverEnds(Wrap(2 * cap, INT), need, m + t * Pow2(left - 1), 2 * d, left - 1, rounds - 1);
    }
  }

  /** 32 rounds are all that matter: a doubling loop that has not found room by then never ends. */
  lemma ThirtyTwoRounds(cap: int, need: int, rounds: nat)
    requires Fits(cap, INT) && Grown(cap, need, 32) == None
    ensures Grown(cap, need, rounds) == None
  {
    WordPowers();
    NeverEnds(cap, need, cap, 1, 32, rounds);
  }

  // ---- room exactly

  /** The capacity after `k` doublings: `cap * 2^k`, reduced to a word. */
  function Doubled(cap: int, k: nat): int {
    Wrap(cap * Pow2(k), INT)
  }

  lemma WordsOut(w: int, x: int, t: int, p: int)
    requires w == x + t * INT
    ensures Wrap(w * p, INT) == Wrap(x * p, INT)
  {
    assert (t * INT) * p == (t * p) * INT;
    assert w * p == x * p + (t * INT) * p;
    WrapOfShifted(x * p, t * p, INT);
  }

  lemma TwiceInside(cap: int, k: nat)
    ensures (2 * cap) * Pow2(k) == cap * Pow2(k + 1)
  {
    TwiceTimes(cap, Pow2(k));
    TwiceTimes(Pow2(k), cap);
  }

  lemma DoubledOnce(cap: int, k: nat)
    ensures Doubled(Wrap(2 * cap, INT), k) == Doubled(cap, k + 1)
  {
    var t := WrapIsShifted(2 * cap);
    WordsOut(Wrap(2 * cap, INT), 2 * cap, t, Pow2(k));
    TwiceInside(cap, k);
  }

  /** Room is found within some rounds if and only if one of that many doublings, reduced to a
      word, is enough. */
  lemma {:induction false} GrownExactly(cap: int, need: int, rounds: nat)
    requires Fits(cap, INT)
    ensures Grown(cap, need, rounds).Some? <==> exists k: nat :: k <= rounds && Doubled(cap, k) >= need
    decreases rounds
  {
    WrapFacts(cap, INT);
    assert Doubled(cap, 0) == cap;
    if cap < need && rounds > 0 {
      var next := Wrap(2 * cap, INT);
      GrownExactly(next, need, rounds - 1);
      if k: nat :| k <= rounds - 1 && Doubled(next, k) >= need { DoubledOnce(cap, k); }
      if k: nat :| k <= rounds && Doubled(cap, k) >= need { DoubledOnce(cap, k - 1); }
    }
  }

  /** Whatever its size, a buffer gets room exactly where the need is within it or one of the first
      32 doublings of its capacity, reduced to a word, reaches the need; else the loop never ends. */
  lemma CanGrowExactly(size: nat, need: int)
    requires size <= MAX_INT
    ensures CanGrow(size, need) <==>
      need <= size || exists k: nat :: k <= 32 && Doubled(Start(size), k) >= need
  {
    GrownExactly(Start(size), need, 32);
  }

  // ---- room enough

  /** Up to 2^30 bytes there is always room, reached by true doublings and short of twice the
      need. */
  lemma {:induction false} GrowsUpTo(cap: int, need: int, rounds: nat)
    requires 0 < cap <= MAX_INT && need <= SAFE && need <= cap * Pow2(rounds)
    ensures var g := Grown(cap, need, rounds);
      g.Some? && cap <= g.value <= MAX_INT && need <= g.value && (g.value == cap || g.value < 2 * need)
    ensures cap < need <= 2 * cap && rounds > 0 ==> Grown(cap, need, rounds) == Some(2 * cap)
    decreases rounds
  {
    if cap < need {
      assert rounds > 0;
      WrapFacts(2 * cap, INT);
      TwiceTimes(cap, Pow2(rounds - 1));
      TwiceTimes(Pow2(rounds - 1), cap);
      GrowsUpTo(2 * cap, need, rounds - 1);
    }
  }

  lemma RoomUpTo(size: nat, need: int)
    requires size <= MAX_INT && need <= SAFE
    ensures CanGrow(size, need)
    ensures need > size ==>
      var g := Grown(Start(size), need, 32).value;
      need <= g <= MAX_INT && g >= size && (g == SMALLEST || g < 2 * need)
    ensures need > size && SMALLEST <= size && need <= 2 * size ==> Grown(Start(size), need, 32) == Some(2 * size)
  {
    WordPowers();
    assert Start(size) * Pow2(32) >= Pow2(32);
    GrowsUpTo(Start(size), need, 32);
  }

  lemma {:induction false} PowerRange(j: nat)
    requires j <= 30
    ensures Pow2(j) <= SAFE && (j >= 4 ==> Pow2(j) >= SMALLEST)
    decreases 30 - j
  {
    WordPowers();
    if j < 30 { PowerRange(j + 1); }
    if j > 4 { PowerAtLeast(j); }
    assert Pow2(4) == 16;
  }

  lemma {:induction false} PowerAtLeast(j: nat)
    requires j >= 4
    ensures Pow2(j) >= SMALLEST
  {
    if j > 4 { PowerAtLeast(j - 1); } else { assert Pow2(4) == 16; }
  }

  /** From 2^30 the next two doublings are the smallest `Int` and 0. */
  lemma TopHangs(need: int, rounds: nat)
    requires SAFE < need
    ensures Grown(SAFE, need, rounds) == None
  {
    if rounds > 1 {
      var low := Wrap(2 * SAFE, INT);
      assert low == -0x8000_0000;
      assert Wrap(2 * low, INT) == 0;
      ZeroStays(need, rounds - 2);
      assert Grown(low, need, rounds - 1) == None;
    } else if rounds == 1 {
      assert Wrap(2 * SAFE, INT) == -0x8000_0000;
    }
  }

  lemma {:induction false} PowerHangs(j: nat, need: int, rounds: nat)
    requires j <= 30 && SAFE < need
    ensures Grown(Pow2(j), need, rounds) == None
    decreases rounds
  {
    PowerRange(j);
    if j == 30 {
      WordPowers();
      TopHangs(need, rounds);
    } else if rounds > 0 {
      PowerRange(j + 1);
      WrapFacts(2 * Pow2(j), INT);
      PowerHangs(j + 1, need, rounds - 1);
    }
  }

  /** A buffer that started empty, whose capacity is a power of two, gets room for `need` exactly
      up to 2^30; past it the doubling loop never ends. */
  lemma RoomIsExact(j: nat, need: int)
    requires 4 <= j <= 30
    ensures CanGrow(Pow2(j), need) <==> need <= SAFE
  {
    PowerRange(j);
    if need <= SAFE { RoomUpTo(Pow2(j), need); } else { PowerHangs(j, need, 32); }
  }
}
