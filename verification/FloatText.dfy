/** The text of a float, rearranged from its shortest digits and exponent. */
module FloatText {
  import opened Basics

  type digit = n: int | 0 <= n < 10
  type Digits = seq<digit>

  /** `d.ddd` times a power of ten, with a sign. */
  datatype Scientific = Scientific(negative: bool, digits: Digits, exp: int)

  /** Shortest digits: no needless zero at either end, and zero itself is a single digit. */
  predicate Canonical(s: Scientific) {
    && s.digits != []
    && (s.digits == [0] ==> s.exp == 0)
    && (s.digits != [0] ==> s.digits[0] != 0 && s.digits[|s.digits| - 1] != 0)
  }

  /** A text's parts: digits before and after the point, and the exponent if it is written. */
  datatype Text = Text(negative: bool, whole: Digits, frac: Digits, exp: Option<int>)

  predicate IsPlain(exp: int) {
    -3 <= exp <= 6
  }

  function Zeros(n: nat): (z: Digits)
    ensures |z| == n && forall i :: 0 <= i < n ==> z[i] == 0
  {
    seq(n, _ => 0)
  }

  /** `salvo_float_text`. */
  function Arrange(s: Scientific): Text
    requires s.digits != []
  {
    var d := s.digits;
    if IsPlain(s.exp) then
      if s.exp >= 0 then
        var point := s.exp + 1;
        if |d| > point then Text(s.negative, d[..point], d[point..], None)
        else Text(s.negative, d + Zeros(point - |d|), [0], None)
      else Text(s.negative, [0], Zeros(-s.exp - 1) + d, None)
    else Text(s.negative, d[..1], if |d| > 1 then d[1..] else [0], Some(s.exp))
  }

  // ---- what a text denotes

  function Number(d: Digits): nat {
    if d == [] then 0 else 10 * Number(d[..|d| - 1]) + d[|d| - 1]
  }

  function Ten(k: nat): (p: nat)
    ensures p > 0
  {
    if k == 0 then 1 else 10 * Ten(k - 1)
  }

  /** `number` times ten to the `scale`. */
  datatype Decimal = Decimal(number: nat, scale: int)

  predicate Same(a: Decimal, b: Decimal) {
    if a.scale <= b.scale then a.number == b.number * Ten(b.scale - a.scale)
    else b.number == a.number * Ten(a.scale - b.scale)
  }

  function ValueOf(s: Scientific): Decimal {
    Decimal(Number(s.digits), s.exp - |s.digits| + 1)
  }

  function TextValue(t: Text): Decimal {
    Decimal(Number(t.whole + t.frac), (if t.exp.Some? then t.exp.value else 0) - |t.frac|)
  }

  lemma {:induction false} ZerosScale(d: Digits, n: nat)
    ensures Number(d + Zeros(n)) == Number(d) * Ten(n)
  {
    if n == 0 {
      assert d + Zeros(0) == d;
    } else {
      ZerosScale(d, n - 1);
      var all := d + Zeros(n);
      assert all[..|all| - 1] == d + Zeros(n - 1);
      TenInside(Number(d), Ten(n - 1));
    }
  }

  lemma TenInside(a: int, b: int)
    ensures 10 * (a * b) == a * (10 * b)
  {}

  lemma {:induction false} ZerosVanish(n: nat, d: Digits)
    ensures Number(Zeros(n) + d) == Number(d)
  {
    if d == [] {
      assert Zeros(n) + d == [] + Zeros(n);
      ZerosScale([], n);
    } else {
      ZerosVanish(n, d[..|d| - 1]);
      var all := Zeros(n) + d;
      assert all[..|all| - 1] == Zeros(n) + d[..|d| - 1];
    }
  }

  lemma Shifted(a: Decimal, b: Decimal, k: nat)
    requires b.number == a.number * Ten(k) && b.scale == a.scale - k
    ensures Same(a, b)
  {
    assert Ten(0) == 1;
  }

  lemma PaddedMeans(s: Scientific)
    requires s.digits != [] && IsPlain(s.exp) && s.exp >= 0 && |s.digits| <= s.exp + 1
    ensures Same(ValueOf(s), TextValue(Arrange(s)))
  {
    var d, k := s.digits, s.exp + 2 - |s.digits|;
    assert Zeros(k - 1) + [0] == Zeros(k);
    assert (d + Zeros(k - 1)) + [0] == d + Zeros(k);
    ZerosScale(d, k);
    Shifted(ValueOf(s), Decimal(Number(d + Zeros(k)), -1), k);
  }

  lemma SmallMeans(s: Scientific)
    requires s.digits != [] && IsPlain(s.exp) && s.exp < 0
    ensures Same(ValueOf(s), TextValue(Arrange(s)))
  {
    var d := s.digits;
    assert [0] + (Zeros(-s.exp - 1) + d) == Zeros(-s.exp) + d;
    ZerosVanish(-s.exp, d);
    assert Ten(0) == 1;
    Shifted(ValueOf(s), Decimal(Number(Zeros(-s.exp) + d), s.exp + 1 - |d|), 0);
  }

  lemma SingleMeans(s: Scientific)
    requires |s.digits| == 1 && !IsPlain(s.exp)
    ensures Same(ValueOf(s), TextValue(Arrange(s)))
  {
    var d := s.digits;
    assert d[..1] + [0] == d + Zeros(1);
    ZerosScale(d, 1);
    Shifted(ValueOf(s), Decimal(Number(d + Zeros(1)), s.exp - 1), 1);
  }

  /** The text denotes the number, with its sign. */
  lemma MeaningIsKept(s: Scientific)
    requires s.digits != []
    ensures Arrange(s).negative == s.negative
    ensures Same(ValueOf(s), TextValue(Arrange(s)))
  {
    if IsPlain(s.exp) && s.exp >= 0 && |s.digits| <= s.exp + 1 {
      PaddedMeans(s);
    } else if IsPlain(s.exp) && s.exp < 0 {
      SmallMeans(s);
    } else if !IsPlain(s.exp) && |s.digits| == 1 {
      SingleMeans(s);
    } else {
      assert Arrange(s).whole + Arrange(s).frac == s.digits;
      assert Ten(0) == 1;
    }
  }

  /** Always a point, with digits on both sides, and an exponent exactly outside the window. */
  lemma ShapeIsRight(s: Scientific)
    requires Canonical(s)
    ensures var t := Arrange(s);
      && t.whole != [] && t.frac != []
      && (t.exp == None <==> -3 <= s.exp <= 6)
      && (|t.whole| > 1 ==> t.whole[0] != 0)
  {
  }

  // ---- reading it back

  function DropLeading(d: Digits): Digits {
    if d == [] || d[0] != 0 then d else DropLeading(d[1..])
  }

  function DropTrailing(d: Digits): Digits {
    if d == [] || d[|d| - 1] != 0 then d else DropTrailing(d[..|d| - 1])
  }

  /** The digits and exponent a text was made from. */
  function Rearrange(t: Text): Scientific {
    if t.exp.Some? then Scientific(t.negative, t.whole + (if t.frac == [0] then [] else t.frac), t.exp.value)
    else if t.whole == [0] && t.frac == [0] then Scientific(t.negative, [0], 0)
    else if t.whole == [0] then
      var d := DropLeading(t.frac);
      Scientific(t.negative, d, |d| - |t.frac| - 1)
    else Scientific(t.negative, if t.frac == [0] then DropTrailing(t.whole) else t.whole + t.frac, |t.whole| - 1)
  }

  lemma {:induction false} LeadingZeros(n: nat, d: Digits)
    requires d != [] && d[0] != 0
    ensures DropLeading(Zeros(n) + d) == d
  {
    if n == 0 {
      assert Zeros(0) + d == d;
    } else {
      LeadingZeros(n - 1, d);
      assert (Zeros(n) + d)[1..] == Zeros(n - 1) + d;
    }
  }

  lemma {:induction false} TrailingZeros(d: Digits, n: nat)
    requires d != [] && d[|d| - 1] != 0
    ensures DropTrailing(d + Zeros(n)) == d
  {
    if n == 0 {
      assert d + Zeros(0) == d;
    } else {
      TrailingZeros(d, n - 1);
      assert (d + Zeros(n))[..|d| + n - 1] == d + Zeros(n - 1);
    }
  }

  /** Every canonical number can be read back from its text. */
  lemma RearrangeArrange(s: Scientific)
    requires Canonical(s)
    ensures Rearrange(Arrange(s)) == s
  {
    var d, t := s.digits, Arrange(s);
    if s.digits == [0] {
      assert d + Zeros(0) == d;
    } else if IsPlain(s.exp) && s.exp >= 0 {
      if |d| > s.exp + 1 {
        assert t.frac[|t.frac| - 1] == d[|d| - 1];
        assert t.whole[0] == d[0];
        assert t.whole + t.frac == d;
      } else {
        TrailingZeros(d, s.exp + 1 - |d|);
        assert t.whole[0] == d[0];
      }
    } else if IsPlain(s.exp) {
      LeadingZeros(-s.exp - 1, d);
      assert t.frac[|t.frac| - 1] == d[|d| - 1];
    } else if |d| > 1 {
      assert t.frac[|t.frac| - 1] == d[|d| - 1];
      assert t.whole + t.frac == d;
    } else {
      assert t.whole + [] == d;
    }
  }

  // ---- the characters

  function DigitChar(d: digit): char {
    ['0', '1', '2', '3', '4', '5', '6', '7', '8', '9'][d]
  }

  function Chars(d: Digits): string {
    seq(|d|, i requires 0 <= i < |d| => DigitChar(d[i]))
  }

  function NatDigits(n: nat): (d: Digits)
    ensures d != [] && Number(d) == n
  {
    if n < 10 then
      var d: Digits := [n];
      assert d[..0] == [];
      d
    else
      var high := NatDigits(n / 10);
      var d := high + [n % 10];
      assert d[..|d| - 1] == high;
      d
  }

  function IntText(n: int): string {
    if n < 0 then "-" + Chars(NatDigits(-n)) else Chars(NatDigits(n))
  }

  function ShowExp(exp: Option<int>): string {
    if exp.Some? then "E" + IntText(exp.value) else ""
  }

  function ShowFrac(t: Text): string {
    "." + (Chars(t.frac) + ShowExp(t.exp))
  }

  function ShowSize(t: Text): string {
    Chars(t.whole) + ShowFrac(t)
  }

  function Show(t: Text): string {
    if t.negative then "-" + ShowSize(t) else ShowSize(t)
  }

  predicate IsDigit(c: char) {
    '0' <= c <= '9'
  }

  lemma CharsAreDigits(d: Digits, i: nat)
    requires i < |d|
    ensures IsDigit(Chars(d)[i])
  {}

  lemma DigitCharsDiffer(a: digit, b: digit)
    requires DigitChar(a) == DigitChar(b)
    ensures a == b
  {}

  lemma CharsDetermine(a: Digits, b: Digits)
    requires Chars(a) == Chars(b)
    ensures a == b
  {
    assert |Chars(a)| == |a| && |Chars(b)| == |b|;
    forall i | 0 <= i < |a|
      ensures a[i] == b[i]
    {
      assert Chars(a)[i] == Chars(b)[i];
      DigitCharsDiffer(a[i], b[i]);
    }
  }

  /** How many digits a text starts with. */
  function LeadingDigits(s: string): nat {
    if s == [] || !IsDigit(s[0]) then 0 else 1 + LeadingDigits(s[1..])
  }

  lemma {:induction false} LeadingAreDigits(d: Digits, x: string)
    requires x == [] || !IsDigit(x[0])
    ensures LeadingDigits(Chars(d) + x) == |d|
  {
    if d == [] {
      assert Chars(d) + x == x;
    } else {
      CharsAreDigits(d, 0);
      assert (Chars(d) + x)[1..] == Chars(d[1..]) + x;
      LeadingAreDigits(d[1..], x);
    }
  }

  /** Digits up to a character that is none are determined, and so is what follows. */
  lemma SplitAtMark(a: Digits, b: Digits, x: string, y: string)
    requires Chars(a) + x == Chars(b) + y
    requires (x == [] || !IsDigit(x[0])) && (y == [] || !IsDigit(y[0]))
    ensures a == b && x == y
  {
    LeadingAreDigits(a, x);
    LeadingAreDigits(b, y);
    var all := Chars(a) + x;
    assert Chars(a) == all[..|a|] && Chars(b) == all[..|b|];
    CharsDetermine(a, b);
    assert x == all[|a|..] && y == all[|b|..];
  }

  lemma IntTextDetermines(m: int, n: int)
    requires IntText(m) == IntText(n)
    ensures m == n
  {
    var a, b := NatDigits(if m < 0 then -m else m), NatDigits(if n < 0 then -n else n);
    CharsAreDigits(a, 0);
    CharsAreDigits(b, 0);
    assert m < 0 ==> IntText(m)[0] == '-' && IntText(m)[1..] == Chars(a);
    assert n < 0 ==> IntText(n)[0] == '-' && IntText(n)[1..] == Chars(b);
    CharsDetermine(a, b);
  }

  lemma ExpDetermines(t: Option<int>, u: Option<int>)
    requires ShowExp(t) == ShowExp(u)
    ensures t == u
  {
    if t.Some? && u.Some? {
      assert ShowExp(t)[1..] == IntText(t.value) && ShowExp(u)[1..] == IntText(u.value);
      IntTextDetermines(t.value, u.value);
    }
  }

  lemma FracDetermines(t: Text, u: Text)
    requires ShowFrac(t) == ShowFrac(u)
    ensures t.frac == u.frac && t.exp == u.exp
  {
    assert ShowFrac(t)[1..] == Chars(t.frac) + ShowExp(t.exp);
    assert ShowFrac(u)[1..] == Chars(u.frac) + ShowExp(u.exp);
    SplitAtMark(t.frac, u.frac, ShowExp(t.exp), ShowExp(u.exp));
    ExpDetermines(t.exp, u.exp);
  }

  lemma SizeDetermines(t: Text, u: Text)
    requires ShowSize(t) == ShowSize(u)
    ensures t.whole == u.whole && t.frac == u.frac && t.exp == u.exp
  {
    SplitAtMark(t.whole, u.whole, ShowFrac(t), ShowFrac(u));
    FracDetermines(t, u);
  }

  lemma SizeStartsWithDigit(t: Text)
    requires t.whole != []
    ensures ShowSize(t) != [] && IsDigit(ShowSize(t)[0])
  {
    CharsAreDigits(t.whole, 0);
  }

  /** A text's characters determine its parts. */
  lemma ShowDetermines(t: Text, u: Text)
    requires t.whole != [] && u.whole != []
    ensures Show(t) == Show(u) ==> t == u
  {
    if Show(t) == Show(u) {
      SizeStartsWithDigit(t);
      SizeStartsWithDigit(u);
      var x, y := ShowSize(t), ShowSize(u);
      assert ("-" + x)[1..] == x && ("-" + y)[1..] == y;
      SizeDetermines(t, u);
    }
  }

  /** Distinct floats have distinct texts. */
  lemma TextsAreDistinct(a: Scientific, b: Scientific)
    requires Canonical(a) && Canonical(b)
    ensures Show(Arrange(a)) == Show(Arrange(b)) <==> a == b
  {
    ShapeIsRight(a);
    ShapeIsRight(b);
    ShowDetermines(Arrange(a), Arrange(b));
    RearrangeArrange(a);
    RearrangeArrange(b);
  }
}
