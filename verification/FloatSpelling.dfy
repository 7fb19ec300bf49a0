/** What the characters of a float's text spell, read as decimal numbers are read. */
module FloatSpelling {
  import opened Basics
  import opened FloatText

  predicate AllDigits(text: string) {
    forall i :: 0 <= i < |text| ==> '0' <= text[i] <= '9'
  }

  /** The number a text of digits is, in base ten. */
  function Decimals(text: string): (n: nat)
    requires AllDigits(text)
  {
    if text == [] then 0 else 10 * Decimals(text[..|text| - 1]) + (text[|text| - 1] as int - '0' as int)
  }

  /** Digits without a needless zero in front. */
  predicate SpellsNat(text: string, n: nat) {
    text != [] && AllDigits(text) && Decimals(text) == n && (|text| > 1 ==> text[0] != '0')
  }

  predicate SpellsInt(text: string, n: int) {
    if n < 0 then text != [] && text[0] == '-' && SpellsNat(text[1..], -n) else SpellsNat(text, n)
  }

  /** The text of an exponent: none for a plain number. */
  predicate SpellsExp(text: string, e: int) {
    if text == [] then e == 0 else text[0] == 'E' && SpellsInt(text[1..], e)
  }

  /** `text` is a sign if any, digits, a point, digits, and an exponent if any; read so it is `v`. */
  ghost predicate Spells(text: string, negative: bool, v: Decimal) {
    exists whole: string, frac: string, exp: string, e: int :: Parsed(text, negative, v, whole, frac, exp, e)
  }

  ghost predicate Parsed(text: string, negative: bool, v: Decimal, whole: string, frac: string, exp: string, e: int) {
    && text == (if negative then "-" else "") + (whole + ("." + (frac + exp)))
    && whole != [] && frac != [] && AllDigits(whole) && AllDigits(frac)
    && AllDigits(whole + frac) && SpellsExp(exp, e)
    && v == Decimal(Decimals(whole + frac), e - |frac|)
  }

  lemma {:induction false} CharsSpell(d: Digits)
    ensures AllDigits(Chars(d)) && Decimals(Chars(d)) == Number(d)
  {
    if d != [] {
      var init := d[..|d| - 1];
      CharsSpell(init);
      assert Chars(d)[..|d| - 1] == Chars(init);
    }
  }

  lemma {:induction false} NatDigitsStart(n: nat)
    ensures |NatDigits(n)| > 1 ==> NatDigits(n)[0] != 0
    ensures |NatDigits(n)| == 1 ==> NatDigits(n) == [n]
    ensures n > 0 ==> NatDigits(n)[0] != 0
  {
    if n >= 10 { NatDigitsStart(n / 10); }
  }

  lemma IntTextSpells(n: int)
    ensures SpellsInt(IntText(n), n)
  {
    var m := if n < 0 then -n else n;
    CharsSpell(NatDigits(m));
    NatDigitsStart(m);
    if n < 0 { assert IntText(n)[1..] == Chars(NatDigits(m)); }
  }

  lemma ShowExpSpells(exp: Option<int>)
    ensures SpellsExp(ShowExp(exp), if exp.Some? then exp.value else 0)
  {
    if exp.Some? {
      IntTextSpells(exp.value);
      assert ShowExp(exp)[1..] == IntText(exp.value);
    }
  }

  lemma JoinedSpells(a: Digits, b: Digits)
    ensures AllDigits(Chars(a) + Chars(b)) && Decimals(Chars(a) + Chars(b)) == Number(a + b)
  {
    CharsSpell(a + b);
    assert Chars(a + b) == Chars(a) + Chars(b);
  }

  lemma ShowIsParts(t: Text)
    ensures Show(t) == (if t.negative then "-" else "") + (Chars(t.whole) + ("." + (Chars(t.frac) + ShowExp(t.exp))))
  {
    assert "" + ShowSize(t) == ShowSize(t);
  }

  lemma ShowSpells(t: Text)
    requires t.whole != [] && t.frac != []
    ensures Spells(Show(t), t.negative, TextValue(t))
  {
    var whole, frac, exp := Chars(t.whole), Chars(t.frac), ShowExp(t.exp);
    var e := if t.exp.Some? then t.exp.value else 0;
    CharsSpell(t.whole);
    CharsSpell(t.frac);
    JoinedSpells(t.whole, t.frac);
    ShowExpSpells(t.exp);
    ShowIsParts(t);
    assert |frac| == |t.frac| && |whole| == |t.whole|;
    assert Parsed(Show(t), t.negative, TextValue(t), whole, frac, exp, e);
  }

  /** Read as a decimal number, the text of a float is the number its digits and exponent are. */
  lemma TextSpells(s: Scientific)
    requires Canonical(s)
    ensures exists v :: Spells(Show(Arrange(s)), s.negative, v) && Same(ValueOf(s), v)
  {
    ShapeIsRight(s);
    MeaningIsKept(s);
    ShowSpells(Arrange(s));
  }
}
