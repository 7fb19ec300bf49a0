/** Lines and columns by counting: newlines before, and UTF-16 code units since the last one. */
module PositionUnits {
  import opened Basics
  import opened Utf8
  import opened PositionSpec

  /** The code units of a scalar, a surrogate pair beyond the basic plane (section 2.1 of RFC 2781). */
  function CodeUnits(c: scalar): seq<int> {
    if c < 0x10000 then [c] else [0xD800 + (c - 0x10000) / 0x400, 0xDC00 + (c - 0x10000) % 0x400]
  }

  function Utf16(text: Text): seq<int> {
    if text == [] then [] else Utf16(text[..|text| - 1]) + CodeUnits(text[|text| - 1])
  }

  /** A unit is one scalar's, or a pair is, each of its own range: a text's units are its own. */
  lemma UnitsDecode(c: scalar)
    ensures var u := CodeUnits(c);
      if |u| == 1 then u[0] == c && !(0xD800 <= u[0] < 0xE000) && u[0] < 0x10000
      else |u| == 2 && 0xD800 <= u[0] < 0xDC00 <= u[1] < 0xE000 && c == 0x10000 + (u[0] - 0xD800) * 0x400 + (u[1] - 0xDC00)
  {}

  /** The line of the `k`th scalar starts at `start`: behind the last newline before it, if any. */
  ghost predicate StartsLineOf(text: Text, start: nat, k: nat) {
    && start <= k <= |text|
    && (start == 0 || text[start - 1] == 0x0A)
    && forall i :: start <= i < k ==> text[i] != 0x0A
  }

  /** A line is as many newlines as stand before it. */
  lemma {:induction false} LineCountsNewlines(text: Text, k: nat)
    requires k <= |text|
    ensures Line(text, k) == multiset(text[..k])[0x0A]
  {
    if k > 0 {
      LineCountsNewlines(text, k - 1);
      assert text[..k] == text[..k - 1] + [text[k - 1]];
    }
  }

  /** A column is as many code units as stand between the start of the line and the scalar. */
  lemma {:induction false} ColumnCountsUnits(text: Text, start: nat, k: nat)
    requires StartsLineOf(text, start, k)
    ensures Column(text, k) == |Utf16(text[start..k])|
    decreases k
  {
    if start < k {
      ColumnCountsUnits(text, start, k - 1);
      assert text[start..k][..k - start - 1] == text[start..k - 1];
    }
  }

  lemma {:induction false} LineHasAStart(text: Text, k: nat) returns (start: nat)
    requires k <= |text|
    ensures StartsLineOf(text, start, k)
  {
    if k == 0 || text[k - 1] == 0x0A { start := k; } else { start := LineHasAStart(text, k - 1); }
  }

  /** A position, counted. */
  lemma PositionCounts(text: Text, k: nat) returns (start: nat)
    requires k <= |text|
    ensures StartsLineOf(text, start, k)
    ensures PositionOf(text, k) == Position(multiset(text[..k])[0x0A], |Utf16(text[start..k])|)
  {
    start := LineHasAStart(text, k);
    LineCountsNewlines(text, k);
    ColumnCountsUnits(text, start, k);
  }
}
