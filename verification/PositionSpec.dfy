/** Positions in a text as an editor counts them: a line, and a column in UTF-16 code units
    ("Position" of the Language Server Protocol 3.17). */
module PositionSpec {
  import opened Basics
  import opened Utf8

  const NEWLINE: int := 0x0A

  type Text = seq<scalar>

  datatype Position = Position(line: nat, character: nat)

  /** The UTF-16 code units of a scalar value: a surrogate pair beyond the basic plane. */
  function Units(c: scalar): (u: nat) {
    if c < 0x10000 then 1 else 2
  }

  /** The byte offset of the `k`th scalar. */
  function ByteAt(text: Text, k: nat): nat
    requires k <= |text|
  {
    if k == 0 then 0 else ByteAt(text, k - 1) + Width(text[k - 1])
  }

  function Line(text: Text, k: nat): nat
    requires k <= |text|
  {
    if k == 0 then 0 else Line(text, k - 1) + if text[k - 1] == NEWLINE then 1 else 0
  }

  function Column(text: Text, k: nat): nat
    requires k <= |text|
  {
    if k == 0 || text[k - 1] == NEWLINE then 0 else Column(text, k - 1) + Units(text[k - 1])
  }

  function PositionOf(text: Text, k: nat): Position
    requires k <= |text|
  {
    Position(Line(text, k), Column(text, k))
  }

  /** Where line `line` starts, looking from `k` on. */
  function FindLine(text: Text, line: nat, k: nat): (r: Option<nat>)
    requires k <= |text|
    ensures r.Some? ==> k <= r.value <= |text| && Line(text, r.value) == line
    decreases |text| - k
  {
    if Line(text, k) == line then Some(k)
    else if k == |text| then None
    else FindLine(text, line, k + 1)
  }

  /** From `k` on, the first scalar at or past the column, on the line of `k`. */
  function Walk(text: Text, k: nat, character: nat): (r: nat)
    requires k <= |text|
    ensures k <= r <= |text|
    decreases |text| - k
  {
    if k == |text| || text[k] == NEWLINE || Column(text, k) >= character then k
    else Walk(text, k + 1, character)
  }

  /** The scalar a position denotes. */
  function IndexOf(text: Text, p: Position): (k: nat)
    ensures k <= |text|
  {
    var start := FindLine(text, p.line, 0);
    if start.None? then |text| else Walk(text, start.value, p.character)
  }

  predicate Precedes(p: Position, q: Position) {
    p.line < q.line || (p.line == q.line && p.character < q.character)
  }

  predicate AtLineEnd(text: Text, k: nat) {
    k == |text| || (k < |text| && text[k] == NEWLINE)
  }

  // ---- lines

  lemma {:induction false} LinesGrow(text: Text, j: nat, k: nat)
    requires j <= k <= |text|
    ensures Line(text, j) <= Line(text, k)
    ensures Line(text, j) == Line(text, k) ==> Column(text, j) + (k - j) <= Column(text, k)
    ensures Line(text, j) == Line(text, k) ==> forall i :: j <= i < k ==> text[i] != NEWLINE
    decreases k
  {
    if j < k { LinesGrow(text, j, k - 1); }
  }

  /** Later scalars stand at later positions. */
  lemma PositionsAreOrdered(text: Text, j: nat, k: nat)
    requires j < k <= |text|
    ensures Precedes(PositionOf(text, j), PositionOf(text, k))
  {
    LinesGrow(text, j, k);
  }

  /** The first scalar found on a line starts it. */
  lemma {:induction false} FoundLineStarts(text: Text, line: nat, k: nat, j: nat)
    requires k <= j <= |text| && Line(text, j) == line
    requires k == 0 || text[k - 1] == NEWLINE || Line(text, k) < line
    ensures var r := FindLine(text, line, k); r.Some? && r.value <= j && Column(text, r.value) == 0
    decreases |text| - k
  {
    LinesGrow(text, k, j);
    if Line(text, k) != line { FoundLineStarts(text, line, k + 1, j); }
  }

  lemma {:induction false} NoLineFound(text: Text, line: nat, k: nat)
    requires k <= |text| && Line(text, |text|) < line
    ensures FindLine(text, line, k) == None
    decreases |text| - k
  {
    LinesGrow(text, k, |text|);
    if k < |text| { NoLineFound(text, line, k + 1); }
  }

  lemma {:induction false} LineReached(text: Text, line: nat, k: nat)
    requires k <= |text| && line <= Line(text, k)
    ensures exists j :: 0 <= j <= k && Line(text, j) == line
  {
    if Line(text, k) != line { LineReached(text, line, k - 1); }
    assert Line(text, k) == line ==> 0 <= k <= k;
  }

  // ---- walking a line

  lemma {:induction false} WalkReaches(text: Text, k: nat, j: nat)
    requires k <= j <= |text| && Line(text, k) == Line(text, j)
    ensures Walk(text, k, Column(text, j)) == j
    decreases |text| - k
  {
    LinesGrow(text, k, j);
    if k < j {
      LinesGrow(text, k, k + 1);
      LinesGrow(text, k + 1, j);
      WalkReaches(text, k + 1, j);
    }
  }

  /** A walk stays on its line, and stops at its end, at the column, or half a surrogate pair
      past it. */
  lemma {:induction false} WalkStops(text: Text, k: nat, character: nat)
    requires k <= |text| && Column(text, k) <= character + 1
    requires Column(text, k) == character + 1 ==> k > 0 && Units(text[k - 1]) == 2
    ensures var r := Walk(text, k, character);
      && Line(text, r) == Line(text, k)
      && (AtLineEnd(text, r) || Column(text, r) >= character)
      && Column(text, r) <= character + 1
      && (Column(text, r) == character + 1 ==> r > 0 && Units(text[r - 1]) == 2)
    decreases |text| - k
  {
    if !(k == |text| || text[k] == NEWLINE || Column(text, k) >= character) {
      WalkStops(text, k + 1, character);
    }
  }

  lemma {:induction false} WalksAreOrdered(text: Text, k: nat, c: nat, d: nat)
    requires k <= |text| && c <= d
    ensures Walk(text, k, c) <= Walk(text, k, d)
    decreases |text| - k
  {
    if !(k == |text| || text[k] == NEWLINE || Column(text, k) >= c) { WalksAreOrdered(text, k + 1, c, d); }
  }

  // ---- the two maps

  /** A position made from a scalar denotes that scalar. */
  lemma IndexOfPosition(text: Text, k: nat)
    requires k <= |text|
    ensures IndexOf(text, PositionOf(text, k)) == k
  {
    FoundLineStarts(text, Line(text, k), 0, k);
    WalkReaches(text, FindLine(text, Line(text, k), 0).value, k);
  }

  /** What a position is taken for: past the last line, the end of the text; past the end of its
      line, that end; in the middle of a surrogate pair, the scalar after it; else itself. */
  lemma PositionOfIndex(text: Text, p: Position)
    ensures var k := IndexOf(text, p);
      var q := PositionOf(text, k);
      if p.line > Line(text, |text|) then k == |text|
      else
        && q.line == p.line
        && (q.character == p.character
            || (q.character < p.character && AtLineEnd(text, k))
            || (q.character == p.character + 1 && k > 0 && Units(text[k - 1]) == 2))
  {
    if p.line > Line(text, |text|) {
      NoLineFound(text, p.line, 0);
    } else {
      LineReached(text, p.line, |text|);
      var j :| 0 <= j <= |text| && Line(text, j) == p.line;
      FoundLineStarts(text, p.line, 0, j);
      WalkStops(text, FindLine(text, p.line, 0).value, p.character);
    }
  }

  /** Later positions denote the same scalar or later ones. */
  lemma IndicesAreOrdered(text: Text, p: Position, q: Position)
    requires p == q || Precedes(p, q)
    ensures IndexOf(text, p) <= IndexOf(text, q)
  {
    if p.line == q.line {
      if FindLine(text, p.line, 0).Some? { WalksAreOrdered(text, FindLine(text, p.line, 0).value, p.character, q.character); }
    } else {
      PositionOfIndex(text, p);
      PositionOfIndex(text, q);
      if q.line <= Line(text, |text|) && IndexOf(text, q) < IndexOf(text, p) {
        LinesGrow(text, IndexOf(text, q), IndexOf(text, p));
      }
    }
  }

  /** Exactly the positions of scalars come back as themselves. */
  lemma ExactPositions(text: Text, p: Position)
    ensures PositionOf(text, IndexOf(text, p)) == p <==> exists k :: 0 <= k <= |text| && PositionOf(text, k) == p
  {
    if k :| 0 <= k <= |text| && PositionOf(text, k) == p { IndexOfPosition(text, k); }
  }
}
