/** `offset_to_position` and `position_to_offset`, over the bytes of a text. */
module Positions {
  import opened Basics
  import opened Utf8
  import opened PositionSpec

  /** Offsets, lines and columns are 32-bit. */
  const OFFSETS: nat := 0x1_0000_0000

  // ---- a text's bytes

  /** `bytes` spells `text`: it ends where the text does; within a scalar's bytes the first alone is
      a boundary, and only a newline's is a newline; and its slices decode to the text's. */
  ghost predicate Spells(bytes: seq<byte>, text: Text) {
    && |bytes| == ByteAt(text, |text|)
    && (forall k, j {:trigger ByteOf(text, bytes, k, j)} :: 0 <= k < |text| && ByteAt(text, k) <= j < ByteAt(text, k) + Width(text[k]) ==>
         ByteOf(text, bytes, k, j))
    && (forall k {:trigger ByteAt(text, k)} :: 0 <= k <= |text| ==> ByteAt(text, k) <= |bytes|)
    && (forall j, k {:trigger DecodesTo(text, bytes, j, k)} :: 0 <= j <= k <= |text| ==> DecodesTo(text, bytes, j, k))
  }

  ghost predicate ByteOf(text: Text, bytes: seq<byte>, k: nat, j: nat)
    requires k < |text|
  {
    && j < |bytes|
    && (IsTail(bytes[j]) <==> j > ByteAt(text, k))
    && (bytes[j] == NEWLINE <==> text[k] == NEWLINE)
  }

  ghost predicate DecodesTo(text: Text, bytes: seq<byte>, j: nat, k: nat)
    requires j <= k <= |text|
  {
    ByteAt(text, j) <= ByteAt(text, k) <= |bytes| && Decode(bytes[ByteAt(text, j)..ByteAt(text, k)]) == Some(text[j..k])
  }

  lemma {:induction false} EncodeAppend(a: Text, b: Text)
    ensures Encode(a + b) == Encode(a) + Encode(b)
  {
    if a == [] {
      assert a + b == b;
    } else {
      assert (a + b)[1..] == a[1..] + b;
      EncodeAppend(a[1..], b);
    }
  }

  lemma {:induction false} PrefixBytes(text: Text, k: nat)
    requires k <= |text|
    ensures |Encode(text[..k])| == ByteAt(text, k)
    decreases k
  {
    if k > 0 {
      PrefixBytes(text, k - 1);
      assert text[..k] == text[..k - 1] + [text[k - 1]];
      EncodeAppend(text[..k - 1], [text[k - 1]]);
      assert Encode([text[k - 1]]) == EncodeScalar(text[k - 1]);
    }
  }

  lemma Middle<T>(p: seq<T>, m: seq<T>, s: seq<T>, all: seq<T>)
    requires all == (p + m) + s
    ensures all[|p|..|p + m|] == m
  {}

  lemma SliceBytes(text: Text, j: nat, k: nat)
    requires j <= k <= |text|
    ensures ByteAt(text, j) <= ByteAt(text, k) <= |Encode(text)|
    ensures Encode(text)[ByteAt(text, j)..ByteAt(text, k)] == Encode(text[j..k])
  {
    var p, m, s, all := Encode(text[..j]), Encode(text[j..k]), Encode(text[k..]), Encode(text);
    assert all == (p + m) + s by {
      assert text[..k] == text[..j] + text[j..k] && text == text[..k] + text[k..];
      EncodeAppend(text[..j], text[j..k]);
      EncodeAppend(text[..k], text[k..]);
    }
    assert |p| == ByteAt(text, j) by { PrefixBytes(text, j); }
    assert |p + m| == ByteAt(text, k) by {
      assert text[..k] == text[..j] + text[j..k];
      EncodeAppend(text[..j], text[j..k]);
      PrefixBytes(text, k);
    }
    Middle(p, m, s, all);
  }

  lemma ByteShapes(c: scalar, e: seq<byte>, i: nat)
    requires e == Encode([c]) && i < Width(c)
    ensures |e| == Width(c)
    ensures IsTail(e[i]) <==> i > 0
    ensures e[i] == NEWLINE <==> c == NEWLINE
  {
    assert e == EncodeScalar(c) by { assert [c][1..] == []; }
  }

  lemma SliceAt<T>(s: seq<T>, i: nat, j: nat, k: nat, m: seq<T>)
    requires i <= k < j <= |s| && m == s[i..j]
    ensures m[k - i] == s[k]
  {}

  lemma ByteOfScalar(text: Text, bytes: seq<byte>, k: nat, j: nat)
    requires bytes == Encode(text)
    requires k < |text| && ByteAt(text, k) <= j < ByteAt(text, k) + Width(text[k])
    ensures ByteOf(text, bytes, k, j)
  {
    SliceBytes(text, k, k + 1);
    assert text[k..k + 1] == [text[k]];
    var e := Encode([text[k]]);
    ByteShapes(text[k], e, j - ByteAt(text, k));
    SliceAt(bytes, ByteAt(text, k), ByteAt(text, k + 1), j, e);
  }

  lemma SliceDecodes(text: Text, bytes: seq<byte>, j: nat, k: nat)
    requires bytes == Encode(text) && j <= k <= |text|
    ensures DecodesTo(text, bytes, j, k)
  {
    SliceBytes(text, j, k);
    DecodeEncode(text[j..k]);
  }

  lemma EncodeSpells(text: Text, bytes: seq<byte>)
    requires bytes == Encode(text)
    ensures Spells(bytes, text)
  {
    PrefixBytes(text, |text|);
    assert text[..|text|] == text;
    forall k, j | 0 <= k < |text| && ByteAt(text, k) <= j < ByteAt(text, k) + Width(text[k])
      ensures ByteOf(text, bytes, k, j)
    {
      ByteOfScalar(text, bytes, k, j);
    }
    forall j, k | 0 <= j <= k <= |text|
      ensures DecodesTo(text, bytes, j, k)
    {
      SliceDecodes(text, bytes, j, k);
    }
    forall k | 0 <= k <= |text|
      ensures ByteAt(text, k) <= |bytes|
    {
      SliceDecodes(text, bytes, k, k);
    }
  }

  /** The last scalar starting at or before `offset`, up to `k`. */
  function Floor(text: Text, offset: nat, k: nat): (r: nat)
    requires k <= |text|
    ensures r <= k && ByteAt(text, r) <= offset
    ensures r < k ==> offset < ByteAt(text, r + 1)
  {
    if ByteAt(text, k) <= offset then k else Floor(text, offset, k - 1)
  }

  predicate IsBoundary(bytes: seq<byte>, offset: nat)
    requires offset <= |bytes|
  {
    offset == |bytes| || !IsTail(bytes[offset])
  }

  lemma BoundariesAreScalars(text: Text, bytes: seq<byte>, offset: nat)
    requires Spells(bytes, text) && offset <= |bytes|
    ensures IsBoundary(bytes, offset) <==> ByteAt(text, Floor(text, offset, |text|)) == offset
    ensures offset < |bytes| && bytes[offset] == NEWLINE <==>
      var k := Floor(text, offset, |text|); ByteAt(text, k) == offset && k < |text| && text[k] == NEWLINE
  {
    var k := Floor(text, offset, |text|);
    if k < |text| {
      assert ByteOf(text, bytes, k, offset);
    }
  }

  lemma {:induction false} OffsetsGrow(text: Text, j: nat, k: nat)
    requires j <= k <= |text|
    ensures ByteAt(text, j) + (k - j) <= ByteAt(text, k)
    decreases k
  {
    if j < k { OffsetsGrow(text, j, k - 1); }
  }

  /** How many lines end in the first `i` bytes. */
  ghost function LinesEnded(bytes: seq<byte>, i: nat): nat
    requires i <= |bytes|
  {
    if i == 0 then 0 else LinesEnded(bytes, i - 1) + if bytes[i - 1] == NEWLINE then 1 else 0
  }

  /** Where the line of byte `i` starts. */
  ghost function LineStart(bytes: seq<byte>, i: nat): (r: nat)
    requires i <= |bytes|
    ensures r <= i
  {
    if i == 0 || bytes[i - 1] == NEWLINE then i else LineStart(bytes, i - 1)
  }

  /** The scalar that starts the line of the `k`th. */
  ghost function LineHead(text: Text, k: nat): (r: nat)
    requires k <= |text|
    ensures r <= k
  {
    if k == 0 || text[k - 1] == NEWLINE then k else LineHead(text, k - 1)
  }

  lemma {:induction false} TailsEndNoLine(bytes: seq<byte>, i: nat, j: nat)
    requires i <= j <= |bytes| && forall k :: i <= k < j ==> bytes[k] != NEWLINE
    ensures LinesEnded(bytes, j) == LinesEnded(bytes, i)
    ensures LineStart(bytes, j) == LineStart(bytes, i)
    decreases j
  {
    if i < j { TailsEndNoLine(bytes, i, j - 1); }
  }

  lemma SpelledByte(text: Text, bytes: seq<byte>, k: nat, j: nat)
    requires Spells(bytes, text) && k < |text| && ByteAt(text, k) <= j < ByteAt(text, k) + Width(text[k])
    ensures ByteAt(text, k) + Width(text[k]) <= |bytes|
    ensures bytes[j] == NEWLINE <==> text[k] == NEWLINE
  {
    assert ByteAt(text, k + 1) <= |bytes|;
    assert ByteOf(text, bytes, k, j);
  }

  ghost predicate EndsLine(bytes: seq<byte>, at: nat, end: nat, newline: bool) {
    && at < end <= |bytes|
    && LinesEnded(bytes, end) == LinesEnded(bytes, at) + (if newline then 1 else 0)
    && LineStart(bytes, end) == if newline then end else LineStart(bytes, at)
  }

  lemma LinesOverRun(bytes: seq<byte>, at: nat, end: nat, newline: bool)
    requires at < end <= |bytes| && (newline ==> end == at + 1)
    requires forall j :: at <= j < end ==> (bytes[j] == NEWLINE <==> newline)
    ensures EndsLine(bytes, at, end, newline)
  {
    if !newline { TailsEndNoLine(bytes, at, end); }
  }

  lemma LinesOverScalar(text: Text, bytes: seq<byte>, k: nat)
    requires Spells(bytes, text) && k < |text|
    ensures EndsLine(bytes, ByteAt(text, k), ByteAt(text, k + 1), text[k] == NEWLINE)
  {
    var at := ByteAt(text, k);
    SpelledByte(text, bytes, k, at);
    forall j | at <= j < at + Width(text[k])
      ensures bytes[j] == NEWLINE <==> text[k] == NEWLINE
    {
      SpelledByte(text, bytes, k, j);
    }
    LinesOverRun(bytes, at, at + Width(text[k]), text[k] == NEWLINE);
  }

  /** Counting lines by bytes is counting them by scalars. */
  lemma {:induction false} LinesByBytes(text: Text, bytes: seq<byte>, k: nat)
    requires Spells(bytes, text) && k <= |text|
    ensures ByteAt(text, k) <= |bytes|
    ensures LinesEnded(bytes, ByteAt(text, k)) == Line(text, k)
    ensures LineStart(bytes, ByteAt(text, k)) == ByteAt(text, LineHead(text, k))
    decreases k
  {
    if k > 0 {
      LinesByBytes(text, bytes, k - 1);
      LinesOverScalar(text, bytes, k - 1);
    }
  }

  // ---- columns

  ghost function UnitsOf(s: Text): nat {
    if s == [] then 0 else UnitsOf(s[..|s| - 1]) + Units(s[|s| - 1])
  }

  lemma {:induction false} ColumnIsUnits(text: Text, k: nat)
    requires k <= |text|
    ensures Column(text, k) == UnitsOf(text[LineHead(text, k)..k])
    decreases k
  {
    if k > 0 && text[k - 1] != NEWLINE {
      ColumnIsUnits(text, k - 1);
      var s := text[LineHead(text, k)..k];
      assert s[..|s| - 1] == text[LineHead(text, k)..k - 1];
    }
  }

  method CountUnits(s: Text) returns (units: nat)
    ensures units == UnitsOf(s)
  {
    units := 0;
    var i := 0;
    while i < |s|
      invariant 0 <= i <= |s| && units == UnitsOf(s[..i])
    {
      assert s[..i + 1][..i] == s[..i];
      units := units + Units(s[i]);
      i := i + 1;
    }
    assert s[..|s|] == s;
  }

  // ---- offset to position

  /** The start of the scalar at `offset`, or the end of the text. */
  method ClampToBoundary(text: Text, bytes: seq<byte>, offset: nat) returns (at: nat)
    requires Spells(bytes, text)
    ensures at == ByteAt(text, Floor(text, offset, |text|))
  {
    ghost var k := Floor(text, offset, |text|);
    at := if offset < |bytes| then offset else |bytes|;
    while at > 0 && !IsBoundary(bytes, at)
      invariant ByteAt(text, k) <= at <= |bytes| && at <= offset
    {
      FloorBetween(text, offset, at);
      BoundariesAreScalars(text, bytes, at);
      at := at - 1;
    }
    FloorBetween(text, offset, at);
    BoundariesAreScalars(text, bytes, at);
  }

  lemma FloorBetween(text: Text, offset: nat, at: nat)
    requires ByteAt(text, Floor(text, offset, |text|)) <= at <= offset
    ensures Floor(text, at, |text|) == Floor(text, offset, |text|)
  {
    var k, r := Floor(text, offset, |text|), Floor(text, at, |text|);
    if r < k { OffsetsGrow(text, r + 1, k); }
    if k < r { OffsetsGrow(text, k + 1, r); }
  }

  /** How many lines end before `at`, and where the last of them does. */
  method CountLines(bytes: seq<byte>, at: nat) returns (line: nat, start: nat)
    requires at <= |bytes|
    ensures line == LinesEnded(bytes, at) && start == LineStart(bytes, at)
  {
    line, start := 0, 0;
    var i := 0;
    while i < at
      invariant 0 <= i <= at
      invariant line == LinesEnded(bytes, i) && start == LineStart(bytes, i)
    {
      if bytes[i] == NEWLINE {
        line := line + 1;
        start := i + 1;
      }
      i := i + 1;
    }
  }

  /** The position of the scalar at `offset`; an offset past the end is the end's, and one inside
      a scalar is that scalar's. */
  method OffsetToPosition(text: Text, bytes: seq<byte>, offset: nat) returns (p: Position)
    requires Spells(bytes, text)
    ensures p == PositionOf(text, Floor(text, offset, |text|))
  {
    ghost var k := Floor(text, offset, |text|);
    var at := ClampToBoundary(text, bytes, offset);
    var line, start := CountLines(bytes, at);
    LinesByBytes(text, bytes, k);
    assert DecodesTo(text, bytes, LineHead(text, k), k);
    var character := CountUnits(Decode(bytes[start..at]).value);
    ColumnIsUnits(text, k);
    return Position(line, character);
  }

  // ---- position to offset

  /** The offset of the scalar a position denotes, reduced to 32 bits as every offset is, wherever
      that scalar's column has 32 bits: always but for the middle of a pair at the last column. */
  method PositionToOffset(text: Text, bytes: seq<byte>, p: Position) returns (offset: nat)
    requires Spells(bytes, text) && p.line < OFFSETS && p.character < OFFSETS
    ensures offset < OFFSETS
    ensures Column(text, IndexOf(text, p)) < OFFSETS ==> offset == ByteAt(text, IndexOf(text, p)) % OFFSETS
    ensures p.character < OFFSETS - 1 ==> offset == ByteAt(text, IndexOf(text, p)) % OFFSETS
  {
    var start, found := FindLineStart(text, bytes, p.line);
    if !found { return |bytes| % OFFSETS; }
    ghost var head := FindLine(text, p.line, 0).value;
    assert DecodesTo(text, bytes, head, |text|);
    assert bytes[start..] == bytes[start..|bytes|] && text[head..|text|] == text[head..];
    FoundLineStarts(text, p.line, 0, head);
    if p.character < OFFSETS - 1 { WalkStops(text, head, p.character); }
    var i := WalkLine(text, head, Decode(bytes[start..]).value, p.character);
    return (start + i) % OFFSETS;
  }

  /** How far into the rest of a text the column is, counting units in 32 bits. */
  method WalkLine(ghost text: Text, ghost head: nat, chars: Text, character: nat) returns (i: nat)
    requires head <= |text| && chars == text[head..] && Column(text, head) == 0 && character < OFFSETS
    ensures Column(text, Walk(text, head, character)) < OFFSETS ==> ByteAt(text, head) + i == ByteAt(text, Walk(text, head, character))
  {
    var units, k := 0, 0;
    ghost var end := Walk(text, head, character);
    ghost var fits := Column(text, end) < OFFSETS;
    i := 0;
    while k < |chars|
      invariant 0 <= k <= |chars|
      invariant fits ==> ByteAt(text, head) + i == ByteAt(text, head + k) && units == Column(text, head + k)
      invariant fits ==> end == Walk(text, head + k, character)
    {
      if chars[k] == NEWLINE || units >= character { return; }
      if fits { StepFits(text, head + k, character); }
      units := (units + Units(chars[k])) % OFFSETS;
      i := i + Width(chars[k]);
      k := k + 1;
    }
  }

  /** A step of a walk that ends at a column of 32 bits is to such a column. */
  lemma StepFits(text: Text, k: nat, character: nat)
    requires k < |text| && text[k] != NEWLINE && Column(text, k) < character
    requires Column(text, Walk(text, k, character)) < OFFSETS
    ensures Column(text, k + 1) == Column(text, k) + Units(text[k]) < OFFSETS
  {
    WalkKeepsLine(text, k + 1, character);
    LinesGrow(text, k + 1, Walk(text, k + 1, character));
  }

  lemma {:induction false} WalkKeepsLine(text: Text, k: nat, character: nat)
    requires k <= |text|
    ensures Line(text, Walk(text, k, character)) == Line(text, k)
    decreases |text| - k
  {
    if !(k == |text| || text[k] == NEWLINE || Column(text, k) >= character) { WalkKeepsLine(text, k + 1, character); }
  }

  /** Where a line starts, if the text has that many. */
  method FindLineStart(text: Text, bytes: seq<byte>, line: nat) returns (start: nat, found: bool)
    requires Spells(bytes, text)
    ensures found <==> FindLine(text, line, 0).Some?
    ensures found ==> start == ByteAt(text, FindLine(text, line, 0).value)
  {
    if line == 0 { return 0, true; }
    var seen, i := 0, 0;
    while i < |bytes|
      invariant 0 <= i <= |bytes| && seen == LinesEnded(bytes, i) && seen < line
    {
      if bytes[i] == NEWLINE {
        seen := seen + 1;
        if seen == line {
          LineFoundAt(text, bytes, i, line);
          return i + 1, true;
        }
      }
      i := i + 1;
    }
    LinesByBytes(text, bytes, |text|);
    NoLineFound(text, line, 0);
    return 0, false;
  }

  lemma LineFoundAt(text: Text, bytes: seq<byte>, i: nat, line: nat)
    requires Spells(bytes, text) && i < |bytes| && bytes[i] == NEWLINE && LinesEnded(bytes, i) + 1 == line
    ensures FindLine(text, line, 0).Some? && ByteAt(text, FindLine(text, line, 0).value) == i + 1
  {
    var k := Floor(text, i, |text|);
    BoundariesAreScalars(text, bytes, i);
    LinesByBytes(text, bytes, k);
    FoundLineStarts(text, line, 0, k + 1);
    var r := FindLine(text, line, 0).value;
    if r <= k { LinesGrow(text, r, k); }
  }

  // ---- both ways

  /** An offset's position is taken back to the offset of the scalar it is in: to itself, at a
      scalar's start. */
  method ThereAndBack(text: Text, offset: nat) returns (back: nat)
    requires offset < OFFSETS
    ensures back == ByteAt(text, Floor(text, offset, |text|))
    ensures offset <= |Encode(text)| && IsBoundary(Encode(text), offset) ==> back == offset
  {
    var bytes := Encode(text);
    EncodeSpells(text, bytes);
    var p := OffsetToPosition(text, bytes, offset);
    ScalarIsFound(text, Floor(text, offset, |text|));
    back := PositionToOffset(text, bytes, p);
    if offset <= |bytes| { BoundariesAreScalars(text, bytes, offset); }
  }

  /** A scalar that starts within 32 bits is found again at its position. */
  lemma ScalarIsFound(text: Text, k: nat)
    requires k <= |text| && ByteAt(text, k) < OFFSETS
    ensures var p := PositionOf(text, k);
      p.line < OFFSETS && p.character < OFFSETS && IndexOf(text, p) == k && Column(text, k) < OFFSETS
    ensures ByteAt(text, k) % OFFSETS == ByteAt(text, k)
  {
    IndexOfPosition(text, k);
    PositionFits(text, k);
  }

  /** Lines and columns number no more than the bytes before them. */
  lemma {:induction false} PositionFits(text: Text, k: nat)
    requires k <= |text|
    ensures Line(text, k) <= ByteAt(text, k) && Column(text, k) <= ByteAt(text, k)
    decreases k
  {
    if k > 0 { PositionFits(text, k - 1); }
  }
}
