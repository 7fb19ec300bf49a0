/** The anchors of a documentation page's headings. */
module PageAnchors {
  import opened Basics
  import FloatText

  datatype Kind = Struct | Type | Effect | Handler | Qualifier | Group | Fn

  function Word(k: Kind): string {
    match k
    case Struct => "struct"
    case Type => "type"
    case Effect => "effect"
    case Handler => "handler"
    case Qualifier => "qualifier"
    case Group => "fns"
    case Fn => "fn"
  }

  /** The section a kind is listed under. */
  function Rank(k: Kind): nat {
    match k
    case Struct => 0
    case Type => 0
    case Effect => 1
    case Handler => 2
    case Qualifier => 3
    case Group => 4
    case Fn => 5
  }

  datatype Heading = Heading(kind: Kind, name: string)

  // ---- anchors

  /** What a character becomes: lowercased, a dash for a space, nothing where it is dropped. */
  function CharAnchor(c: char): string {
    if 'A' <= c <= 'Z' then [((c as int) + 32) as char]
    else if 'a' <= c <= 'z' || '0' <= c <= '9' || c == '-' || c == '_' then [c]
    else if c == ' ' then "-"
    else ""
  }

  function Anchor(s: string): string {
    if s == [] then [] else CharAnchor(s[0]) + Anchor(s[1..])
  }

  function Base(h: Heading): string {
    Anchor(Word(h.kind) + " " + h.name)
  }

  /** A heading's anchor when `n` earlier ones had the same base. */
  function Numbered(b: string, n: nat): string {
    if n == 0 then b else b + "-" + FloatText.IntText(n)
  }

  function Dashes(s: string): nat {
    if s == [] then 0 else (if s[0] == '-' then 1 else 0) + Dashes(s[1..])
  }

  function Marks(s: string): nat {
    if s == [] then 0 else (if s[0] == '-' || s[0] == ' ' then 1 else 0) + Marks(s[1..])
  }

  lemma {:induction false} DashesAdd(a: string, b: string)
    ensures Dashes(a + b) == Dashes(a) + Dashes(b)
  {
    if a == [] {
      assert a + b == b;
    } else {
      assert (a + b)[1..] == a[1..] + b;
      DashesAdd(a[1..], b);
    }
  }

  lemma {:induction false} MarksAdd(a: string, b: string)
    ensures Marks(a + b) == Marks(a) + Marks(b)
  {
    if a == [] {
      assert a + b == b;
    } else {
      assert (a + b)[1..] == a[1..] + b;
      MarksAdd(a[1..], b);
    }
  }

  lemma {:induction false} AnchorDashes(s: string)
    ensures Dashes(Anchor(s)) == Marks(s)
  {
    if s != [] {
      DashesAdd(CharAnchor(s[0]), Anchor(s[1..]));
      AnchorDashes(s[1..]);
      var one := CharAnchor(s[0]);
      if one != [] { assert one[1..] == []; }
    }
  }

  lemma {:induction false} NoDashes(s: string)
    requires forall i :: 0 <= i < |s| ==> s[i] != '-' && s[i] != ' '
    ensures Dashes(s) == 0 && Marks(s) == 0
  {
    if s != [] { NoDashes(s[1..]); }
  }

  /** A name with no dash and no space. */
  predicate Plain(name: string) {
    forall i :: 0 <= i < |name| ==> name[i] != '-' && name[i] != ' '
  }

  lemma WordsArePlain(k: Kind)
    ensures Plain(Word(k))
  {}

  lemma BaseHasOneDash(h: Heading)
    requires Plain(h.name)
    ensures Dashes(Base(h)) == 1
  {
    var w := Word(h.kind);
    WordsArePlain(h.kind);
    HeadingDashes(w, h.name);
  }

  lemma HeadingDashes(w: string, name: string)
    requires Plain(w) && Plain(name)
    ensures Dashes(Anchor(w + " " + name)) == 1
  {
    AnchorDashes(w + " " + name);
    MarksAdd(w + " ", name);
    MarksAdd(w, " ");
    NoDashes(w);
    NoDashes(name);
    assert " "[1..] == [];
  }

  lemma NumberHasNoDash(n: nat)
    ensures Dashes(FloatText.IntText(n)) == 0
    ensures forall i :: 0 <= i < |FloatText.IntText(n)| ==> FloatText.IntText(n)[i] != '-'
  {
    var d := FloatText.NatDigits(n);
    forall i | 0 <= i < |d| { FloatText.CharsAreDigits(d, i); }
    NoDashes(FloatText.Chars(d));
  }

  /** The last dash splits a text in one way only. */
  lemma LastDash(a: string, x: string, b: string, y: string)
    requires a + "-" + x == b + "-" + y
    requires (forall i :: 0 <= i < |x| ==> x[i] != '-') && forall i :: 0 <= i < |y| ==> y[i] != '-'
    ensures a == b && x == y
  {
    var all := a + "-" + x;
    assert all[|a|] == '-' && all[|b|] == '-';
    assert forall i :: |a| < i < |all| ==> all[i] == x[i - |a| - 1];
    assert forall i :: |b| < i < |all| ==> all[i] == y[i - |b| - 1];
    assert |a| == |b|;
    assert a == all[..|a|] && b == all[..|b|];
    assert x == all[|a| + 1..] && y == all[|b| + 1..];
  }

  /** Two numbered anchors are alike exactly where base and number are the same, or one base is
      the other one numbered. */
  lemma NumberedDiffer(a: string, m: nat, b: string, n: nat)
    ensures Numbered(a, m) == Numbered(b, n) <==>
      || (a == b && m == n)
      || (m == 0 && n > 0 && a == Numbered(b, n))
      || (n == 0 && m > 0 && b == Numbered(a, m))
  {
    NumberHasNoDash(m);
    NumberHasNoDash(n);
    if Numbered(a, m) == Numbered(b, n) && m > 0 && n > 0 {
      LastDash(a, FloatText.IntText(m), b, FloatText.IntText(n));
      FloatText.IntTextDetermines(m, n);
    }
  }

  /** A number behind a base adds a dash. */
  lemma NumberedDashes(b: string, n: nat)
    ensures Dashes(Numbered(b, n)) == Dashes(b) + if n == 0 then 0 else 1
  {
    NumberHasNoDash(n);
    DashesAdd(b + "-", FloatText.IntText(n));
    DashesAdd(b, "-");
    assert "-"[1..] == [];
  }

  // ---- a page

  ghost predicate Distinct<T>(s: seq<T>) {
    forall i, j :: 0 <= i < j < |s| ==> s[i] != s[j]
  }

  /** A heading put behind those of its section, unless it is there. */
  function Insert(order: seq<Heading>, h: Heading): (more: seq<Heading>) {
    if order == [] then [h]
    else if Rank(order[|order| - 1].kind) <= Rank(h.kind) then order + [h]
    else Insert(order[..|order| - 1], h) + [order[|order| - 1]]
  }

  ghost predicate Sorted(order: seq<Heading>) {
    forall i, j :: 0 <= i < j < |order| ==> Rank(order[i].kind) <= Rank(order[j].kind)
  }

  lemma {:induction false} InsertAdds(order: seq<Heading>, h: Heading, x: Heading)
    ensures x in Insert(order, h) <==> x in order || x == h
  {
    if order != [] && Rank(order[|order| - 1].kind) > Rank(h.kind) {
      var init, last := order[..|order| - 1], order[|order| - 1];
      assert order == init + [last];
      InsertAdds(init, h, x);
    }
  }

  lemma SortedWithLast(init: seq<Heading>, last: Heading)
    requires Sorted(init) && forall x :: x in init ==> Rank(x.kind) <= Rank(last.kind)
    ensures Sorted(init + [last])
  {}

  lemma DistinctWithLast(init: seq<Heading>, last: Heading)
    requires Distinct(init) && last !in init
    ensures Distinct(init + [last])
  {}

  lemma {:induction false} InsertSorts(order: seq<Heading>, h: Heading)
    requires Sorted(order)
    ensures Sorted(Insert(order, h))
  {
    if order != [] && Rank(order[|order| - 1].kind) > Rank(h.kind) {
      var init, last := order[..|order| - 1], order[|order| - 1];
      InsertSorts(init, h);
      forall x | x in Insert(init, h)
        ensures Rank(x.kind) <= Rank(last.kind)
      {
        InsertAdds(init, h, x);
      }
      SortedWithLast(Insert(init, h), last);
    } else if order != [] {
      forall x | x in order ensures Rank(x.kind) <= Rank(h.kind) {}
      SortedWithLast(order, h);
    }
  }

  lemma {:induction false} InsertIsNew(order: seq<Heading>, h: Heading)
    requires Distinct(order) && h !in order
    ensures Distinct(Insert(order, h))
  {
    if order != [] && Rank(order[|order| - 1].kind) > Rank(h.kind) {
      var init, last := order[..|order| - 1], order[|order| - 1];
      assert Distinct(init) && last !in init && h != last;
      InsertIsNew(init, h);
      InsertAdds(init, h, last);
      DistinctWithLast(Insert(init, h), last);
    } else if order != [] {
      DistinctWithLast(order, h);
    }
  }

  ghost predicate SameElements(a: seq<Heading>, b: seq<Heading>) {
    forall x :: x in a <==> x in b
  }

  /** The headings of one section, in order. */
  ghost function Section(hs: seq<Heading>, rank: nat): seq<Heading> {
    if hs == [] then []
    else
      var last := hs[|hs| - 1];
      Section(hs[..|hs| - 1], rank) + if Rank(last.kind) == rank then [last] else []
  }

  /** Each heading once, in the order of first occurrences. */
  ghost function Firsts(entries: seq<Heading>): (hs: seq<Heading>)
    ensures SameElements(hs, entries) && Distinct(hs)
  {
    if entries == [] then []
    else
      var init, last := entries[..|entries| - 1], entries[|entries| - 1];
      assert entries == init + [last];
      Firsts(init) + if last in init then [] else [last]
  }

  /** Each section of `order` is the one of `hs`. */
  ghost predicate SameSections(order: seq<Heading>, hs: seq<Heading>) {
    forall rank: nat {:trigger Section(order, rank)} :: Section(order, rank) == Section(hs, rank)
  }

  lemma SectionLast(hs: seq<Heading>, last: Heading, rank: nat)
    ensures Section(hs + [last], rank) == Section(hs, rank) + if Rank(last.kind) == rank then [last] else []
  {
    assert (hs + [last])[..|hs|] == hs;
  }

  /** A heading put in its section stands last there, and moves no other section. */
  lemma {:induction false} InsertInSection(order: seq<Heading>, h: Heading, rank: nat)
    ensures Section(Insert(order, h), rank) == Section(order + [h], rank)
  {
    SectionLast(order, h, rank);
    if order != [] && Rank(order[|order| - 1].kind) > Rank(h.kind) {
      var init, last := order[..|order| - 1], order[|order| - 1];
      InsertInSection(init, h, rank);
      SectionLast(init, h, rank);
      SectionLast(Insert(init, h), last, rank);
    }
  }

  lemma FirstsNext(entries: seq<Heading>, h: Heading)
    ensures Firsts(entries + [h]) == Firsts(entries) + if h in entries then [] else [h]
  {
    assert (entries + [h])[..|entries|] == entries;
  }

  lemma {:induction false} SectionHas(hs: seq<Heading>, rank: nat, h: Heading)
    ensures h in Section(hs, rank) <==> h in hs && Rank(h.kind) == rank
  {
    if hs != [] {
      assert hs == hs[..|hs| - 1] + [hs[|hs| - 1]];
      SectionHas(hs[..|hs| - 1], rank, h);
    }
  }

  lemma LastOfSorted(a: seq<Heading>, b: seq<Heading>)
    requires Sorted(a) && Sorted(b) && SameSections(a, b) && a != []
    ensures b != [] && Rank(b[|b| - 1].kind) >= Rank(a[|a| - 1].kind)
  {
    var last := a[|a| - 1];
    SectionHas(a, Rank(last.kind), last);
    assert Section(a, Rank(last.kind)) == Section(b, Rank(last.kind));
    SectionHas(b, Rank(last.kind), last);
  }

  lemma SameSectionsBack(a: seq<Heading>, b: seq<Heading>)
    requires SameSections(a, b)
    ensures SameSections(b, a)
  {
    forall rank: nat ensures Section(b, rank) == Section(a, rank) { assert Section(a, rank) == Section(b, rank); }
  }

  lemma SameBefore(c: seq<Heading>, x: Heading, d: seq<Heading>, y: Heading, rank: nat)
    requires SameSections(c + [x], d + [y]) && Rank(x.kind) == Rank(y.kind)
    ensures Section(c, rank) == Section(d, rank) && (Rank(x.kind) == rank ==> x == y)
  {
    assert Section(c + [x], rank) == Section(d + [y], rank);
    SectionLast(c, x, rank);
    SectionLast(d, y, rank);
    SameEnd(Section(c, rank), x, Section(d, rank), y, Rank(x.kind) == rank);
  }

  lemma SameLast(c: seq<Heading>, x: Heading, d: seq<Heading>, y: Heading)
    requires SameSections(c + [x], d + [y]) && Rank(x.kind) == Rank(y.kind)
    ensures x == y && SameSections(c, d)
  {
    SameBefore(c, x, d, y, Rank(x.kind));
    forall rank: nat ensures Section(c, rank) == Section(d, rank) { SameBefore(c, x, d, y, rank); }
  }

  /** Sections in their order and each section's headings in theirs: this leaves no choice. */
  lemma {:induction false} SectionsDetermine(a: seq<Heading>, b: seq<Heading>)
    requires Sorted(a) && Sorted(b) && SameSections(a, b)
    ensures a == b
  {
    SameSectionsBack(a, b);
    if a != [] { LastOfSorted(a, b); }
    if b != [] { LastOfSorted(b, a); }
    if a != [] {
      var c, x, d, y := a[..|a| - 1], a[|a| - 1], b[..|b| - 1], b[|b| - 1];
      assert a == c + [x] && b == d + [y];
      SameLast(c, x, d, y);
      SectionsDetermine(c, d);
    }
  }

  lemma SameEnd<T>(a: seq<T>, x: T, b: seq<T>, y: T, more: bool)
    requires a + (if more then [x] else []) == b + (if more then [y] else [])
    ensures a == b && (more ==> x == y)
  {
    if more {
      assert |a + [x]| == |b + [y]|;
      assert a == (a + [x])[..|a|] && b == (b + [y])[..|b|];
      assert x == (a + [x])[|a|] && y == (b + [y])[|b|];
    } else {
      assert a + [] == a && b + [] == b;
    }
  }

  /** The headings sorted by section, those of one section in the order they came. */
  function BySection(hs: seq<Heading>): seq<Heading> {
    if hs == [] then [] else Insert(BySection(hs[..|hs| - 1]), hs[|hs| - 1])
  }

  /** The sort is stable, and by `SectionsDetermine` no other order of the headings is. */
  lemma {:induction false} BySectionIsStable(hs: seq<Heading>)
    ensures Sorted(BySection(hs)) && SameSections(BySection(hs), hs)
  {
    if hs != [] {
      var init, last := hs[..|hs| - 1], hs[|hs| - 1];
      assert hs == init + [last];
      BySectionIsStable(init);
      InsertSorts(BySection(init), last);
      InsertLast(BySection(init), init, last);
    }
  }

  lemma InsertLast(order: seq<Heading>, hs: seq<Heading>, h: Heading)
    requires SameSections(order, hs)
    ensures SameSections(Insert(order, h), hs + [h])
  {
    forall rank: nat
      ensures Section(Insert(order, h), rank) == Section(hs + [h], rank)
    {
      InsertInSection(order, h, rank);
      SectionLast(order, h, rank);
      SectionLast(hs, h, rank);
    }
  }

  lemma {:induction false} BySectionKeeps(hs: seq<Heading>)
    ensures SameElements(BySection(hs), hs) && (Distinct(hs) ==> Distinct(BySection(hs)))
  {
    if hs != [] {
      var init, last := hs[..|hs| - 1], hs[|hs| - 1];
      assert hs == init + [last];
      BySectionKeeps(init);
      forall x ensures x in BySection(hs) <==> x in hs { InsertAdds(BySection(init), last, x); }
      if Distinct(hs) { InsertIsNew(BySection(init), last); }
    }
  }

  /** Each heading of the entries once, by section, and in a section by first occurrence. */
  ghost predicate Ordered(order: seq<Heading>, entries: seq<Heading>) {
    Sorted(order) && Distinct(order) && SameElements(order, entries) && SameSections(order, Firsts(entries))
  }

  // ---- the page's sections

  /** The titles of a page's sections, as they follow each other. */
  const TITLES: seq<string> := ["Types", "Effects", "Handlers", "Qualifiers", "Function groups", "Functions"]

  /** The title a kind is listed under. */
  function Title(k: Kind): string {
    match k
    case Struct => "Types"
    case Type => "Types"
    case Effect => "Effects"
    case Handler => "Handlers"
    case Qualifier => "Qualifiers"
    case Group => "Function groups"
    case Fn => "Functions"
  }

  /** The headings under a title, in order. */
  ghost function Under(hs: seq<Heading>, title: string): seq<Heading> {
    if hs == [] then []
    else
      var last := hs[|hs| - 1];
      Under(hs[..|hs| - 1], title) + if Title(last.kind) == title then [last] else []
  }

  lemma TitlesAreRanks(k: Kind, rank: nat)
    requires rank < |TITLES|
    ensures Title(k) == TITLES[rank] <==> Rank(k) == rank
  {
    assert TITLES[0][0] == 'T' && TITLES[1][0] == 'E' && TITLES[2][0] == 'H' && TITLES[3][0] == 'Q';
    assert |TITLES[4]| == 15 && |TITLES[5]| == 9 && TITLES[4][0] == 'F' && TITLES[5][0] == 'F';
    assert Title(k)[0] == 'F' ==> |Title(k)| == 15 || |Title(k)| == 9;
  }

  lemma {:induction false} UnderIsSection(hs: seq<Heading>, rank: nat)
    requires rank < |TITLES|
    ensures Under(hs, TITLES[rank]) == Section(hs, rank)
  {
    if hs != [] {
      UnderIsSection(hs[..|hs| - 1], rank);
      TitlesAreRanks(hs[|hs| - 1].kind, rank);
    }
  }

  /** The sections of the first `n` ranks, one behind the other. */
  ghost function Sections(hs: seq<Heading>, n: nat): seq<Heading> {
    if n == 0 then [] else Sections(hs, n - 1) + Section(hs, n - 1)
  }

  /** The headings of lower ranks than `n`. */
  ghost function Lower(hs: seq<Heading>, n: nat): seq<Heading> {
    if hs == [] then []
    else
      var last := hs[|hs| - 1];
      Lower(hs[..|hs| - 1], n) + if Rank(last.kind) < n then [last] else []
  }

  lemma LastIsHighest(hs: seq<Heading>, h: Heading)
    requires Sorted(hs) && h in hs
    ensures Rank(h.kind) <= Rank(hs[|hs| - 1].kind)
  {
    var i :| 0 <= i < |hs| && hs[i] == h;
  }

  lemma {:induction false} SortedLower(hs: seq<Heading>, n: nat)
    requires Sorted(hs)
    ensures Lower(hs, n + 1) == Lower(hs, n) + Section(hs, n)
  {
    if hs != [] {
      var init, last := hs[..|hs| - 1], hs[|hs| - 1];
      if Rank(last.kind) < n {
        forall h | h in hs ensures Rank(h.kind) < n { LastIsHighest(hs, h); }
        NoneAbove(hs, n);
      } else {
        SortedLower(init, n);
        Regroup(Lower(init, n), Section(init, n), if Rank(last.kind) == n then [last] else []);
      }
    }
  }

  lemma Regroup<T>(a: seq<T>, b: seq<T>, c: seq<T>)
    ensures (a + b) + c == a + (b + c)
    ensures a + [] == a
  {}

  lemma {:induction false} NoneAbove(hs: seq<Heading>, n: nat)
    requires forall h :: h in hs ==> Rank(h.kind) < n
    ensures Section(hs, n) == [] && Lower(hs, n) == hs && Lower(hs, n + 1) == hs
  {
    if hs != [] {
      assert hs == hs[..|hs| - 1] + [hs[|hs| - 1]];
      NoneAbove(hs[..|hs| - 1], n);
    }
  }

  lemma {:induction false} LowerIsSections(hs: seq<Heading>, n: nat)
    requires Sorted(hs)
    ensures Lower(hs, n) == Sections(hs, n)
  {
    if n == 0 {
      NoneLower(hs);
    } else {
      LowerIsSections(hs, n - 1);
      SortedLower(hs, n - 1);
    }
  }

  lemma {:induction false} NoneLower(hs: seq<Heading>)
    ensures Lower(hs, 0) == []
  {
    if hs != [] { NoneLower(hs[..|hs| - 1]); }
  }

  lemma {:induction false} SectionsAlike(a: seq<Heading>, b: seq<Heading>, n: nat)
    requires SameSections(a, b)
    ensures Sections(a, n) == Sections(b, n)
  {
    if n > 0 {
      SectionsAlike(a, b, n - 1);
      assert Section(a, n - 1) == Section(b, n - 1);
    }
  }

  /** A page's headings are those under each title, title by title, each in the order the entries
      first name them. */
  lemma PageBySections(order: seq<Heading>, entries: seq<Heading>)
    requires Ordered(order, entries)
    ensures var hs := Firsts(entries);
      order == Under(hs, "Types") + Under(hs, "Effects") + Under(hs, "Handlers") + Under(hs, "Qualifiers")
        + Under(hs, "Function groups") + Under(hs, "Functions")
  {
    var hs := Firsts(entries);
    NoneAbove(order, 6);
    LowerIsSections(order, 6);
    SectionsAlike(order, hs, 6);
    SixSections(hs);
  }

  lemma SixSections(hs: seq<Heading>)
    ensures Sections(hs, 6) == Under(hs, "Types") + Under(hs, "Effects") + Under(hs, "Handlers") + Under(hs, "Qualifiers")
      + Under(hs, "Function groups") + Under(hs, "Functions")
  {
    UnderIsSection(hs, 0);
    UnderIsSection(hs, 1);
    UnderIsSection(hs, 2);
    UnderIsSection(hs, 3);
    UnderIsSection(hs, 4);
    UnderIsSection(hs, 5);
    assert Sections(hs, 1) == Section(hs, 0);
    assert Sections(hs, 2) == Sections(hs, 1) + Section(hs, 1);
    assert Sections(hs, 3) == Sections(hs, 2) + Section(hs, 2);
    assert Sections(hs, 4) == Sections(hs, 3) + Section(hs, 3);
    assert Sections(hs, 5) == Sections(hs, 4) + Section(hs, 4);
  }

  /** One heading per kind and name, by section. */
  method Order(entries: seq<Heading>) returns (order: seq<Heading>)
    ensures Ordered(order, entries)
  {
    var found: seq<Heading> := [];
    for i := 0 to |entries|
      invariant found == Firsts(entries[..i])
    {
      assert entries[..i + 1] == entries[..i] + [entries[i]];
      FirstsNext(entries[..i], entries[i]);
      if entries[i] !in found { found := found + [entries[i]]; }
    }
    assert entries[..|entries|] == entries;
    BySectionIsStable(found);
    BySectionKeeps(found);
    order := BySection(found);
  }

  ghost function Bases(order: seq<Heading>): (bases: seq<string>)
    ensures |bases| == |order| && forall i :: 0 <= i < |order| ==> bases[i] == Base(order[i])
  {
    seq(|order|, i requires 0 <= i < |order| => Base(order[i]))
  }

  /** How many of the first `n` bases are this one. */
  function Earlier(bases: seq<string>, n: nat, b: string): nat
    requires n <= |bases|
  {
    if n == 0 then 0 else Earlier(bases, n - 1, b) + if bases[n - 1] == b then 1 else 0
  }

  lemma {:induction false} EarlierGrows(bases: seq<string>, m: nat, n: nat)
    requires m < n <= |bases|
    ensures Earlier(bases, m, bases[m]) < Earlier(bases, n, bases[m])
    decreases n
  {
    if m < n - 1 { EarlierGrows(bases, m, n - 1); }
  }

  /** Each anchor is its base, numbered by the bases before it that are the same. */
  ghost predicate AnchorsOf(bases: seq<string>, anchors: seq<string>) {
    |anchors| <= |bases| &&
    forall i :: 0 <= i < |anchors| ==> anchors[i] == Numbered(bases[i], Earlier(bases, i, bases[i]))
  }

  ghost predicate Counts(bases: seq<string>, n: nat, seen: map<string, nat>)
    requires n <= |bases|
  {
    forall b {:trigger SeenTimes(seen, b)} :: SeenTimes(seen, b) == Earlier(bases, n, b)
  }

  function SeenTimes(seen: map<string, nat>, b: string): nat {
    if b in seen then seen[b] else 0
  }

  lemma CountOne(bases: seq<string>, n: nat, seen: map<string, nat>, b: string)
    requires n < |bases| && Counts(bases, n, seen) && b == bases[n]
    ensures SeenTimes(seen, b) == Earlier(bases, n, b) && Counts(bases, n + 1, seen[b := SeenTimes(seen, b) + 1])
  {
    var more := seen[b := SeenTimes(seen, b) + 1];
    forall c
      ensures SeenTimes(more, c) == Earlier(bases, n + 1, c)
    {
      assert SeenTimes(seen, c) == Earlier(bases, n, c);
    }
  }

  lemma AnchorNext(bases: seq<string>, anchors: seq<string>, n: nat, a: string)
    requires n < |bases| && |anchors| == n && AnchorsOf(bases, anchors) && a == Numbered(bases[n], Earlier(bases, n, bases[n]))
    ensures AnchorsOf(bases, anchors + [a])
  {}

  /** Some base is another one numbered by a count that one reaches. */
  ghost predicate NumberedIsABase(bases: seq<string>) {
    exists i, j :: 0 <= i < |bases| && 0 <= j < |bases| && IsNumberOf(bases, i, j)
  }

  predicate IsNumberOf(bases: seq<string>, i: nat, j: nat)
    requires i < |bases| && j < |bases|
  {
    Earlier(bases, j, bases[j]) > 0 && bases[i] == Numbered(bases[j], Earlier(bases, j, bases[j]))
  }

  lemma {:induction false} FirstOfBase(bases: seq<string>, i: nat) returns (k: nat)
    requires i < |bases|
    ensures k <= i && bases[k] == bases[i] && Earlier(bases, k, bases[k]) == 0
  {
    if Earlier(bases, i, bases[i]) == 0 {
      k := i;
    } else {
      var j := EarlierOne(bases, i, bases[i]);
      k := FirstOfBase(bases, j);
    }
  }

  lemma {:induction false} EarlierOne(bases: seq<string>, n: nat, b: string) returns (j: nat)
    requires n <= |bases| && Earlier(bases, n, b) > 0
    ensures j < n && bases[j] == b
  {
    if bases[n - 1] == b { j := n - 1; } else { j := EarlierOne(bases, n - 1, b); }
  }

  lemma AlikeMeansNumbered(bases: seq<string>, anchors: seq<string>, i: nat, j: nat)
    requires AnchorsOf(bases, anchors) && i < j < |anchors| && anchors[i] == anchors[j]
    ensures NumberedIsABase(bases)
  {
    var m, n := Earlier(bases, i, bases[i]), Earlier(bases, j, bases[j]);
    NumberedDiffer(bases[i], m, bases[j], n);
    if bases[i] == bases[j] { EarlierGrows(bases, i, j); }
    assert IsNumberOf(bases, i, j) || IsNumberOf(bases, j, i);
  }

  lemma NumberedMeansAlike(bases: seq<string>, anchors: seq<string>, i: nat, j: nat)
    requires AnchorsOf(bases, anchors) && |anchors| == |bases| && i < |bases| && j < |bases| && IsNumberOf(bases, i, j)
    ensures !Distinct(anchors)
  {
    var k := FirstOfBase(bases, i);
    assert anchors[k] == bases[i] == anchors[j];
    assert |Numbered(bases[j], Earlier(bases, j, bases[j]))| > |bases[j]|;
    assert k != j;
    if k < j { assert anchors[k] == anchors[j]; } else { assert anchors[j] == anchors[k]; }
  }

  /** Two anchors of a page meet if and only if a base is another base numbered by a count it
      reaches. */
  lemma AnchorsMeetExactly(bases: seq<string>, anchors: seq<string>)
    requires AnchorsOf(bases, anchors) && |anchors| == |bases|
    ensures !Distinct(anchors) <==> NumberedIsABase(bases)
  {
    if !Distinct(anchors) {
      var i, j :| 0 <= i < j < |anchors| && anchors[i] == anchors[j];
      AlikeMeansNumbered(bases, anchors, i, j);
    }
    if NumberedIsABase(bases) {
      var i, j :| 0 <= i < |bases| && 0 <= j < |bases| && IsNumberOf(bases, i, j);
      NumberedMeansAlike(bases, anchors, i, j);
    }
  }

  /** Bases of one dash each: none is another one numbered. */
  lemma OneDashBasesDiffer(bases: seq<string>)
    requires forall i :: 0 <= i < |bases| ==> Dashes(bases[i]) == 1
    ensures !NumberedIsABase(bases)
  {
    forall i, j | 0 <= i < |bases| && 0 <= j < |bases|
      ensures !IsNumberOf(bases, i, j)
    {
      NumberedDashes(bases[j], Earlier(bases, j, bases[j]));
    }
  }

  // ---- a page whose anchors meet

  lemma {:induction false} AnchorAdds(a: string, b: string)
    ensures Anchor(a + b) == Anchor(a) + Anchor(b)
  {
    if a == [] {
      assert a + b == b;
    } else {
      assert (a + b)[1..] == a[1..] + b;
      AnchorAdds(a[1..], b);
    }
  }

  lemma AnchorOne(c: char)
    ensures Anchor([c]) == CharAnchor(c)
  {
    assert [c][1..] == [];
  }

  lemma AnchorTwo(c: char, d: char)
    ensures Anchor([c, d]) == CharAnchor(c) + CharAnchor(d)
  {
    assert [c, d] == [c] + [d];
    AnchorAdds([c], [d]);
    AnchorOne(c);
    AnchorOne(d);
  }

  lemma AnchorThree(a: string, b: string, c: string)
    ensures Anchor(a + b + c) == Anchor(a) + Anchor(b) + Anchor(c)
  {
    AnchorAdds(a + b, c);
    AnchorAdds(a, b);
  }

  lemma FnBase(name: string)
    ensures Base(Heading(Fn, name)) == "fn" + "-" + Anchor(name)
  {
    AnchorThree("fn", " ", name);
    AnchorTwo('f', 'n');
    AnchorOne(' ');
  }

  const OKS: seq<Heading> := [Heading(Fn, "ok"), Heading(Fn, "Ok"), Heading(Fn, "ok-1")]

  lemma OkAnchors()
    ensures Anchor("ok") == "ok" && Anchor("Ok") == "ok" && Anchor("ok-1") == "ok-1"
  {
    AnchorTwo('o', 'k');
    AnchorTwo('O', 'k');
    AnchorTwo('-', '1');
    assert "ok-1" == ['o', 'k'] + ['-', '1'];
    AnchorAdds(['o', 'k'], ['-', '1']);
  }

  lemma OkBases()
    ensures Bases(OKS) == ["fn-ok", "fn-ok", "fn-ok-1"]
  {
    OkAnchors();
    FnBase("ok");
    FnBase("Ok");
    FnBase("ok-1");
    assert "fn" + "-" + "ok" == "fn-ok" && "fn" + "-" + "ok-1" == "fn-ok-1";
  }

  lemma OksAreAPage()
    ensures Sorted(OKS) && Distinct(OKS)
  {
    assert OKS[0].name[0] == 'o' && OKS[1].name[0] == 'O' && OKS[2].name[0] == 'o';
    assert |OKS[0].name| == 2 && |OKS[2].name| == 4;
  }

  lemma OksEarlier()
    ensures var bases := ["fn-ok", "fn-ok", "fn-ok-1"];
      Earlier(bases, 0, bases[0]) == 0 && Earlier(bases, 1, bases[1]) == 1 && Earlier(bases, 2, bases[2]) == 0
  {
    var bases := ["fn-ok", "fn-ok", "fn-ok-1"];
    assert |bases[2]| != |bases[0]|;
    assert Earlier(bases, 1, bases[2]) == 0;
  }

  /** With a dash in a name two headings can share an anchor: `fn ok`, `fn Ok` and `fn ok-1`. */
  lemma DashedNamesCollide(anchors: seq<string>)
    requires |anchors| == |OKS| && AnchorsOf(Bases(OKS), anchors)
    ensures Sorted(OKS) && Distinct(OKS)
    ensures anchors == ["fn-ok", "fn-ok-1", "fn-ok-1"]
  {
    OksAreAPage();
    OkBases();
    OksEarlier();
    assert FloatText.NatDigits(1) == [1];
    assert FloatText.IntText(1) == "1";
    assert "fn-ok" + "-" + "1" == "fn-ok-1";
  }

  method Number(order: seq<Heading>) returns (anchors: seq<string>)
    ensures |anchors| == |order| && AnchorsOf(Bases(order), anchors)
  {
    ghost var bases := Bases(order);
    anchors := [];
    var seen: map<string, nat> := map[];
    for i := 0 to |order|
      invariant |anchors| == i && AnchorsOf(bases, anchors) && Counts(bases, i, seen)
    {
      var b := Base(order[i]);
      assert b == bases[i];
      var n := SeenTimes(seen, b);
      CountOne(bases, i, seen, b);
      AnchorNext(bases, anchors, i, Numbered(b, n));
      anchors := anchors + [Numbered(b, n)];
      seen := seen[b := n + 1];
    }
  }

  lemma PlainBases(order: seq<Heading>)
    requires forall h :: h in order ==> Plain(h.name)
    ensures forall i :: 0 <= i < |order| ==> Dashes(Bases(order)[i]) == 1
  {
    forall i | 0 <= i < |order|
      ensures Dashes(Bases(order)[i]) == 1
    {
      assert order[i] in order;
      BaseHasOneDash(order[i]);
    }
  }

  ghost predicate AllPlain(hs: seq<Heading>) {
    forall h :: h in hs ==> Plain(h.name)
  }

  /** `page_headings`: every entry's heading once, by section, each with its own anchor. Two
      anchors meet exactly where a base is another one numbered, so never where names have no
      dash and no space. */
  method PageHeadings(entries: seq<Heading>) returns (order: seq<Heading>, anchors: seq<string>)
    ensures Ordered(order, entries)
    ensures |anchors| == |order| && AnchorsOf(Bases(order), anchors)
    ensures Distinct(anchors) <==> !NumberedIsABase(Bases(order))
    ensures AllPlain(entries) ==> Distinct(anchors)
  {
    order := Order(entries);
    anchors := Number(order);
    AnchorsMeetExactly(Bases(order), anchors);
    if AllPlain(entries) {
      PlainBases(order);
      OneDashBasesDiffer(Bases(order));
    }
  }

  method Find(hs: seq<Heading>, h: Heading) returns (at: Option<nat>)
    ensures at.Some? ==> at.value < |hs| && hs[at.value] == h
    ensures at.None? ==> h !in hs
  {
    for i := 0 to |hs|
      invariant h !in hs[..i]
    {
      if hs[i] == h { return Some(i); }
    }
    return None;
  }

  /** `entry_anchor`: the anchor beside the heading on the page, if it is there. */
  method EntryAnchor(entries: seq<Heading>, h: Heading)
    returns (anchor: string, ghost order: seq<Heading>, ghost anchors: seq<string>, ghost at: nat)
    ensures Ordered(order, entries)
    ensures |anchors| == |order| && AnchorsOf(Bases(order), anchors)
    ensures h in entries ==> at < |order| && order[at] == h && anchor == anchors[at]
    ensures h !in entries ==> anchor == Base(h)
  {
    var headings, texts := PageHeadings(entries);
    order, anchors, at := headings, texts, 0;
    var found := Find(headings, h);
    match found {
      case Some(i) => anchor, at := texts[i], i;
      case None => anchor := Base(h);
    }
  }
}
