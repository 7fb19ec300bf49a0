/** The camel-case spelling of a value name, the snake-case one of a type name, and clashes. */
module Names {
  import opened Basics

  predicate IsLower(c: char) {
    'a' <= c <= 'z'
  }

  predicate IsUpper(c: char) {
    'A' <= c <= 'Z'
  }

  function ToUpper(c: char): (u: char)
    ensures IsLower(c) ==> IsUpper(u)
  {
    if IsLower(c) then ((c as int) - 32) as char else c
  }

  function ToLower(c: char): (l: char)
    ensures IsUpper(c) ==> IsLower(l)
  {
    if IsUpper(c) then ((c as int) + 32) as char else c
  }

  // ---- camel

  /** Where the first `__` stands. */
  function FindDouble(s: string): (r: Option<nat>)
    ensures r.Some? ==> r.value + 1 < |s| && s[r.value] == '_' && s[r.value + 1] == '_'
    ensures r.Some? ==> forall i :: 0 <= i < r.value ==> !(s[i] == '_' && s[i + 1] == '_')
    ensures r.None? ==> forall i :: 0 <= i < |s| - 1 ==> !(s[i] == '_' && s[i + 1] == '_')
  {
    if |s| < 2 then None
    else if s[0] == '_' && s[1] == '_' then Some(0)
    else
      var r := FindDouble(s[1..]);
      if r.Some? then Some(r.value + 1) else None
  }

  /** Every `_` before a lowercase letter dropped, and the letter made uppercase. */
  function Joined(s: string): string {
    if s == [] then []
    else if s[0] == '_' && |s| > 1 && IsLower(s[1]) then [ToUpper(s[1])] + Joined(s[2..])
    else [s[0]] + Joined(s[1..])
  }

  /** The part of a name that is respelled, and the part from `__` on that is not. */
  function Head(name: string): string {
    var at := FindDouble(name);
    if at.Some? then name[..at.value] else name
  }

  function Tail(name: string): string {
    var at := FindDouble(name);
    if at.Some? then name[at.value..] else []
  }

  predicate StartsLower(s: string) {
    s != [] && IsLower(s[0])
  }

  lemma Concat(a: string, b: string, c: string)
    ensures (a + b) + c == a + (b + c)
  {}

  /** The camel-case spelling. */
  function CamelOf(name: string): string {
    if !StartsLower(name) then name else Joined(Head(name)) + Tail(name)
  }

  lemma JoinedFrom(s: string, i: nat)
    requires i < |s|
    ensures Joined(s[i..]) ==
      if s[i] == '_' && i + 1 < |s| && IsLower(s[i + 1]) then [ToUpper(s[i + 1])] + Joined(s[i + 2..]) else [s[i]] + Joined(s[i + 1..])
  {
    assert s[i..][1..] == s[i + 1..];
    if i + 1 < |s| { assert s[i..][2..] == s[i + 2..]; }
  }

  /** One character at a time, or two where an underscore is dropped. */
  method JoinWords(head: string) returns (out: string)
    ensures out == Joined(head)
  {
    out := [];
    var i := 0;
    assert head[0..] == head;
    while i < |head|
      invariant 0 <= i <= |head| && out + Joined(head[i..]) == Joined(head)
    {
      ghost var was := out;
      JoinedFrom(head, i);
      if head[i] == '_' && i + 1 < |head| && IsLower(head[i + 1]) {
        out := out + [ToUpper(head[i + 1])];
        i := i + 2;
        Concat(was, [ToUpper(head[i - 1])], Joined(head[i..]));
      } else {
        out := out + [head[i]];
        i := i + 1;
        Concat(was, [head[i - 1]], Joined(head[i..]));
      }
    }
  }

  /** `camel`: a name's part before any `__`, when the name starts lowercase. */
  method Camel(name: string) returns (out: string)
    ensures out == CamelOf(name)
  {
    if name == [] || !IsLower(name[0]) { return name; }
    var at := FindDouble(name);
    match at {
      case Some(i) =>
        var head := JoinWords(name[..i]);
        out := head + name[i..];
      case None =>
        out := JoinWords(name);
        assert out + [] == out;
    }
  }

  // ---- snake

  function EndsUnderscore(s: string): bool {
    s != [] && s[|s| - 1] == '_'
  }

  /** The snake-case spelling of `s`, behind what is spelled already. */
  function Split(out: string, s: string): string
    decreases s
  {
    if s == [] then out
    else if IsUpper(s[0]) then
      Split(out + (if out != [] && !EndsUnderscore(out) then "_" else "") + [ToLower(s[0])], s[1..])
    else Split(out + [s[0]], s[1..])
  }

  function SnakeOf(name: string): string {
    Split([], name)
  }

  method Snake(name: string) returns (out: string)
    ensures out == SnakeOf(name)
  {
    out := [];
    var i := 0;
    while i < |name|
      invariant 0 <= i <= |name| && Split(out, name[i..]) == SnakeOf(name)
      invariant out == [] <==> i == 0
    {
      var c := name[i];
      assert name[i..][1..] == name[i + 1..];
      if IsUpper(c) {
        ghost var was := out;
        if i > 0 && !EndsUnderscore(out) {
          out := out + "_";
        }
        assert was + "" == was;
        out := out + [ToLower(c)];
      } else {
        out := out + [c];
      }
      i := i + 1;
    }
    assert name[|name|..] == [];
  }

  // ---- the two together

  predicate NoUpper(s: string) {
    forall i :: 0 <= i < |s| ==> !IsUpper(s[i])
  }

  predicate NoDouble(s: string) {
    forall i :: 0 <= i < |s| - 1 ==> !(s[i] == '_' && s[i + 1] == '_')
  }

  lemma {:induction false} SplitKeeps(out: string, s: string)
    requires NoUpper(s)
    ensures Split(out, s) == out + s
    decreases s
  {
    if s == [] {
      assert out + s == out;
    } else {
      SplitKeeps(out + [s[0]], s[1..]);
      assert out + [s[0]] + s[1..] == out + s;
    }
  }

  lemma SplitLower(out: string, c: char, s: string)
    requires !IsUpper(c)
    ensures Split(out, [c] + s) == Split(out + [c], s)
  {
    assert ([c] + s)[1..] == s;
  }

  lemma SplitUpper(out: string, c: char, s: string)
    requires IsLower(c) && out != [] && !EndsUnderscore(out)
    ensures Split(out, [ToUpper(c)] + s) == Split(out + ['_', c], s)
  {
    assert ([ToUpper(c)] + s)[1..] == s;
    assert ToLower(ToUpper(c)) == c;
    assert out + "_" + [c] == out + ['_', c];
  }

  /** Splitting undoes joining: each dropped underscore comes back before its letter. */
  lemma {:induction false} SplitJoined(out: string, s: string, tail: string)
    requires NoUpper(s) && NoDouble(s) && out != [] && (s != [] && s[0] == '_' ==> !EndsUnderscore(out))
    ensures Split(out, Joined(s) + tail) == Split(out + s, tail)
    decreases s
  {
    if s == [] {
      assert Joined(s) + tail == tail && out + s == out;
    } else if s[0] == '_' && |s| > 1 && IsLower(s[1]) {
      Concat([ToUpper(s[1])], Joined(s[2..]), tail);
      SplitUpper(out, s[1], Joined(s[2..]) + tail);
      SplitJoined(out + ['_', s[1]], s[2..], tail);
      assert out + ['_', s[1]] + s[2..] == out + s;
    } else {
      Concat([s[0]], Joined(s[1..]), tail);
      SplitLower(out, s[0], Joined(s[1..]) + tail);
      SplitJoined(out + [s[0]], s[1..], tail);
      assert out + [s[0]] + s[1..] == out + s;
    }
  }

  lemma HeadAndTail(name: string)
    ensures name == Head(name) + Tail(name) && NoDouble(Head(name))
    ensures StartsLower(name) ==> Head(name) != [] && Head(name)[0] == name[0]
    ensures NoUpper(name) ==> NoUpper(Head(name)) && NoUpper(Tail(name))
  {}

  lemma SplitFirst(head: string, tail: string)
    requires StartsLower(head) && NoUpper(head) && NoDouble(head)
    ensures Split([], Joined(head) + tail) == Split(head, tail)
  {
    var c, rest := head[0], head[1..];
    assert head == [c] + rest && [] + [c] == [c];
    Concat([c], Joined(rest), tail);
    SplitLower([], c, Joined(rest) + tail);
    SplitJoined([c], rest, tail);
  }

  /** A name written in lowercase is got back from its camel-case spelling. */
  lemma SnakeOfCamel(name: string)
    requires StartsLower(name) && NoUpper(name)
    ensures SnakeOf(CamelOf(name)) == name
  {
    HeadAndTail(name);
    SplitFirst(Head(name), Tail(name));
    SplitKeeps(Head(name), Tail(name));
  }

  /** So no two of them are spelled alike. */
  lemma CamelIsInjective(a: string, b: string)
    requires StartsLower(a) && NoUpper(a) && StartsLower(b) && NoUpper(b)
    ensures CamelOf(a) == CamelOf(b) <==> a == b
  {
    SnakeOfCamel(a);
    SnakeOfCamel(b);
  }

  /** Names with uppercase letters can be: a clash is possible. */
  lemma CamelCollides()
    ensures CamelOf("a_b") == CamelOf("aB") == "aB"
  {
    assert FindDouble("b") == None && FindDouble("_b") == None && FindDouble("a_b") == None;
    assert Joined("b") == "b";
  }

  // ---- camel twice

  lemma NoDoubleCons(c: char, r: string)
    requires NoDouble(r) && (r == [] || c != '_' || r[0] != '_')
    ensures NoDouble([c] + r)
  {
    var all := [c] + r;
    forall i | 0 <= i < |all| - 1
      ensures !(all[i] == '_' && all[i + 1] == '_')
    {
      assert all[i + 1] == r[i];
      if i > 0 { assert all[i] == r[i - 1]; }
    }
  }

  lemma NoDoubleRest(s: string, n: nat)
    requires NoDouble(s) && n <= |s|
    ensures NoDouble(s[n..])
  {
    var r := s[n..];
    forall i | 0 <= i < |r| - 1
      ensures !(r[i] == '_' && r[i + 1] == '_')
    {
      assert r[i] == s[n + i] && r[i + 1] == s[n + i + 1];
    }
  }

  /** A joined text: no underscore in it is before another, or before a lowercase letter. */
  ghost predicate IsJoined(s: string) {
    NoDouble(s) && Joined(s) == s
  }

  lemma JoinedCons(c: char, r: string)
    requires IsJoined(r) && (r == [] || c != '_' || (r[0] != '_' && !IsLower(r[0])))
    ensures IsJoined([c] + r)
  {
    NoDoubleCons(c, r);
    assert ([c] + r)[1..] == r;
  }

  lemma {:induction false} JoinedStaysJoined(s: string)
    requires NoDouble(s)
    ensures IsJoined(Joined(s))
    decreases s
  {
    if s != [] {
      if s[0] == '_' && |s| > 1 && IsLower(s[1]) {
        NoDoubleRest(s, 2);
        JoinedStaysJoined(s[2..]);
        JoinedCons(ToUpper(s[1]), Joined(s[2..]));
      } else {
        NoDoubleRest(s, 1);
        JoinedStaysJoined(s[1..]);
        JoinedStarts(s[1..]);
        JoinedCons(s[0], Joined(s[1..]));
      }
    }
  }

  lemma JoinedStarts(s: string)
    ensures s == [] <==> Joined(s) == []
    ensures s != [] && s[0] != '_' ==> Joined(s)[0] == s[0]
  {}

  lemma {:induction false} JoinedEnds(s: string)
    requires s != [] && s[|s| - 1] != '_'
    ensures Joined(s) != [] && Joined(s)[|Joined(s)| - 1] != '_'
    decreases s
  {
    if s[0] == '_' && |s| > 1 && IsLower(s[1]) {
      if |s| > 2 { JoinedEnds(s[2..]); }
    } else if |s| > 1 {
      JoinedEnds(s[1..]);
    }
  }

  lemma {:induction false} DoubleBehind(a: string, t: string)
    requires NoDouble(a) && (a == [] || a[|a| - 1] != '_')
    requires |t| > 1 && t[0] == '_' && t[1] == '_'
    ensures FindDouble(a + t) == Some(|a|)
  {
    if a == [] {
      assert a + t == t;
    } else {
      var rest, s := a[1..], a + t;
      assert s[1..] == rest + t && |s| > 2;
      assert !(s[0] == '_' && s[1] == '_') by {
        assert s[0] == a[0];
        if rest != [] { assert s[1] == a[1]; } else { assert a[|a| - 1] == a[0]; }
      }
      NoDoubleRest(a, 1);
      DoubleBehind(rest, t);
    }
  }

  lemma {:induction false} NoneFound(s: string)
    requires NoDouble(s)
    ensures FindDouble(s) == None
  {
    if s != [] { NoDoubleRest(s, 1); }
    if |s| > 1 {
      assert !(s[0] == '_' && s[1] == '_');
      NoneFound(s[1..]);
    }
  }

  lemma TailIsDouble(name: string)
    requires Tail(name) != []
    ensures |Tail(name)| > 1 && Tail(name)[0] == '_' && Tail(name)[1] == '_'
    ensures Head(name) != [] ==> Head(name)[|Head(name)| - 1] != '_'
  {}

  /** Spelling a name twice changes nothing more. */
  lemma CamelIsIdempotent(name: string)
    ensures CamelOf(CamelOf(name)) == CamelOf(name)
  {
    if StartsLower(name) {
      HeadAndTail(name);
      var head, tail := Head(name), Tail(name);
      var j := Joined(head);
      JoinedStaysJoined(head);
      JoinedStarts(head);
      if head != [] && head[|head| - 1] != '_' { JoinedEnds(head); }
      var camel := j + tail;
      if tail == [] {
        assert camel == j;
        NoneFound(j);
      } else {
        TailIsDouble(name);
        DoubleBehind(j, tail);
        assert camel[..|j|] == j && camel[|j|..] == tail;
      }
    }
  }

  // ---- clashes

  ghost function Spellings(names: seq<string>): (keys: seq<string>)
    ensures |keys| == |names| && forall i :: 0 <= i < |names| ==> keys[i] == CamelOf(names[i])
  {
    seq(|names|, i requires 0 <= i < |names| => CamelOf(names[i]))
  }

  /** The names at `i` and `j` are two, spelled alike. */
  ghost predicate Clash(names: seq<string>, keys: seq<string>, i: nat, j: nat)
    requires |keys| == |names|
  {
    i < j < |names| && names[i] != names[j] && keys[i] == keys[j]
  }

  /** The clash whose second name comes earliest, with the earliest name it clashes with. */
  ghost predicate Earliest(names: seq<string>, keys: seq<string>, i: nat, j: nat)
    requires |keys| == |names|
  {
    Clash(names, keys, i, j) && forall k: nat, l: nat :: Clash(names, keys, k, l) ==> j < l || (j == l && i <= k)
  }

  /** What the loop remembers: of each spelling the first name, and no clash so far. */
  ghost predicate Remembered(names: seq<string>, keys: seq<string>, n: nat, seen: map<string, string>)
    requires |keys| == |names|
  {
    && n <= |names|
    && (forall i :: 0 <= i < n ==> keys[i] in seen && seen[keys[i]] == names[i])
    && (forall k :: k in seen ==> exists i :: 0 <= i < n && keys[i] == k)
  }

  lemma {:induction false} FirstWith(keys: seq<string>, key: string, n: nat) returns (i: nat)
    requires n <= |keys| && exists k :: 0 <= k < n && keys[k] == key
    ensures i < n && keys[i] == key && forall k :: 0 <= k < i ==> keys[k] != key
  {
    if k :| 0 <= k < n - 1 && keys[k] == key { i := FirstWith(keys, key, n - 1); } else { i := n - 1; }
  }

  lemma NoClashBefore(names: seq<string>, keys: seq<string>, n: nat, seen: map<string, string>, k: nat, l: nat)
    requires |keys| == |names| && Remembered(names, keys, n, seen) && Clash(names, keys, k, l)
    ensures l >= n
  {}

  lemma FoundEarliest(names: seq<string>, keys: seq<string>, j: nat, seen: map<string, string>) returns (i: nat)
    requires |keys| == |names| && Remembered(names, keys, j, seen) && j < |names|
    requires keys[j] in seen && seen[keys[j]] != names[j]
    ensures Earliest(names, keys, i, j) && names[i] == seen[keys[j]]
  {
    i := FirstWith(keys, keys[j], j);
    forall k: nat, l: nat | Clash(names, keys, k, l)
      ensures j < l || (j == l && i <= k)
    {
      NoClashBefore(names, keys, j, seen, k, l);
    }
  }

  /** `camel_clash`: the earliest clash, exactly when there is one. */
  method CamelClash(names: seq<string>) returns (clash: Option<(string, string)>)
    ensures clash.None? <==> forall i: nat, j: nat :: !Clash(names, Spellings(names), i, j)
    ensures clash.Some? ==> exists i: nat, j: nat :: Earliest(names, Spellings(names), i, j) && clash.value == (names[i], names[j])
  {
    ghost var keys := Spellings(names);
    var seen: map<string, string> := map[];
    var j := 0;
    while j < |names|
      invariant 0 <= j <= |names| && Remembered(names, keys, j, seen)
    {
      var key := Camel(names[j]);
      assert key == keys[j];
      if key in seen {
        if seen[key] != names[j] {
          ghost var i := FoundEarliest(names, keys, j, seen);
          return Some((seen[key], names[j]));
        }
      } else {
        seen := seen[key := names[j]];
      }
      j := j + 1;
    }
    forall k: nat, l: nat
      ensures !Clash(names, keys, k, l)
    {
      if Clash(names, keys, k, l) { NoClashBefore(names, keys, j, seen, k, l); }
    }
    return None;
  }
}
