/** The two spellings of a name, letter by letter. */
module NameSpelling {
  import opened Basics
  import opened Names

  // ---- snake

  /** What an uppercase letter becomes: lowercase, behind an underscore unless it is the first
      letter or one stands there; any other letter is kept. */
  function SnakeLetter(name: string, i: nat): string
    requires i < |name|
  {
    if !IsUpper(name[i]) then [name[i]]
    else if i == 0 || name[i - 1] == '_' then [ToLower(name[i])]
    else ['_', ToLower(name[i])]
  }

  function SnakeLetters(name: string, n: nat): string
    requires n <= |name|
  {
    if n == 0 then [] else SnakeLetters(name, n - 1) + SnakeLetter(name, n - 1)
  }

  lemma LettersEnd(name: string, n: nat)
    requires 0 < n <= |name|
    ensures SnakeLetters(name, n) != [] && (EndsUnderscore(SnakeLetters(name, n)) <==> name[n - 1] == '_')
  {
    var last := SnakeLetter(name, n - 1);
    assert last != [] && SnakeLetters(name, n)[|SnakeLetters(name, n)| - 1] == last[|last| - 1];
  }

  lemma {:induction false} SplitFromLetters(name: string, n: nat)
    requires n <= |name|
    ensures Split(SnakeLetters(name, n), name[n..]) == SnakeLetters(name, |name|)
    decreases |name| - n
  {
    if n < |name| {
      var out := SnakeLetters(name, n);
      if n > 0 { LettersEnd(name, n); }
      SplitFromLetters(name, n + 1);
      assert name[n..][0] == name[n] && name[n..][1..] == name[n + 1..];
      if IsUpper(name[n]) && n > 0 && name[n - 1] != '_' {
        assert out + "_" + [ToLower(name[n])] == out + ['_', ToLower(name[n])];
      } else if IsUpper(name[n]) {
        assert out + "" + [ToLower(name[n])] == out + [ToLower(name[n])];
      }
    }
  }

  /** The snake-case spelling, letter by letter. */
  lemma SnakeByLetters(name: string)
    ensures SnakeOf(name) == SnakeLetters(name, |name|)
  {
    assert name[0..] == name;
    SplitFromLetters(name, 0);
  }

  lemma {:induction false} LettersAreLower(name: string, n: nat)
    requires n <= |name|
    ensures NoUpper(SnakeLetters(name, n))
  {
    if n > 0 { LettersAreLower(name, n - 1); }
  }

  /** It has no uppercase letter, so is its own spelling. */
  lemma SnakeIsIdempotent(name: string)
    ensures NoUpper(SnakeOf(name)) && SnakeOf(SnakeOf(name)) == SnakeOf(name)
  {
    SnakeByLetters(name);
    LettersAreLower(name, |name|);
    SplitKeeps([], SnakeOf(name));
    assert [] + SnakeOf(name) == SnakeOf(name);
  }

  lemma NextLetter(name: string, n: nat, out: string)
    requires n < |name| && SnakeLetters(name, n) == out
    ensures SnakeLetters(name, n + 1) == out + SnakeLetter(name, n)
  {}

  /** `NotFound` is `not_found`. */
  lemma SnakeExample()
    ensures SnakeOf("NotFound") == "not_found"
  {
    var name := "NotFound";
    SnakeByLetters(name);
    NextLetter(name, 0, "");
    NextLetter(name, 1, "n");
    NextLetter(name, 2, "no");
    NextLetter(name, 3, "not");
    NextLetter(name, 4, "not_f");
    NextLetter(name, 5, "not_fo");
    NextLetter(name, 6, "not_fou");
    NextLetter(name, 7, "not_foun");
  }

  // ---- camel

  /** An underscore before a lowercase letter is dropped, and the letter behind it is made
      uppercase; any other letter is kept. */
  function CamelLetter(head: string, i: nat): string
    requires i < |head|
  {
    if head[i] == '_' && i + 1 < |head| && IsLower(head[i + 1]) then []
    else if i > 0 && head[i - 1] == '_' && IsLower(head[i]) then [ToUpper(head[i])]
    else [head[i]]
  }

  function CamelLetters(head: string, n: nat): string
    requires n <= |head|
    decreases |head| - n
  {
    if n == |head| then [] else CamelLetter(head, n) + CamelLetters(head, n + 1)
  }

  lemma {:induction false} JoinedFromLetters(head: string, n: nat)
    requires n <= |head| && (0 < n < |head| ==> head[n - 1] != '_' || !IsLower(head[n]))
    ensures Joined(head[n..]) == CamelLetters(head, n)
    decreases |head| - n
  {
    if n < |head| {
      JoinedFrom(head, n);
      if head[n] == '_' && n + 1 < |head| && IsLower(head[n + 1]) {
        JoinedFromLetters(head, n + 2);
        assert CamelLetters(head, n) == [] + ([ToUpper(head[n + 1])] + CamelLetters(head, n + 2));
      } else {
        JoinedFromLetters(head, n + 1);
      }
    }
  }

  /** The camel-case spelling, letter by letter: a name that starts lowercase is respelled up to
      its first `__`. */
  lemma CamelByLetters(name: string)
    ensures CamelOf(name) == if StartsLower(name) then CamelLetters(Head(name), 0) + Tail(name) else name
  {
    if StartsLower(name) {
      assert Head(name)[0..] == Head(name);
      JoinedFromLetters(Head(name), 0);
    }
  }
}
