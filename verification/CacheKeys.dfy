/** The text a cache entry's name is the hash of, and when it tells two libraries apart. */
module CacheKeys {
  import opened Basics

  /** A file to compile: its path and its text. */
  datatype File = File(path: string, content: string)

  const NUL: char := '\0'

  predicate NulFree(s: string) {
    NUL !in s
  }

  ghost predicate AllNulFree(files: seq<File>) {
    forall f :: f in files ==> NulFree(f.path) && NulFree(f.content)
  }

  /** What the files, in path order, feed to the hash: each text closed by a NUL. */
  function KeyText(files: seq<File>): string {
    if files == [] then [] else files[0].path + [NUL] + (files[0].content + [NUL] + KeyText(files[1..]))
  }

  /** The bytes hashed for an entry: who compiles, then what. */
  function EntryName(identity: string, files: seq<File>): string {
    identity + KeyText(files)
  }

  lemma FirstNul(a: string, x: string, b: string, y: string)
    requires NulFree(a) && NulFree(b) && a + [NUL] + x == b + [NUL] + y
    ensures a == b && x == y
  {
    var s := a + [NUL] + x;
    assert s[|a|] == NUL && s[|b|] == NUL;
    assert forall i :: 0 <= i < |a| ==> s[i] == a[i] && s[i] != NUL;
    assert forall i :: 0 <= i < |b| ==> s[i] == b[i] && s[i] != NUL;
    assert a == s[..|a|] && b == s[..|b|];
    assert x == s[|a| + 1..] && y == s[|b| + 1..];
  }

  /** Over texts without NUL the key text determines the files. */
  lemma {:induction false} KeyTextIsInjective(a: seq<File>, b: seq<File>)
    requires AllNulFree(a) && AllNulFree(b) && KeyText(a) == KeyText(b)
    ensures a == b
  {
    assert a != [] ==> |KeyText(a)| > 0;
    assert b != [] ==> |KeyText(b)| > 0;
    if a != [] {
      var ra, rb := a[0].content + [NUL] + KeyText(a[1..]), b[0].content + [NUL] + KeyText(b[1..]);
      FirstNul(a[0].path, ra, b[0].path, rb);
      FirstNul(a[0].content, KeyText(a[1..]), b[0].content, KeyText(b[1..]));
      KeyTextIsInjective(a[1..], b[1..]);
      assert a == [a[0]] + a[1..] && b == [b[0]] + b[1..];
    }
  }

  /** Libraries an entry's name cannot tell apart: the identity runs into the first path. */
  predicate Alike(i: string, a: seq<File>, j: string, b: seq<File>) {
    if a == [] || b == [] then a == b && i == j
    else i + a[0].path == j + b[0].path && a[0].content == b[0].content && a[1..] == b[1..]
  }

  lemma NamedByFirst(i: string, a: seq<File>)
    requires a != []
    ensures EntryName(i, a) == (i + a[0].path) + [NUL] + (a[0].content + [NUL] + KeyText(a[1..]))
  {}

  /** Over texts without NUL, two entries are named alike exactly where their compiler and first
      path run together and all else is the same. */
  lemma EntryNamesExactly(i: string, a: seq<File>, j: string, b: seq<File>)
    requires NulFree(i) && NulFree(j) && AllNulFree(a) && AllNulFree(b)
    ensures EntryName(i, a) == EntryName(j, b) <==> Alike(i, a, j, b)
  {
    if a == [] || b == [] {
      NulIsInside(i, a);
      NulIsInside(j, b);
    } else {
      NamedByFirst(i, a);
      NamedByFirst(j, b);
      if EntryName(i, a) == EntryName(j, b) {
        FirstNul(i + a[0].path, a[0].content + [NUL] + KeyText(a[1..]), j + b[0].path, b[0].content + [NUL] + KeyText(b[1..]));
        FirstNul(a[0].content, KeyText(a[1..]), b[0].content, KeyText(b[1..]));
        KeyTextIsInjective(a[1..], b[1..]);
      }
    }
  }

  lemma NulIsInside(i: string, a: seq<File>)
    requires NulFree(i)
    ensures NUL in EntryName(i, a) <==> a != []
    ensures a == [] ==> EntryName(i, a) == i
  {
    if a != [] {
      NamedByFirst(i, a);
      assert EntryName(i, a)[|i + a[0].path|] == NUL;
    }
  }

  /** One compiler's entries are told apart. */
  lemma EntryNameIsInjective(identity: string, a: seq<File>, b: seq<File>)
    requires NulFree(identity) && AllNulFree(a) && AllNulFree(b) && EntryName(identity, a) == EntryName(identity, b)
    ensures a == b
  {
    EntryNamesExactly(identity, a, identity, b);
    if a != [] && b != [] {
      assert a[0].path == (identity + a[0].path)[|identity|..];
      assert b[0].path == (identity + b[0].path)[|identity|..];
      assert a == [a[0]] + a[1..] && b == [b[0]] + b[1..];
    }
  }

  /** Two compilers can be taken for each other exactly where one's identity begins with the other's. */
  lemma ConfusedExactly(i: string, j: string)
    requires NulFree(i) && NulFree(j)
    ensures (exists a, b :: AllNulFree(a) && AllNulFree(b) && EntryName(i, a) == EntryName(j, b)) <==> i <= j || j <= i
  {
    if a: seq<File>, b: seq<File> :| AllNulFree(a) && AllNulFree(b) && EntryName(i, a) == EntryName(j, b) {
      EntryNamesExactly(i, a, j, b);
      if a != [] && b != [] {
        assert i == (i + a[0].path)[..|i|] && j == (j + b[0].path)[..|j|];
      }
    }
    if i <= j {
      RunsIntoPath(i, j, "x", "");
    } else if j <= i {
      RunsIntoPath(j, i, "x", "");
    }
  }

  /** The rest of a longer identity, read as the beginning of a path. */
  lemma RunsIntoPath(i: string, j: string, path: string, content: string)
    requires NulFree(j) && NulFree(path) && NulFree(content) && i <= j
    ensures var a, b := [File(j[|i|..] + path, content)], [File(path, content)];
      AllNulFree(a) && AllNulFree(b) && EntryName(i, a) == EntryName(j, b)
  {
    var a, b := [File(j[|i|..] + path, content)], [File(path, content)];
    assert i + (j[|i|..] + path) == j + path;
    NamedByFirst(i, a);
    NamedByFirst(j, b);
  }

  /** A NUL inside a text breaks it: one file can hash as two. */
  lemma NulTextsCollide()
    ensures var one, two := [File("a", "b\0c\0d")], [File("a", "b"), File("c", "d")];
      one != two && forall identity :: EntryName(identity, one) == EntryName(identity, two)
  {
    var one, two := [File("a", "b\0c\0d")], [File("a", "b"), File("c", "d")];
    assert one[1..] == [] && two[1..] == [File("c", "d")] && two[1..][1..] == [];
    assert KeyText(one) == "a\0b\0c\0d\0";
    assert KeyText([File("c", "d")]) == "c\0d\0";
    assert KeyText(two) == "a\0b\0c\0d\0";
  }

  /** So a compiler stamped 1 and one stamped 12 can share a name. */
  lemma IdentityRunsIntoPath()
    ensures EntryName("kotlinc@1", [File("2.kt", "")]) == EntryName("kotlinc@12", [File(".kt", "")])
  {
    assert "kotlinc@12"[..9] == "kotlinc@1" && "kotlinc@12"[9..] + ".kt" == "2.kt";
    RunsIntoPath("kotlinc@1", "kotlinc@12", ".kt", "");
  }
}
