/** The keys declarations are known by, and what beginning with another's key and a dot says. */
module AbiKeys {
  /** Std's first declaration of a name is known by the name; every other by its name and module. */
  datatype Name = Plain(written: string) | Keyed(written: string, mod: string)

  /** What stands between a name and its module: in no identifier, so in no name and no module. */
  const SEP: char := '\U{00A7}'

  function Text(n: Name): string {
    match n
    case Plain(written) => written
    case Keyed(written, mod) => written + [SEP] + mod
  }

  predicate Clean(n: Name) {
    SEP !in n.written && (n.Keyed? ==> SEP !in n.mod)
  }

  /** The walk's test: the other's key begins with this one's and a dot. */
  predicate InNamespace(n: Name, other: Name) {
    Text(n) + "." <= Text(other)
  }

  /** The module of a declaration, `homes` being where std declares its plain names. */
  function ModuleOf(homes: map<string, string>, n: Name): string {
    if n.Keyed? then n.mod else if n.written in homes then homes[n.written] else ""
  }

  /** A dotted name under another: what `namespace` blocks write. */
  predicate Dotted(n: Name, other: Name) {
    n.written + "." <= other.written
  }

  /** A member of the namespace of `n`'s name: dotted under it, in the same module. */
  predicate Member(homes: map<string, string>, n: Name, other: Name) {
    Dotted(n, other) && ModuleOf(homes, n) == ModuleOf(homes, other)
  }

  lemma NoSeparator(a: string)
    requires SEP !in a
    ensures forall i :: 0 <= i < |a| ==> a[i] != SEP
  {}

  /** The first separator of a text ends the name. */
  lemma SeparatorPlaces(a: string, b: string, c: string, d: string)
    requires SEP !in a && SEP !in c && a + [SEP] + b <= c + [SEP] + d
    ensures |a| == |c|
  {
    var s, t := a + [SEP] + b, c + [SEP] + d;
    NoSeparator(a);
    NoSeparator(c);
    assert forall i :: 0 <= i < |a| ==> t[i] == s[i] == a[i];
    assert forall i :: 0 <= i < |c| ==> t[i] == c[i];
    assert t[|a|] == s[|a|] == SEP && t[|c|] == SEP;
  }

  /** A keyed text begins another one where the names are the same and the modules do. */
  lemma KeyedPrefix(a: string, b: string, c: string, d: string)
    requires |a| == |c|
    ensures a + [SEP] + b <= c + [SEP] + d <==> a == c && b <= d
  {
    var s, t := a + [SEP] + b, c + [SEP] + d;
    assert a == s[..|a|] && c == t[..|a|] && b == s[|a| + 1..] && d == t[|a| + 1..];
    if s <= t {
      assert s == t[..|s|];
      assert forall i :: 0 <= i < |a| ==> a[i] == s[i] == t[i] == c[i];
      assert forall i :: 0 <= i < |b| ==> b[i] == s[|a| + 1 + i] == t[|a| + 1 + i] == d[i];
    }
  }

  /** A text without a separator that begins a keyed one begins its name. */
  lemma PrefixOfName(a: string, c: string, d: string)
    requires SEP !in a
    ensures a <= c + [SEP] + d <==> a <= c
  {
    NoSeparator(a);
    assert (c + [SEP] + d)[|c|] == SEP;
  }

  /** No text with a separator begins one without. */
  lemma KeyedIsNoPrefix(a: string, b: string, c: string)
    requires SEP !in c
    ensures !(a + [SEP] + b <= c)
  {
    NoSeparator(c);
    assert (a + [SEP] + b)[|a|] == SEP;
  }

  /** Two keys are one text only if they are one key. */
  lemma TextIsInjective(n: Name, other: Name)
    requires Clean(n) && Clean(other)
    ensures Text(n) == Text(other) <==> n == other
  {
    if n.Keyed? && other.Keyed? {
      if Text(n) == Text(other) {
        SeparatorPlaces(n.written, n.mod, other.written, other.mod);
        SeparatorPlaces(other.written, other.mod, n.written, n.mod);
        KeyedPrefix(n.written, n.mod, other.written, other.mod);
        KeyedPrefix(other.written, other.mod, n.written, n.mod);
      }
    } else if n.Keyed? {
      KeyedIsNoPrefix(n.written, n.mod, other.written);
    } else if other.Keyed? {
      KeyedIsNoPrefix(other.written, other.mod, n.written);
    }
  }

  lemma PlainTest(n: Name, other: Name)
    requires Clean(n) && Clean(other) && n.Plain?
    ensures InNamespace(n, other) <==> Dotted(n, other)
  {
    if other.Keyed? {
      assert SEP !in n.written + ".";
      PrefixOfName(n.written + ".", other.written, other.mod);
    }
  }

  lemma KeyedTest(n: Name, other: Name)
    requires Clean(n) && Clean(other) && n.Keyed?
    ensures InNamespace(n, other) <==> other.Keyed? && other.written == n.written && n.mod + "." <= other.mod
  {
    assert Text(n) + "." == n.written + [SEP] + (n.mod + ".");
    if other.Plain? {
      KeyedIsNoPrefix(n.written, n.mod + ".", other.written);
    } else if InNamespace(n, other) {
      SeparatorPlaces(n.written, n.mod + ".", other.written, other.mod);
      KeyedPrefix(n.written, n.mod + ".", other.written, other.mod);
    } else if other.written == n.written {
      KeyedPrefix(n.written, n.mod + ".", other.written, other.mod);
    }
  }

  /** What the test answers: of a plain key, the names dotted under it, in whatever module; of a
      key with a module, the structs of the same name in the modules below, and no other. */
  lemma TestExactly(n: Name, other: Name)
    requires Clean(n) && Clean(other)
    ensures n.Plain? ==> (InNamespace(n, other) <==> Dotted(n, other))
    ensures n.Keyed? ==> (InNamespace(n, other) <==> other.Keyed? && other.written == n.written && n.mod + "." <= other.mod)
  {
    if n.Plain? { PlainTest(n, other); } else { KeyedTest(n, other); }
  }

  /** The test is membership exactly where: of a plain key, no other module writes a dotted name
      under it; of a key with a module, the module writes none and no module below declares the name. */
  lemma TestIsMembershipExactly(homes: map<string, string>, n: Name, other: Name)
    requires Clean(n) && Clean(other)
    ensures (InNamespace(n, other) <==> Member(homes, n, other)) <==>
      if n.Plain? then Dotted(n, other) ==> ModuleOf(homes, other) == ModuleOf(homes, n)
      else !Member(homes, n, other) && !(other.Keyed? && other.written == n.written && n.mod + "." <= other.mod)
  {
    TestExactly(n, other);
  }
}
