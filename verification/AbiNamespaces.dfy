/** What the closure's key test does to namespaces: right among std's own structs, empty for a
    project's, and at times another module's. */
module AbiNamespaces {
  import opened Basics
  import opened AbiKeys
  import opened AbiClosure

  /** The names whose declarations bring the structs of their namespace. */
  predicate HasNamespace(t: Table, n: Name) {
    n in t.structs || n in t.aliases
  }

  ghost predicate CleanTable(t: Table) {
    forall n :: n in Known(t) ==> Clean(n)
  }

  /** Everything a declaration leads to beside what it mentions: of a plain key the structs dotted
      under it, of a key with a module the structs of its name in the modules below. */
  lemma LeadsExactly(t: Table, n: Name, other: Name)
    requires CleanTable(t) && HasNamespace(t, n) && other in t.structs
    ensures Leads(t, n, other) <==>
      || (if n in t.structs then SomeMentions(t.structs[n], other)
          else t.aliases[n].Some? && Mentions(t.aliases[n].value, other))
      || (if n.Plain? then Dotted(n, other)
          else other.Keyed? && other.written == n.written && n.mod + "." <= other.mod)
  {
    TestExactly(n, other);
  }

  /** Of a plain key, every member is in every closed set, so in the closure. */
  lemma PlainMembersAreSeen(t: Table, seeds: seq<Seed>, homes: map<string, string>, s: set<Name>, n: Name, other: Name)
    requires CleanTable(t) && Closed(t, seeds, s)
    requires n.Plain? && n in s && HasNamespace(t, n) && other in t.structs && Member(homes, n, other)
    ensures other in s
  {
    TestExactly(n, other);
    assert Leads(t, n, other);
  }

  /** A project's own struct brings a struct of its namespace only if it mentions it. */
  lemma OwnMembersAreNotBrought(t: Table, homes: map<string, string>, n: Name, other: Name)
    requires CleanTable(t) && n.Keyed? && n in t.structs && other in t.structs && Member(homes, n, other)
    ensures Leads(t, n, other) <==> SomeMentions(t.structs[n], other)
  {
    TestExactly(n, other);
  }

  function Takes(n: Name): seq<Seed> {
    [PlatformFn(Signature([Type.Named([], Ref(n, []))], None))]
  }

  lemma TakesMentions(n: Name, other: Name)
    ensures Seeded(Takes(n), other) <==> other == n
  {
    var ty := Type.Named([], Ref(n, []));
    assert Mentions(ty, other) <==> other == n;
    if other == n {
      assert Mentions([ty][0], other) && SomeMentions([ty], other);
      assert SeedMentions(Takes(n)[0], other);
    }
  }

  /** `struct Outer {}` and `namespace Outer { struct Inner {} }` of one project module, and a
      platform function taking an `Outer`: the member is not in the closure. */
  lemma OwnMemberIsMissed(mod: string)
    requires SEP !in mod
    ensures var outer, inner := Keyed("Outer", mod), Keyed("Outer.Inner", mod);
      var t := Table(map[outer := [], inner := []], map[], map[]);
      Member(map[], outer, inner) && Reached(t, Takes(outer), outer) && !Reached(t, Takes(outer), inner)
  {
    var outer, inner := Keyed("Outer", mod), Keyed("Outer.Inner", mod);
    var t := Table(map[outer := [], inner := []], map[], map[]);
    TakesMentions(outer, outer);
    ChainOfOne(t, Takes(outer), outer);
    assert |outer.written| < |inner.written|;
    forall n, other | n in {outer} && other in Known(t) && Leads(t, n, other)
      ensures other in {outer}
    {
      OuterIsClean(mod);
      TestExactly(outer, other);
    }
    forall n | n in Known(t) && Seeded(Takes(outer), n)
      ensures n in {outer}
    {
      TakesMentions(outer, n);
    }
    assert Closed(t, Takes(outer), {outer});
    if Reached(t, Takes(outer), inner) { ReachedAreInside(t, Takes(outer), inner, {outer}); }
    assert "Outer" + "." == "Outer.";
    assert "Outer.Inner"[..6] == "Outer.";
  }

  lemma OuterIsClean(mod: string)
    requires SEP !in mod
    ensures Clean(Keyed("Outer", mod)) && Clean(Keyed("Outer.Inner", mod)) && Clean(Plain("Outer"))
  {}

  /** A struct of the same name in a module below is in the closure, though nothing mentions it. */
  lemma NamesakeIsBrought(mod: string, sub: string)
    ensures var outer, namesake := Keyed("Outer", mod), Keyed("Outer", mod + "." + sub);
      var t := Table(map[outer := [], namesake := []], map[], map[]);
      !Member(map[], outer, namesake) && Reached(t, Takes(outer), namesake)
  {
    var outer, namesake := Keyed("Outer", mod), Keyed("Outer", mod + "." + sub);
    var t := Table(map[outer := [], namesake := []], map[], map[]);
    TakesMentions(outer, outer);
    ChainOfOne(t, Takes(outer), outer);
    assert Text(namesake) == Text(outer) + "." + sub;
    ChainExtends(t, Takes(outer), outer, namesake);
  }

  /** Under std's `Outer`, a project's own `namespace Outer` is in the closure too. */
  lemma ForeignMemberIsBrought(mod: string, home: string)
    requires mod != home
    ensures var outer, inner := Plain("Outer"), Keyed("Outer.Inner", mod);
      var t := Table(map[outer := [], inner := []], map[], map[]);
      !Member(map["Outer" := home], outer, inner) && Reached(t, Takes(outer), inner)
  {
    var outer, inner := Plain("Outer"), Keyed("Outer.Inner", mod);
    var t := Table(map[outer := [], inner := []], map[], map[]);
    TakesMentions(outer, outer);
    ChainOfOne(t, Takes(outer), outer);
    assert Text(inner) == Text(outer) + "." + ("Inner" + [SEP] + mod);
    ChainExtends(t, Takes(outer), outer, inner);
  }
}
