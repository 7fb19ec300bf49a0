/** What the closure is for: every declaration written in a platform declaration, or in one it leads
    to, is in it, unless it stands in a group's arguments. */
module AbiWritten {
  import opened Basics
  import opened AbiKeys
  import opened AbiClosure
  import opened AbiGroups

  // ---- the types a declaration is written with

  /** A signature's types, the result's included. */
  function SignatureTypes(s: Signature): seq<Type> {
    s.params + if s.ret.Some? then [s.ret.value] else []
  }

  function SeedTypes(s: Seed): seq<Type> {
    match s
    case Handler(of, params) => of + params
    case PlatformFn(signature) => SignatureTypes(signature)
  }

  /** An effect reference is the type of its name. */
  function EffectRefTypes(e: EffectRef): seq<Type> {
    if e.Effect? then [Type.Named([], e.ref)] else []
  }

  function AllSignatureTypes(fns: seq<Signature>): seq<Type> {
    if fns == [] then [] else SignatureTypes(fns[0]) + AllSignatureTypes(fns[1..])
  }

  function AllEffectRefTypes(es: seq<EffectRef>): seq<Type> {
    if es == [] then [] else EffectRefTypes(es[0]) + AllEffectRefTypes(es[1..])
  }

  function DeclTypes(t: Table, n: Name): seq<Type> {
    if n in t.structs then t.structs[n]
    else if n in t.aliases then (if t.aliases[n].Some? then [t.aliases[n].value] else [])
    else if n in t.effects then AllSignatureTypes(t.effects[n].fns) + AllEffectRefTypes(t.effects[n].prereqs)
    else []
  }

  ghost predicate WrittenIn(ts: seq<Type>, n: Name) {
    exists ty :: ty in ts && Written(ty, n)
  }

  ghost predicate InGroupArgsOf(ts: seq<Type>, n: Name) {
    exists ty :: ty in ts && InGroupArgs(ty, n)
  }

  // ---- what is written is mentioned, or stands in a group's arguments

  lemma SomeMissedExactly(ts: seq<Type>, n: Name)
    ensures WrittenIn(ts, n) <==> SomeMentions(ts, n) || InGroupArgsOf(ts, n)
  {
    forall ty | ty in ts ensures Written(ty, n) <==> Mentions(ty, n) || InGroupArgs(ty, n) { MissedExactly(ty, n); }
    if SomeMentions(ts, n) {
      var i :| 0 <= i < |ts| && Mentions(ts[i], n);
      assert ts[i] in ts;
    }
  }

  lemma JoinedMention(a: seq<Type>, b: seq<Type>, n: Name)
    ensures SomeMentions(a + b, n) <==> SomeMentions(a, n) || SomeMentions(b, n)
  {
    if i :| 0 <= i < |a| && Mentions(a[i], n) { assert (a + b)[i] == a[i]; }
    if i :| 0 <= i < |b| && Mentions(b[i], n) { assert (a + b)[|a| + i] == b[i]; }
  }

  lemma OneMention(ty: Type, n: Name)
    ensures SomeMentions([ty], n) <==> Mentions(ty, n)
  {
    assert [ty][0] == ty;
  }

  lemma SignatureMentionsTypes(s: Signature, n: Name)
    ensures SignatureMentions(s, n) <==> SomeMentions(SignatureTypes(s), n)
  {
    JoinedMention(s.params, if s.ret.Some? then [s.ret.value] else [], n);
    if s.ret.Some? { OneMention(s.ret.value, n); }
  }

  lemma EffectRefMentionsTypes(e: EffectRef, n: Name)
    ensures EffectRefMentions(e, n) <==> SomeMentions(EffectRefTypes(e), n)
  {
    if e.Effect? {
      OneMention(Type.Named([], e.ref), n);
      assert Mentions(Type.Named([], e.ref), n) <==> e.ref.key == n || SomeMentions(e.ref.args, n);
    }
  }

  lemma SeedMentionsTypes(s: Seed, n: Name)
    ensures SeedMentions(s, n) <==> SomeMentions(SeedTypes(s), n)
  {
    match s
    case Handler(of, params) => JoinedMention(of, params, n);
    case PlatformFn(signature) => SignatureMentionsTypes(signature, n);
  }

  lemma {:induction false} FnsMentionTypes(fns: seq<Signature>, n: Name)
    ensures SomeFnMentions(fns, n) <==> SomeMentions(AllSignatureTypes(fns), n)
  {
    if fns != [] {
      FnsMentionTypes(fns[1..], n);
      SignatureMentionsTypes(fns[0], n);
      JoinedMention(SignatureTypes(fns[0]), AllSignatureTypes(fns[1..]), n);
      if i :| 0 <= i < |fns| && SignatureMentions(fns[i], n) && i > 0 { assert fns[1..][i - 1] == fns[i]; }
      if i :| 0 <= i < |fns[1..]| && SignatureMentions(fns[1..][i], n) { assert fns[i + 1] == fns[1..][i]; }
    }
  }

  lemma {:induction false} PrereqsMentionTypes(es: seq<EffectRef>, n: Name)
    ensures SomePrereqMentions(es, n) <==> SomeMentions(AllEffectRefTypes(es), n)
  {
    if es != [] {
      PrereqsMentionTypes(es[1..], n);
      EffectRefMentionsTypes(es[0], n);
      JoinedMention(EffectRefTypes(es[0]), AllEffectRefTypes(es[1..]), n);
      if i :| 0 <= i < |es| && EffectRefMentions(es[i], n) && i > 0 { assert es[1..][i - 1] == es[i]; }
      if i :| 0 <= i < |es[1..]| && EffectRefMentions(es[1..][i], n) { assert es[i + 1] == es[1..][i]; }
    }
  }

  /** A platform declaration's keys: those it mentions and those in a group's arguments. */
  lemma SeedMissedExactly(s: Seed, n: Name)
    ensures WrittenIn(SeedTypes(s), n) <==> SeedMentions(s, n) || InGroupArgsOf(SeedTypes(s), n)
  {
    SeedMentionsTypes(s, n);
    SomeMissedExactly(SeedTypes(s), n);
  }

  lemma SignatureMissedExactly(s: Signature, n: Name)
    ensures WrittenIn(SignatureTypes(s), n) <==> SignatureMentions(s, n) || InGroupArgsOf(SignatureTypes(s), n)
  {
    SignatureMentionsTypes(s, n);
    SomeMissedExactly(SignatureTypes(s), n);
  }

  lemma EffectRefMissedExactly(e: EffectRef, n: Name)
    ensures WrittenIn(EffectRefTypes(e), n) <==> EffectRefMentions(e, n) || InGroupArgsOf(EffectRefTypes(e), n)
  {
    EffectRefMentionsTypes(e, n);
    SomeMissedExactly(EffectRefTypes(e), n);
  }

  lemma DeclMentionsTypes(t: Table, d: Name, n: Name)
    ensures Leads(t, d, n) <==>
      SomeMentions(DeclTypes(t, d), n) || ((d in t.structs || d in t.aliases) && n in t.structs && InNamespace(d, n))
  {
    if d in t.structs {
    } else if d in t.aliases {
      if t.aliases[d].Some? { OneMention(t.aliases[d].value, n); }
    } else if d in t.effects {
      FnsMentionTypes(t.effects[d].fns, n);
      PrereqsMentionTypes(t.effects[d].prereqs, n);
      JoinedMention(AllSignatureTypes(t.effects[d].fns), AllEffectRefTypes(t.effects[d].prereqs), n);
    }
  }

  /** A declaration's keys: those it leads to by mention, and those in a group's arguments. What it
      leads to otherwise begins with its own key and a dot. */
  lemma DeclMissedExactly(t: Table, d: Name, n: Name)
    ensures WrittenIn(DeclTypes(t, d), n) || ((d in t.structs || d in t.aliases) && n in t.structs && InNamespace(d, n))
      <==> Leads(t, d, n) || InGroupArgsOf(DeclTypes(t, d), n)
  {
    DeclMentionsTypes(t, d, n);
    SomeMissedExactly(DeclTypes(t, d), n);
  }

  // ---- the closure holds what is written

  /** Written in one of some types, elsewhere than in a group's arguments. */
  ghost predicate WrittenPlainly(ts: seq<Type>, n: Name) {
    exists ty :: ty in ts && Written(ty, n) && !InGroupArgs(ty, n)
  }

  lemma PlainlyIsMentioned(ts: seq<Type>, n: Name)
    requires WrittenPlainly(ts, n)
    ensures SomeMentions(ts, n)
  {
    var ty :| ty in ts && Written(ty, n) && !InGroupArgs(ty, n);
    MissedExactly(ty, n);
    var i :| 0 <= i < |ts| && ts[i] == ty;
    assert Mentions(ts[i], n);
  }

  /** A closed set holds every declaration written in a platform declaration, and every one written
      in a declaration it holds, those in a group's arguments apart. */
  lemma WrittenAreInside(t: Table, seeds: seq<Seed>, s: set<Name>, n: Name)
    requires Closed(t, seeds, s) && n in Known(t)
    ensures (exists seed :: seed in seeds && WrittenPlainly(SeedTypes(seed), n)) ==> n in s
    ensures (exists d :: d in s && WrittenPlainly(DeclTypes(t, d), n)) ==> n in s
  {
    if seed :| seed in seeds && WrittenPlainly(SeedTypes(seed), n) {
      PlainlyIsMentioned(SeedTypes(seed), n);
      SeedMentionsTypes(seed, n);
      var i :| 0 <= i < |seeds| && seeds[i] == seed;
      assert SeedMentions(seeds[i], n);
    }
    if d :| d in s && WrittenPlainly(DeclTypes(t, d), n) {
      PlainlyIsMentioned(DeclTypes(t, d), n);
      DeclMentionsTypes(t, d, n);
    }
  }

  /** And nothing is in the closure that is not written somewhere on the way to it, or begins with
      the key of a declaration in it and a dot. */
  lemma InsideAreWritten(t: Table, seeds: seq<Seed>, n: Name)
    requires Reached(t, seeds, n)
    ensures (exists s :: s in seeds && WrittenIn(SeedTypes(s), n))
      || exists d :: Reached(t, seeds, d) && (WrittenIn(DeclTypes(t, d), n) || InNamespace(d, n))
  {
    var path :| Chain(t, seeds, path, n);
    if |path| == 1 {
      var i :| 0 <= i < |seeds| && SeedMentions(seeds[i], n);
      SeedMissedExactly(seeds[i], n);
      assert seeds[i] in seeds;
    } else {
      var init, d := path[..|path| - 1], path[|path| - 2];
      assert Leads(t, path[|path| - 2], path[|path| - 1]);
      assert Chain(t, seeds, init, d);
      DeclMentionsTypes(t, d, n);
      SomeMissedExactly(DeclTypes(t, d), n);
      assert Reached(t, seeds, d) && (WrittenIn(DeclTypes(t, d), n) || InNamespace(d, n));
    }
  }

  /** What a platform function returns, plainly named, is in every closed set. */
  lemma ResultsAreInside(t: Table, seeds: seq<Seed>, s: set<Name>, signature: Signature, n: Name)
    requires Closed(t, seeds, s) && PlatformFn(signature) in seeds && n in Known(t)
    requires signature.ret == Some(Type.Named([], Ref(n, [])))
    ensures n in s
  {
    var types := SignatureTypes(signature);
    assert types[|types| - 1] == signature.ret.value;
    assert Written(signature.ret.value, n) && !InGroupArgs(signature.ret.value, n);
    assert WrittenPlainly(SeedTypes(PlatformFn(signature)), n);
    WrittenAreInside(t, seeds, s, n);
  }
}
