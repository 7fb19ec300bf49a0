/** The declarations a host project must see: everything reached from the platform signatures. */
module AbiClosure {
  import opened Basics
  import opened AbiKeys

  datatype Ref = Ref(key: Name, args: seq<Type>)

  datatype Type =
    | Named(qualifiers: seq<Ref>, base: Ref)
    | Group(qualifiers: seq<Ref>, inner: Type)
    | Arms(elems: seq<Type>)
    | Of(elem: Type)
    | Function(params: seq<Type>, ret: Type)
    | Literal

  datatype Signature = Signature(params: seq<Type>, ret: Option<Type>)

  datatype EffectRef = Effect(ref: Ref) | Capability

  datatype EffectDecl = EffectDecl(fns: seq<Signature>, prereqs: seq<EffectRef>)

  /** Declarations by key: a struct's written field types, an alias's type if it has one. */
  datatype Table = Table(structs: map<Name, seq<Type>>, aliases: map<Name, Option<Type>>, effects: map<Name, EffectDecl>)

  function Known(t: Table): set<Name> {
    t.structs.Keys + t.aliases.Keys + t.effects.Keys
  }

  // ---- what a declaration mentions

  /** A type mentions a key: of a parenthesised group, the type inside alone is looked at. */
  ghost predicate Mentions(t: Type, n: Name) {
    match t
    case Named(qualifiers, base) =>
      || base.key == n
      || (exists i :: 0 <= i < |base.args| && Mentions(base.args[i], n))
      || (exists i, j :: 0 <= i < |qualifiers| && 0 <= j < |qualifiers[i].args| && Mentions(qualifiers[i].args[j], n))
    case Group(_, inner) => Mentions(inner, n)
    case Arms(elems) => exists i :: 0 <= i < |elems| && Mentions(elems[i], n)
    case Of(elem) => Mentions(elem, n)
    case Function(params, ret) => Mentions(ret, n) || exists i :: 0 <= i < |params| && Mentions(params[i], n)
    case Literal => false
  }

  ghost predicate SomeMentions(ts: seq<Type>, n: Name) {
    exists i :: 0 <= i < |ts| && Mentions(ts[i], n)
  }

  ghost predicate SignatureMentions(s: Signature, n: Name) {
    SomeMentions(s.params, n) || (s.ret.Some? && Mentions(s.ret.value, n))
  }

  ghost predicate EffectRefMentions(e: EffectRef, n: Name) {
    e.Effect? && (e.ref.key == n || SomeMentions(e.ref.args, n))
  }

  ghost predicate SomeFnMentions(fns: seq<Signature>, n: Name) {
    exists i :: 0 <= i < |fns| && SignatureMentions(fns[i], n)
  }

  ghost predicate SomePrereqMentions(prereqs: seq<EffectRef>, n: Name) {
    exists i :: 0 <= i < |prereqs| && EffectRefMentions(prereqs[i], n)
  }

  /** One step: `n`'s declaration mentions `other`, or `other` is a struct whose key begins with
      `n`'s and a dot. A key is a struct's, else an alias's, else an effect's. */
  ghost predicate Leads(t: Table, n: Name, other: Name) {
    if n in t.structs then
      || SomeMentions(t.structs[n], other)
      || (other in t.structs && InNamespace(n, other))
    else if n in t.aliases then
      (t.aliases[n].Some? && Mentions(t.aliases[n].value, other)) || (other in t.structs && InNamespace(n, other))
    else if n in t.effects then
      SomeFnMentions(t.effects[n].fns, other) || SomePrereqMentions(t.effects[n].prereqs, other)
    else false
  }

  /** What a project's platform declarations are written with. */
  datatype Seed = Handler(of: seq<Type>, params: seq<Type>) | PlatformFn(signature: Signature)

  ghost predicate SeedMentions(s: Seed, n: Name) {
    if s.Handler? then SomeMentions(s.of, n) || SomeMentions(s.params, n) else SignatureMentions(s.signature, n)
  }

  ghost predicate Seeded(seeds: seq<Seed>, n: Name) {
    exists i :: 0 <= i < |seeds| && SeedMentions(seeds[i], n)
  }

  /** A chain of declarations from a platform signature to `n`. */
  ghost predicate Chain(t: Table, seeds: seq<Seed>, path: seq<Name>, n: Name) {
    && path != [] && path[|path| - 1] == n
    && Seeded(seeds, path[0])
    && (forall i :: 0 <= i < |path| ==> path[i] in Known(t))
    && (forall i :: 0 < i < |path| ==> Leads(t, path[i - 1], path[i]))
  }

  ghost predicate Reached(t: Table, seeds: seq<Seed>, n: Name) {
    exists path :: Chain(t, seeds, path, n)
  }

  /** A set of declarations the host could not complain about. */
  ghost predicate Closed(t: Table, seeds: seq<Seed>, s: set<Name>) {
    && (forall n :: n in Known(t) && Seeded(seeds, n) ==> n in s)
    && (forall n, other :: n in s && other in Known(t) && Leads(t, n, other) ==> other in s)
  }

  lemma {:induction false} ChainsStayInside(t: Table, seeds: seq<Seed>, path: seq<Name>, n: Name, s: set<Name>)
    requires Chain(t, seeds, path, n) && Closed(t, seeds, s)
    ensures n in s
    decreases |path|
  {
    if |path| > 1 {
      var init := path[..|path| - 1];
      ChainsStayInside(t, seeds, init, init[|init| - 1], s);
      assert Leads(t, path[|path| - 2], path[|path| - 1]);
    }
  }

  lemma ChainOfOne(t: Table, seeds: seq<Seed>, n: Name)
    requires n in Known(t) && Seeded(seeds, n)
    ensures Reached(t, seeds, n)
  {
    assert Chain(t, seeds, [n], n);
  }

  lemma ChainExtends(t: Table, seeds: seq<Seed>, n: Name, other: Name)
    requires Reached(t, seeds, n) && other in Known(t) && Leads(t, n, other)
    ensures Reached(t, seeds, other)
  {
    var path :| Chain(t, seeds, path, n);
    assert Chain(t, seeds, path + [other], other);
  }

  lemma ReachedAreInside(t: Table, seeds: seq<Seed>, n: Name, s: set<Name>)
    requires Reached(t, seeds, n) && Closed(t, seeds, s)
    ensures n in s
  {
    var path :| Chain(t, seeds, path, n);
    ChainsStayInside(t, seeds, path, n, s);
  }

  // ---- the walk

  ghost function MentionedIn(t: Table, ty: Type): set<Name> {
    set n | n in Known(t) && Mentions(ty, n)
  }

  ghost function MentionedInAll(t: Table, ts: seq<Type>): set<Name> {
    set n | n in Known(t) && SomeMentions(ts, n)
  }

  ghost predicate ArgsMention(rs: seq<Ref>, n: Name) {
    exists i :: 0 <= i < |rs| && SomeMentions(rs[i].args, n)
  }

  ghost function ArgsMentionedIn(t: Table, rs: seq<Ref>): set<Name> {
    set n | n in Known(t) && ArgsMention(rs, n)
  }

  ghost function SignatureIn(t: Table, s: Signature): set<Name> {
    set n | n in Known(t) && SignatureMentions(s, n)
  }

  ghost function FnsIn(t: Table, fns: seq<Signature>): set<Name> {
    set n | n in Known(t) && SomeFnMentions(fns, n)
  }

  ghost function PrereqIn(t: Table, e: EffectRef): set<Name> {
    set n | n in Known(t) && EffectRefMentions(e, n)
  }

  ghost function PrereqsIn(t: Table, prereqs: seq<EffectRef>): set<Name> {
    set n | n in Known(t) && SomePrereqMentions(prereqs, n)
  }

  function NamespaceOf(t: Table, n: Name): set<Name> {
    set other | other in t.structs.Keys && InNamespace(n, other)
  }

  ghost function SeedIn(t: Table, s: Seed): set<Name> {
    set n | n in Known(t) && SeedMentions(s, n)
  }

  ghost function Led(t: Table, n: Name): set<Name> {
    set other | other in Known(t) && Leads(t, n, other)
  }

  ghost function SeededBy(t: Table, seeds: seq<Seed>): set<Name> {
    set n | n in Known(t) && Seeded(seeds, n)
  }

  /** `more` has been seen, and what of it is new has been queued. */
  ghost predicate Grew(seen0: set<Name>, queue0: seq<Name>, seen: set<Name>, queue: seq<Name>, more: set<Name>) {
    && seen == seen0 + more
    && Elems(queue) == Elems(queue0) + (more - seen0)
    && (more <= seen0 ==> queue == queue0)
  }

  lemma GrewTwice(s0: set<Name>, q0: seq<Name>, s1: set<Name>, q1: seq<Name>, s2: set<Name>, q2: seq<Name>, a: set<Name>, b: set<Name>)
    requires Grew(s0, q0, s1, q1, a) && Grew(s1, q1, s2, q2, b)
    ensures Grew(s0, q0, s2, q2, a + b)
  {}

  class Walk {
    const table: Table
    var seen: set<Name>
    var queue: seq<Name>

    constructor (table: Table)
      ensures this.table == table && seen == {} && queue == []
    {
      this.table, seen, queue := table, {}, [];
    }

    method See(n: Name)
      modifies this
      ensures Grew(old(seen), old(queue), seen, queue, if n in Known(table) then {n} else {})
    {
      var known := n in table.structs || n in table.aliases || n in table.effects;
      if known && n !in seen {
        seen := seen + {n};
        assert Elems(queue + [n]) == Elems(queue) + {n};
        queue := queue + [n];
      }
    }

    method SeeType(t: Type)
      modifies this
      ensures Grew(old(seen), old(queue), seen, queue, MentionedIn(table, t))
      decreases t, 1
    {
      match t {
        case Named(qualifiers, base) =>
          SeeArgs(qualifiers, t);
          ghost var s1, q1 := seen, queue;
          See(base.key);
          ghost var s2, q2 := seen, queue;
          SeeTypes(base.args, t);
          ghost var key := if base.key in Known(table) then {base.key} else {};
          GrewTwice(old(seen), old(queue), s1, q1, s2, q2, ArgsMentionedIn(table, qualifiers), key);
          GrewTwice(old(seen), old(queue), s2, q2, seen, queue, ArgsMentionedIn(table, qualifiers) + key, MentionedInAll(table, base.args));
          NamedMentions(table, qualifiers, base);
        case Group(_, inner) =>
          SeeType(inner);
          assert MentionedIn(table, t) == MentionedIn(table, inner);
        case Arms(elems) =>
          SeeTypes(elems, t);
          ArmsMention(table, elems);
        case Of(elem) =>
          SeeType(elem);
          assert MentionedIn(table, t) == MentionedIn(table, elem);
        case Function(params, ret) =>
          SeeTypes(params, t);
          ghost var s1, q1 := seen, queue;
          SeeType(ret);
          GrewTwice(old(seen), old(queue), s1, q1, seen, queue, MentionedInAll(table, params), MentionedIn(table, ret));
          FunctionMentions(table, params, ret);
        case Literal =>
          assert MentionedIn(table, t) == {};
      }
    }

    /** The arguments of the qualifiers of `whole`; their own names are no declarations of a type. */
    method SeeArgs(rs: seq<Ref>, ghost whole: Type)
      requires forall i, j :: 0 <= i < |rs| && 0 <= j < |rs[i].args| ==> rs[i].args[j] < whole
      modifies this
      ensures Grew(old(seen), old(queue), seen, queue, ArgsMentionedIn(table, rs))
      decreases whole, 0, 1
    {
      for i := 0 to |rs|
        invariant Grew(old(seen), old(queue), seen, queue, ArgsMentionedIn(table, rs[..i]))
      {
        ghost var s1, q1 := seen, queue;
        SeeTypes(rs[i].args, whole);
        GrewTwice(old(seen), old(queue), s1, q1, seen, queue, ArgsMentionedIn(table, rs[..i]), MentionedInAll(table, rs[i].args));
        MoreArgs(table, rs, i);
      }
      assert rs[..|rs|] == rs;
    }

    /** The types of a list inside `whole`, in order. */
    method SeeTypes(ts: seq<Type>, ghost whole: Type)
      requires forall i :: 0 <= i < |ts| ==> ts[i] < whole
      modifies this
      ensures Grew(old(seen), old(queue), seen, queue, MentionedInAll(table, ts))
      decreases whole, 0, 0
    {
      for i := 0 to |ts|
        invariant Grew(old(seen), old(queue), seen, queue, MentionedInAll(table, ts[..i]))
      {
        ghost var s1, q1 := seen, queue;
        SeeType(ts[i]);
        GrewTwice(old(seen), old(queue), s1, q1, seen, queue, MentionedInAll(table, ts[..i]), MentionedIn(table, ts[i]));
        MoreTypes(table, ts, i);
      }
      assert ts[..|ts|] == ts;
    }

    method SeeSignature(f: Signature)
      modifies this
      ensures Grew(old(seen), old(queue), seen, queue, SignatureIn(table, f))
    {
      SeeTypes(f.params, Function(f.params, Literal));
      if f.ret.Some? {
        ghost var s1, q1 := seen, queue;
        SeeType(f.ret.value);
        GrewTwice(old(seen), old(queue), s1, q1, seen, queue, MentionedInAll(table, f.params), MentionedIn(table, f.ret.value));
        assert SignatureIn(table, f) == MentionedInAll(table, f.params) + MentionedIn(table, f.ret.value);
      } else {
        assert SignatureIn(table, f) == MentionedInAll(table, f.params);
      }
    }

    method SeeEffectRef(e: EffectRef)
      modifies this
      ensures Grew(old(seen), old(queue), seen, queue, PrereqIn(table, e))
    {
      if e.Effect? {
        See(e.ref.key);
        ghost var s1, q1 := seen, queue;
        SeeTypes(e.ref.args, Arms(e.ref.args));
        GrewTwice(old(seen), old(queue), s1, q1, seen, queue, (if e.ref.key in Known(table) then {e.ref.key} else {}), MentionedInAll(table, e.ref.args));
        assert PrereqIn(table, e) == (if e.ref.key in Known(table) then {e.ref.key} else {}) + MentionedInAll(table, e.ref.args);
      } else {
        assert PrereqIn(table, e) == {};
      }
    }

    method SeeFns(fns: seq<Signature>)
      modifies this
      ensures Grew(old(seen), old(queue), seen, queue, FnsIn(table, fns))
    {
      for i := 0 to |fns|
        invariant Grew(old(seen), old(queue), seen, queue, FnsIn(table, fns[..i]))
      {
        ghost var s1, q1 := seen, queue;
        SeeSignature(fns[i]);
        GrewTwice(old(seen), old(queue), s1, q1, seen, queue, FnsIn(table, fns[..i]), SignatureIn(table, fns[i]));
        MoreFns(table, fns, i);
      }
      assert fns[..|fns|] == fns;
    }

    method SeePrereqs(prereqs: seq<EffectRef>)
      modifies this
      ensures Grew(old(seen), old(queue), seen, queue, PrereqsIn(table, prereqs))
    {
      for i := 0 to |prereqs|
        invariant Grew(old(seen), old(queue), seen, queue, PrereqsIn(table, prereqs[..i]))
      {
        ghost var s1, q1 := seen, queue;
        SeeEffectRef(prereqs[i]);
        GrewTwice(old(seen), old(queue), s1, q1, seen, queue, PrereqsIn(table, prereqs[..i]), PrereqIn(table, prereqs[i]));
        MorePrereqs(table, prereqs, i);
      }
      assert prereqs[..|prereqs|] == prereqs;
    }

    method SeeStruct(n: Name)
      requires n in table.structs
      modifies this
      ensures Grew(old(seen), old(queue), seen, queue, {n})
    {
      See(n);
    }

    /** Some structs, in whatever order. */
    method SeeAll(others: set<Name>)
      requires forall n :: n in others ==> n in table.structs
      modifies this
      ensures Grew(old(seen), old(queue), seen, queue, others)
    {
      var rest := others;
      while rest != {}
        invariant rest <= others
        invariant Grew(old(seen), old(queue), seen, queue, others - rest)
        decreases |rest|
      {
        ghost var s1, q1 := seen, queue;
        var other :| other in rest;
        SeeStruct(other);
        GrewTwice(old(seen), old(queue), s1, q1, seen, queue, others - rest, {other});
        assert others - (rest - {other}) == (others - rest) + {other};
        rest := rest - {other};
      }
      assert others - {} == others;
    }

    /** Everything a declaration leads to. */
    method Expand(n: Name)
      modifies this
      ensures Grew(old(seen), old(queue), seen, queue, Led(table, n))
    {
      if n in table.structs {
        SeeTypes(table.structs[n], Arms(table.structs[n]));
        ghost var s1, q1 := seen, queue;
        SeeAll(NamespaceOf(table, n));
        GrewTwice(old(seen), old(queue), s1, q1, seen, queue, MentionedInAll(table, table.structs[n]), NamespaceOf(table, n));
        LedByStruct(table, n);
      } else if n in table.aliases {
        if table.aliases[n].Some? { SeeType(table.aliases[n].value); }
        ghost var s1, q1 := seen, queue;
        SeeAll(NamespaceOf(table, n));
        GrewTwice(old(seen), old(queue), s1, q1, seen, queue, AliasedIn(table, n), NamespaceOf(table, n));
        LedByAlias(table, n);
      } else if n in table.effects {
        SeeFns(table.effects[n].fns);
        ghost var s1, q1 := seen, queue;
        SeePrereqs(table.effects[n].prereqs);
        GrewTwice(old(seen), old(queue), s1, q1, seen, queue, FnsIn(table, table.effects[n].fns), PrereqsIn(table, table.effects[n].prereqs));
        LedByEffect(table, n);
      } else {
        assert Led(table, n) == {};
      }
    }

    method SeeSeed(seed: Seed)
      modifies this
      ensures Grew(old(seen), old(queue), seen, queue, SeedIn(table, seed))
    {
      match seed {
        case Handler(of, params) =>
          SeeTypes(of, Arms(of));
          ghost var s1, q1 := seen, queue;
          SeeTypes(params, Arms(params));
          GrewTwice(old(seen), old(queue), s1, q1, seen, queue, MentionedInAll(table, of), MentionedInAll(table, params));
          assert SeedIn(table, seed) == MentionedInAll(table, of) + MentionedInAll(table, params);
        case PlatformFn(signature) =>
          SeeSignature(signature);
          assert SeedIn(table, seed) == SignatureIn(table, signature);
      }
    }

    method SeeSeeds(seeds: seq<Seed>)
      modifies this
      ensures Grew(old(seen), old(queue), seen, queue, SeededBy(table, seeds))
    {
      for i := 0 to |seeds|
        invariant Grew(old(seen), old(queue), seen, queue, SeededBy(table, seeds[..i]))
      {
        ghost var s1, q1 := seen, queue;
        SeeSeed(seeds[i]);
        GrewTwice(old(seen), old(queue), s1, q1, seen, queue, SeededBy(table, seeds[..i]), SeedIn(table, seeds[i]));
        MoreSeeds(table, seeds, i);
      }
      assert seeds[..|seeds|] == seeds;
    }
  }

  ghost function AliasedIn(t: Table, n: Name): set<Name>
    requires n in t.aliases
  {
    if t.aliases[n].Some? then MentionedIn(t, t.aliases[n].value) else {}
  }

  lemma LedByStruct(t: Table, n: Name)
    requires n in t.structs
    ensures Led(t, n) == MentionedInAll(t, t.structs[n]) + NamespaceOf(t, n)
  {}

  lemma LedByAlias(t: Table, n: Name)
    requires n in t.aliases && n !in t.structs
    ensures Led(t, n) == AliasedIn(t, n) + NamespaceOf(t, n)
  {}

  lemma LedByEffect(t: Table, n: Name)
    requires n in t.effects && n !in t.aliases && n !in t.structs
    ensures Led(t, n) == FnsIn(t, t.effects[n].fns) + PrereqsIn(t, t.effects[n].prereqs)
  {}

  lemma MoreTypes(t: Table, ts: seq<Type>, i: nat)
    requires i < |ts|
    ensures MentionedInAll(t, ts[..i + 1]) == MentionedInAll(t, ts[..i]) + MentionedIn(t, ts[i])
  {
    forall n
      ensures SomeMentions(ts[..i + 1], n) <==> SomeMentions(ts[..i], n) || Mentions(ts[i], n)
    {
      if k :| 0 <= k < i && Mentions(ts[..i][k], n) {
        assert ts[..i + 1][k] == ts[..i][k];
      }
      if Mentions(ts[i], n) { assert ts[..i + 1][i] == ts[i]; }
    }
  }

  lemma MoreArgs(t: Table, rs: seq<Ref>, i: nat)
    requires i < |rs|
    ensures ArgsMentionedIn(t, rs[..i + 1]) == ArgsMentionedIn(t, rs[..i]) + MentionedInAll(t, rs[i].args)
  {
    forall n
      ensures ArgsMention(rs[..i + 1], n) <==> ArgsMention(rs[..i], n) || SomeMentions(rs[i].args, n)
    {
      if k :| 0 <= k < i && SomeMentions(rs[..i][k].args, n) { assert rs[..i + 1][k] == rs[..i][k]; }
      if SomeMentions(rs[i].args, n) { assert rs[..i + 1][i] == rs[i]; }
    }
  }

  lemma NamedMentions(t: Table, qualifiers: seq<Ref>, base: Ref)
    ensures MentionedIn(t, Named(qualifiers, base)) ==
      ArgsMentionedIn(t, qualifiers) + (if base.key in Known(t) then {base.key} else {}) + MentionedInAll(t, base.args)
  {
    forall n
      ensures Mentions(Named(qualifiers, base), n) <==> base.key == n || SomeMentions(base.args, n) || ArgsMention(qualifiers, n)
    {
      if i, j :| 0 <= i < |qualifiers| && 0 <= j < |qualifiers[i].args| && Mentions(qualifiers[i].args[j], n) {
        assert SomeMentions(qualifiers[i].args, n);
      }
    }
  }

  lemma FunctionMentions(t: Table, params: seq<Type>, ret: Type)
    ensures MentionedIn(t, Function(params, ret)) == MentionedInAll(t, params) + MentionedIn(t, ret)
  {}

  lemma ArmsMention(t: Table, elems: seq<Type>)
    ensures MentionedIn(t, Arms(elems)) == MentionedInAll(t, elems)
  {}

  lemma MoreFns(t: Table, fns: seq<Signature>, i: nat)
    requires i < |fns|
    ensures FnsIn(t, fns[..i + 1]) == FnsIn(t, fns[..i]) + SignatureIn(t, fns[i])
  {
    forall n
      ensures SomeFnMentions(fns[..i + 1], n) <==> SomeFnMentions(fns[..i], n) || SignatureMentions(fns[i], n)
    {
      if k :| 0 <= k < i && SignatureMentions(fns[..i][k], n) { assert fns[..i + 1][k] == fns[..i][k]; }
      if SignatureMentions(fns[i], n) { assert fns[..i + 1][i] == fns[i]; }
    }
  }

  lemma MorePrereqs(t: Table, prereqs: seq<EffectRef>, i: nat)
    requires i < |prereqs|
    ensures PrereqsIn(t, prereqs[..i + 1]) == PrereqsIn(t, prereqs[..i]) + PrereqIn(t, prereqs[i])
  {
    forall n
      ensures SomePrereqMentions(prereqs[..i + 1], n) <==> SomePrereqMentions(prereqs[..i], n) || EffectRefMentions(prereqs[i], n)
    {
      if k :| 0 <= k < i && EffectRefMentions(prereqs[..i][k], n) { assert prereqs[..i + 1][k] == prereqs[..i][k]; }
      if EffectRefMentions(prereqs[i], n) { assert prereqs[..i + 1][i] == prereqs[i]; }
    }
  }

  lemma MoreSeeds(t: Table, seeds: seq<Seed>, i: nat)
    requires i < |seeds|
    ensures SeededBy(t, seeds[..i + 1]) == SeededBy(t, seeds[..i]) + SeedIn(t, seeds[i])
  {
    forall n
      ensures Seeded(seeds[..i + 1], n) <==> Seeded(seeds[..i], n) || SeedMentions(seeds[i], n)
    {
      if k :| 0 <= k < i && SeedMentions(seeds[..i][k], n) { assert seeds[..i + 1][k] == seeds[..i][k]; }
      if SeedMentions(seeds[i], n) { assert seeds[..i + 1][i] == seeds[i]; }
    }
  }

  // ---- the closure

  /** What the walk knows between two names: everything seen is reached, and everything a seen name
      leads to is seen, unless it is still queued. */
  ghost predicate WalkInv(t: Table, seeds: seq<Seed>, seen: set<Name>, queue: set<Name>) {
    && queue <= seen <= Known(t)
    && SeededBy(t, seeds) <= seen
    && (forall n :: n in seen ==> Reached(t, seeds, n))
    && (forall n :: n in seen && n !in queue ==> Led(t, n) <= seen)
  }

  lemma WalkStarts(t: Table, seeds: seq<Seed>)
    ensures WalkInv(t, seeds, SeededBy(t, seeds), SeededBy(t, seeds))
  {
    forall n | n in SeededBy(t, seeds)
      ensures Reached(t, seeds, n)
    {
      ChainOfOne(t, seeds, n);
    }
  }

  lemma WalkSteps(t: Table, seeds: seq<Seed>, seen: set<Name>, queue: set<Name>, n: Name, rest: seq<Name>, seen2: set<Name>, queue2: seq<Name>)
    requires WalkInv(t, seeds, seen, queue) && n in queue && Elems(rest) + {n} == queue
    requires Grew(seen, rest, seen2, queue2, Led(t, n))
    ensures WalkInv(t, seeds, seen2, Elems(queue2))
  {
    forall other | other in Led(t, n)
      ensures Reached(t, seeds, other)
    {
      ChainExtends(t, seeds, n, other);
    }
  }

  lemma WalkEnds(t: Table, seeds: seq<Seed>, seen: set<Name>)
    requires WalkInv(t, seeds, seen, {})
    ensures forall n :: n in seen <==> Reached(t, seeds, n)
    ensures Closed(t, seeds, seen)
    ensures forall other :: Closed(t, seeds, other) ==> seen <= other
  {
    forall n, other | n in seen && other in Known(t) && Leads(t, n, other)
      ensures other in seen
    {
      assert other in Led(t, n);
    }
    forall n | n in Known(t) && Seeded(seeds, n)
      ensures n in seen
    {
      assert n in SeededBy(t, seeds);
    }
    forall n | Reached(t, seeds, n)
      ensures n in seen
    {
      ReachedAreInside(t, seeds, n, seen);
    }
    forall other, n | Closed(t, seeds, other) && n in seen
      ensures n in other
    {
      ReachedAreInside(t, seeds, n, other);
    }
  }

  lemma Progress(t: Table, seen: set<Name>, seen2: set<Name>)
    requires seen < seen2 <= Known(t)
    ensures |Known(t) - seen2| < |Known(t) - seen|
  {
    var n :| n in seen2 && n !in seen;
    assert Known(t) - seen2 < Known(t) - seen;
    FewerLeft(Known(t) - seen2, Known(t) - seen);
  }

  lemma FewerLeft(a: set<Name>, b: set<Name>)
    requires a < b
    ensures |a| < |b|
  {
    var d := b - a;
    assert b == a + d && a * d == {} && d != {};
  }

  /** One name of the queue. */
  method Step(walk: Walk, ghost seeds: seq<Seed>)
    requires walk.queue != [] && WalkInv(walk.table, seeds, walk.seen, Elems(walk.queue))
    modifies walk
    ensures WalkInv(walk.table, seeds, walk.seen, Elems(walk.queue))
    ensures
      || |Known(walk.table) - walk.seen| < |Known(walk.table) - old(walk.seen)|
      || (walk.seen == old(walk.seen) && |walk.queue| < |old(walk.queue)|)
  {
    var n := walk.queue[|walk.queue| - 1];
    ghost var rest := walk.queue[..|walk.queue| - 1];
    assert walk.queue == rest + [n];
    assert Elems(rest) + {n} == Elems(walk.queue);
    walk.queue := walk.queue[..|walk.queue| - 1];
    walk.Expand(n);
    WalkSteps(walk.table, seeds, old(walk.seen), Elems(old(walk.queue)), n, rest, walk.seen, walk.queue);
    if walk.seen != old(walk.seen) { Progress(walk.table, old(walk.seen), walk.seen); }
  }

  /** The declarations a host project must see: those a chain from a platform signature reaches,
      which are the least set closed under what declarations lead to. */
  method Closure(table: Table, seeds: seq<Seed>) returns (seen: set<Name>)
    ensures forall n :: n in seen <==> Reached(table, seeds, n)
    ensures Closed(table, seeds, seen)
    ensures forall other :: Closed(table, seeds, other) ==> seen <= other
  {
    var walk := new Walk(table);
    walk.SeeSeeds(seeds);
    WalkStarts(table, seeds);
    while walk.queue != []
      invariant fresh(walk) && walk.table == table
      invariant WalkInv(table, seeds, walk.seen, Elems(walk.queue))
      decreases |Known(table) - walk.seen|, |walk.queue|
    {
      Step(walk, seeds);
    }
    WalkEnds(table, seeds, walk.seen);
    return walk.seen;
  }
}
