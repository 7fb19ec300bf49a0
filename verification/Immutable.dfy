/** `immutable`: the analysis that decides when sharing a value is a correct copy, and
    what its answer means in the type graph. */
module Immutable {
  import opened Basics
  import opened SalvoTypes

  /** Names still to be entered: what the recursion over declarations uses up. */
  function Unvisited(sym: Symbols, visiting: seq<TypeName>): nat {
    |DeclNames(sym) - (set v | v in visiting)|
  }

  lemma EnteringShrinks(sym: Symbols, visiting: seq<TypeName>, name: TypeName)
    requires name in DeclNames(sym) && name !in visiting
    ensures Unvisited(sym, visiting + [name]) < Unvisited(sym, visiting)
  {
    var before := DeclNames(sym) - (set v | v in visiting);
    var after := DeclNames(sym) - (set v | v in visiting + [name]);
    assert after == before - {name};
    assert name in before;
  }

  /** Whether no operation can write any part of a value of `ty`; `visiting` is the stack of
      declarations being expanded, and a declaration met again answers true. */
  predicate IsImmutable(sym: Symbols, ty: Ty, visiting: seq<TypeName>)
    decreases Unvisited(sym, visiting), ty
  {
    match ty
    case ValueRef => true
    case ConstArg => true
    case Lit => true
    case Qualified(quals, base) => Mut !in quals && IsImmutable(sym, base, visiting)
    case Named(name, args) =>
      if IsScalar(name) then true
      else if IsPlatform(sym, name) then
        name != Deque && forall a | a in args :: IsImmutable(sym, a, visiting)
      else if name in sym.aliases then
        if name in visiting then true
        else
          EnteringShrinks(sym, visiting, name);
          IsImmutable(sym, AliasTarget(sym, name), visiting + [name])
      else if name in sym.structs then
        if name in visiting then true
        else
          EnteringShrinks(sym, visiting, name);
          var s := sym.structs[name];
          forall i | 0 <= i < |s.fields| :: IsImmutable(sym, PlainFieldTy(s, args, i), visiting + [name])
      else false
    case Union(arms) => forall a | a in arms :: IsImmutable(sym, a, visiting)
    case Tuple(elems) => forall e | e in elems :: IsImmutable(sym, e, visiting)
    case ArrayOf(_) => false
    case Fn => true
    case FnName => true
    case _ => false
  }

  // ---- one unfolding, in the words of the type graph

  lemma ImmutablePart(sym: Symbols, ty: Ty, visiting: seq<TypeName>, part: Ty)
    requires WellFormed(sym)
    requires IsImmutable(sym, ty, visiting) && part in Parts(sym, ty)
    requires !(IsDecl(sym, ty) && ty.name in visiting)
    ensures IsImmutable(sym, part, if IsDecl(sym, ty) then visiting + [ty.name] else visiting)
  {
  }

  lemma MutableLeafIsNotImmutable(sym: Symbols, ty: Ty, visiting: seq<TypeName>)
    requires MutableLeaf(sym, ty)
    ensures !IsImmutable(sym, ty, visiting)
  {
  }

  /** A refused declaration has a refused part. */
  lemma MutableDeclPart(sym: Symbols, ty: Ty, visiting: seq<TypeName>) returns (part: Ty)
    requires WellFormed(sym) && IsDecl(sym, ty) && !IsImmutable(sym, ty, visiting)
    ensures part in Parts(sym, ty) && !IsImmutable(sym, part, visiting + [ty.name])
    ensures ty.name !in visiting && Unvisited(sym, visiting + [ty.name]) < Unvisited(sym, visiting)
  {
    EnteringShrinks(sym, visiting, ty.name);
    if ty.name in sym.aliases {
      part := AliasTarget(sym, ty.name);
    } else {
      part := MutableField(sym, ty, visiting);
    }
  }

  lemma MutableField(sym: Symbols, ty: Ty, visiting: seq<TypeName>) returns (part: Ty)
    requires WellFormed(sym) && IsDecl(sym, ty) && ty.name in sym.structs && !IsImmutable(sym, ty, visiting)
    ensures part in Parts(sym, ty) && !IsImmutable(sym, part, visiting + [ty.name])
  {
    var s := sym.structs[ty.name];
    var i :| 0 <= i < |s.fields| && !IsImmutable(sym, PlainFieldTy(s, ty.args, i), visiting + [ty.name]);
    part := PlainFieldTy(s, ty.args, i);
    assert Parts(sym, ty)[i] == part;
  }

  /** So has any other refused type that is not mutable by itself. */
  lemma MutablePlainPart(sym: Symbols, ty: Ty, visiting: seq<TypeName>) returns (part: Ty)
    requires !IsDecl(sym, ty) && !IsImmutable(sym, ty, visiting) && !MutableLeaf(sym, ty)
    ensures part in Parts(sym, ty) && !IsImmutable(sym, part, visiting) && part < ty
  {
    match ty
    case Qualified(_, base) => part := base;
    case Named(_, args) => part :| part in args && !IsImmutable(sym, part, visiting);
    case Union(arms) => part :| part in arms && !IsImmutable(sym, part, visiting);
    case Tuple(elems) => part :| part in elems && !IsImmutable(sym, part, visiting);
    case _ => assert false;
  }

  /** The part a refusal is about, and the stack it is refused under. */
  lemma MutablePart(sym: Symbols, ty: Ty, visiting: seq<TypeName>) returns (part: Ty, inner: seq<TypeName>)
    requires WellFormed(sym) && !IsImmutable(sym, ty, visiting) && !MutableLeaf(sym, ty)
    ensures part in Parts(sym, ty) && !IsImmutable(sym, part, inner)
    ensures inner == if IsDecl(sym, ty) then visiting + [ty.name] else visiting
    ensures IsDecl(sym, ty) ==> ty.name !in visiting
    ensures Unvisited(sym, inner) < Unvisited(sym, visiting) || (inner == visiting && part < ty)
  {
    if IsDecl(sym, ty) {
      part := MutableDeclPart(sym, ty, visiting);
      inner := visiting + [ty.name];
    } else {
      part := MutablePlainPart(sym, ty, visiting);
      inner := visiting;
    }
  }

  // ---- walks

  /** The walk expands no declaration of `names`. */
  ghost predicate Avoids(sym: Symbols, p: seq<Ty>, names: seq<TypeName>) {
    forall i {:trigger p[i]} :: 0 <= i < |p| && IsDecl(sym, p[i]) ==> p[i].name !in names
  }

  /** Along the walk, a declaration is always met at one expansion. */
  ghost predicate OneExpansion(sym: Symbols, p: seq<Ty>) {
    forall i, j :: 0 <= i < j < |p| && IsDecl(sym, p[i]) && IsDecl(sym, p[j]) && p[i].name == p[j].name ==>
      SameExpansion(sym, p[i], p[j])
  }

  /** A walk from `ty` to a mutable leaf that meets each declaration at one expansion only. */
  ghost predicate Exposes(sym: Symbols, ty: Ty, p: seq<Ty>) {
    IsPath(sym, p) && p[0] == ty && MutableLeaf(sym, p[|p| - 1]) && OneExpansion(sym, p)
  }

  // ---- the answer no: always right

  lemma PrependedPath(sym: Symbols, ty: Ty, rest: seq<Ty>)
    requires IsPath(sym, rest) && rest[0] in Parts(sym, ty)
    ensures IsPath(sym, [ty] + rest)
  {
    var p := [ty] + rest;
    forall i | 0 < i < |p|
      ensures StepAt(sym, p, i)
    {
      if i > 1 { assert StepAt(sym, rest, i - 1); }
    }
  }

  lemma PrependedOnce(sym: Symbols, ty: Ty, rest: seq<Ty>)
    requires OneExpansion(sym, rest)
    requires IsDecl(sym, ty) ==> Avoids(sym, rest, [ty.name])
    ensures OneExpansion(sym, [ty] + rest)
  {
    var p := [ty] + rest;
    forall i, j | 0 <= i < j < |p| && IsDecl(sym, p[i]) && IsDecl(sym, p[j]) && p[i].name == p[j].name
      ensures SameExpansion(sym, p[i], p[j])
    {
      assert p[j] == rest[j - 1];
      assert i == 0 || p[i] == rest[i - 1];
    }
  }

  lemma PrependedAvoids(sym: Symbols, ty: Ty, rest: seq<Ty>, names: seq<TypeName>)
    requires Avoids(sym, rest, names) && (IsDecl(sym, ty) ==> ty.name !in names)
    ensures Avoids(sym, [ty] + rest, names)
  {
    var p := [ty] + rest;
    forall i | 0 <= i < |p| && IsDecl(sym, p[i])
      ensures p[i].name !in names
    {
      if i > 0 { assert p[i] == rest[i - 1]; }
    }
  }

  lemma AvoidsFewer(sym: Symbols, p: seq<Ty>, names: seq<TypeName>, fewer: seq<TypeName>)
    requires Avoids(sym, p, names) && forall n :: n in fewer ==> n in names
    ensures Avoids(sym, p, fewer)
  {
  }

  lemma Prepended(sym: Symbols, ty: Ty, rest: seq<Ty>, visiting: seq<TypeName>)
    requires IsPath(sym, rest) && OneExpansion(sym, rest)
    requires rest[0] in Parts(sym, ty)
    requires Avoids(sym, rest, if IsDecl(sym, ty) then visiting + [ty.name] else visiting)
    requires IsDecl(sym, ty) ==> ty.name !in visiting
    ensures IsPath(sym, [ty] + rest) && OneExpansion(sym, [ty] + rest) && Avoids(sym, [ty] + rest, visiting)
  {
    PrependedPath(sym, ty, rest);
    if IsDecl(sym, ty) {
      AvoidsFewer(sym, rest, visiting + [ty.name], [ty.name]);
      AvoidsFewer(sym, rest, visiting + [ty.name], visiting);
    }
    PrependedOnce(sym, ty, rest);
    PrependedAvoids(sym, ty, rest, visiting);
  }

  lemma LeafAlone(sym: Symbols, ty: Ty, visiting: seq<TypeName>)
    requires MutableLeaf(sym, ty)
    ensures Exposes(sym, ty, [ty]) && Avoids(sym, [ty], visiting)
  {
  }

  /** A refusal names something: a walk to a mutable leaf that expands nothing on the stack and
      nothing twice. */
  lemma {:induction false} RefusalHasAWitness(sym: Symbols, ty: Ty, visiting: seq<TypeName>) returns (p: seq<Ty>)
    requires WellFormed(sym) && !IsImmutable(sym, ty, visiting)
    ensures Exposes(sym, ty, p) && Avoids(sym, p, visiting)
    decreases Unvisited(sym, visiting), ty
  {
    if MutableLeaf(sym, ty) {
      p := [ty];
      LeafAlone(sym, ty, visiting);
    } else {
      var part, inner := MutablePart(sym, ty, visiting);
      var rest := RefusalHasAWitness(sym, part, inner);
      p := [ty] + rest;
      Prepended(sym, ty, rest, visiting);
      assert p[|p| - 1] == rest[|rest| - 1];
    }
  }

  // ---- the answer yes: right up to the names on the stack

  lemma SuffixKeeps(sym: Symbols, p: seq<Ty>, k: nat, names: seq<TypeName>)
    requires IsPath(sym, p) && Avoids(sym, p, names) && OneExpansion(sym, p) && k < |p|
    ensures IsPath(sym, p[k..]) && Avoids(sym, p[k..], names) && OneExpansion(sym, p[k..])
    ensures p[k..][|p| - k - 1] == p[|p| - 1]
  {
    var q := p[k..];
    forall i | 0 < i < |q|
      ensures StepAt(sym, q, i)
    {
      assert StepAt(sym, p, k + i);
    }
  }

  lemma SameExpansionSameAnswer(sym: Symbols, a: Ty, b: Ty, visiting: seq<TypeName>)
    requires WellFormed(sym) && SameExpansion(sym, a, b)
    ensures IsImmutable(sym, a, visiting) == IsImmutable(sym, b, visiting)
  {
    SameExpansionSameParts(sym, a, b);
    if a.name in sym.structs {
      var s := sym.structs[a.name];
      forall i | 0 <= i < |s.fields|
        ensures PlainFieldTy(s, a.args, i) == PlainFieldTy(s, b.args, i)
      {
        assert Parts(sym, a)[i] == Parts(sym, b)[i];
      }
    }
  }

  /** A walk to a mutable leaf that avoids the stack, from a type called immutable. */
  ghost predicate Refuted(sym: Symbols, visiting: seq<TypeName>, p: seq<Ty>) {
    && IsPath(sym, p) && Avoids(sym, p, visiting) && OneExpansion(sym, p)
    && MutableLeaf(sym, p[|p| - 1]) && IsImmutable(sym, p[0], visiting)
  }

  /** From the last visit of the first declaration on. */
  lemma CutToRevisit(sym: Symbols, visiting: seq<TypeName>, p: seq<Ty>, k: nat)
    requires WellFormed(sym) && Refuted(sym, visiting, p)
    requires 0 < k < |p| && IsDecl(sym, p[0]) && IsDecl(sym, p[k]) && p[k].name == p[0].name
    ensures Refuted(sym, visiting, p[k..])
  {
    SuffixKeeps(sym, p, k, visiting);
    SameExpansionSameAnswer(sym, p[0], p[k], visiting);
  }

  /** One step on, with the declaration left behind on the stack: it is not met again. */
  lemma CutAndPush(sym: Symbols, visiting: seq<TypeName>, p: seq<Ty>)
    requires WellFormed(sym) && Refuted(sym, visiting, p) && |p| > 1 && IsDecl(sym, p[0])
    requires forall k :: 0 < k < |p| && IsDecl(sym, p[k]) ==> p[k].name != p[0].name
    ensures Refuted(sym, visiting + [p[0].name], p[1..])
  {
    SuffixKeeps(sym, p, 1, visiting);
    assert StepAt(sym, p, 1);
    ImmutablePart(sym, p[0], visiting, p[1]);
  }

  lemma CutOne(sym: Symbols, visiting: seq<TypeName>, p: seq<Ty>)
    requires WellFormed(sym) && Refuted(sym, visiting, p) && |p| > 1 && !IsDecl(sym, p[0])
    ensures Refuted(sym, visiting, p[1..])
  {
    SuffixKeeps(sym, p, 1, visiting);
    assert StepAt(sym, p, 1);
    ImmutablePart(sym, p[0], visiting, p[1]);
  }

  /** The heart of the matter. Answering true at a revisit loses nothing: a walk to a mutable
      leaf that avoids the stack would, cut at the last visit of each name, be refused. */
  lemma {:induction false} NoWalkAroundTheStack(sym: Symbols, visiting: seq<TypeName>, p: seq<Ty>)
    requires WellFormed(sym) && Refuted(sym, visiting, p)
    ensures false
    decreases |p|
  {
    if |p| == 1 {
      MutableLeafIsNotImmutable(sym, p[0], visiting);
    } else if !IsDecl(sym, p[0]) {
      CutOne(sym, visiting, p);
      NoWalkAroundTheStack(sym, visiting, p[1..]);
    } else if k :| 0 < k < |p| && IsDecl(sym, p[k]) && p[k].name == p[0].name {
      CutToRevisit(sym, visiting, p, k);
      NoWalkAroundTheStack(sym, visiting, p[k..]);
    } else {
      CutAndPush(sym, visiting, p);
      NoWalkAroundTheStack(sym, visiting + [p[0].name], p[1..]);
    }
  }

  lemma RegularWalkHasOneExpansion(sym: Symbols, p: seq<Ty>)
    requires IsPath(sym, p) && Regular(sym, p[0])
    ensures OneExpansion(sym, p)
  {
    forall i, j | 0 <= i < j < |p| && IsDecl(sym, p[i]) && IsDecl(sym, p[j]) && p[i].name == p[j].name
      ensures SameExpansion(sym, p[i], p[j])
    {
      Subwalk(sym, p, 0, i);
      Subwalk(sym, p, i, j);
    }
  }

  /** Every walk from `ty` to a mutable leaf expands a name of the stack. */
  ghost predicate OnlyThroughStack(sym: Symbols, ty: Ty, visiting: seq<TypeName>) {
    forall leaf, p :: MutableLeaf(sym, leaf) && PathFrom(sym, ty, leaf, p) ==> !Avoids(sym, p, visiting)
  }

  lemma YesMeansOnlyThroughStack(sym: Symbols, ty: Ty, visiting: seq<TypeName>)
    requires WellFormed(sym) && Regular(sym, ty)
    requires IsImmutable(sym, ty, visiting)
    ensures OnlyThroughStack(sym, ty, visiting)
  {
    forall leaf, p | MutableLeaf(sym, leaf) && PathFrom(sym, ty, leaf, p)
      ensures !Avoids(sym, p, visiting)
    {
      if Avoids(sym, p, visiting) {
        RegularWalkHasOneExpansion(sym, p);
        NoWalkAroundTheStack(sym, visiting, p);
      }
    }
  }

  /** With any stack: yes if and only if every walk to a mutable leaf expands a name of it. */
  lemma ImmutableUpToStack(sym: Symbols, ty: Ty, visiting: seq<TypeName>)
    requires WellFormed(sym) && Regular(sym, ty)
    ensures IsImmutable(sym, ty, visiting) <==> OnlyThroughStack(sym, ty, visiting)
  {
    if IsImmutable(sym, ty, visiting) {
      YesMeansOnlyThroughStack(sym, ty, visiting);
    } else {
      var p := RefusalHasAWitness(sym, ty, visiting);
      assert PathFrom(sym, ty, p[|p| - 1], p);
    }
  }

  /** What the answer means, over every table: yes if and only if no walk exposes a mutable leaf.
      What it misses is exactly a leaf every walk to which re-enters a generic struct at
      different arguments. */
  lemma ImmutableMeansUnexposed(sym: Symbols, ty: Ty)
    requires WellFormed(sym)
    ensures IsImmutable(sym, ty, []) <==> !exists p :: Exposes(sym, ty, p)
  {
    if IsImmutable(sym, ty, []) {
      forall p | Exposes(sym, ty, p)
        ensures false
      {
        NoWalkAroundTheStack(sym, [], p);
      }
    } else {
      var p := RefusalHasAWitness(sym, ty, []);
    }
  }

  /** Exact over regular tables, so over every table whose structs are not generic: yes if and
      only if no mutable leaf is reachable. */
  lemma ImmutableIsExact(sym: Symbols, ty: Ty)
    requires WellFormed(sym) && Regular(sym, ty)
    ensures IsImmutable(sym, ty, []) <==> !ReachesMutable(sym, ty)
  {
    ImmutableMeansUnexposed(sym, ty);
    if ReachesMutable(sym, ty) {
      var leaf :| Reaches(sym, ty, leaf) && MutableLeaf(sym, leaf);
      var p :| PathFrom(sym, ty, leaf, p);
      RegularWalkHasOneExpansion(sym, p);
      assert Exposes(sym, ty, p);
    }
    if p :| Exposes(sym, ty, p) {
      assert PathFrom(sym, ty, p[|p| - 1], p);
      assert Reaches(sym, ty, p[|p| - 1]);
    }
  }

  /** Below `ty` nothing is called immutable from which a mutable leaf is reachable. */
  ghost predicate Honest(sym: Symbols, ty: Ty) {
    forall a :: Reaches(sym, ty, a) && IsImmutable(sym, a, []) ==> !ReachesMutable(sym, a)
  }

  lemma HonestBelow(sym: Symbols, ty: Ty, below: Ty)
    requires Honest(sym, ty) && Reaches(sym, ty, below)
    ensures Honest(sym, below)
  {
    forall a | Reaches(sym, below, a) && IsImmutable(sym, a, [])
      ensures !ReachesMutable(sym, a)
    {
      ReachesTransitive(sym, ty, below, a);
    }
  }

  lemma RegularIsHonest(sym: Symbols, ty: Ty)
    requires WellFormed(sym) && Regular(sym, ty)
    ensures Honest(sym, ty)
  {
    forall a | Reaches(sym, ty, a) && IsImmutable(sym, a, [])
      ensures !ReachesMutable(sym, a)
    {
      RegularBelow(sym, ty, a);
      ImmutableIsExact(sym, a);
    }
  }

  /** A refusal is always right: from what is not called immutable a mutable leaf is reachable. */
  lemma RefusalIsRight(sym: Symbols, ty: Ty)
    requires WellFormed(sym) && !IsImmutable(sym, ty, [])
    ensures ReachesMutable(sym, ty)
  {
    var p := RefusalHasAWitness(sym, ty, []);
    assert PathFrom(sym, ty, p[|p| - 1], p);
    assert Reaches(sym, ty, p[|p| - 1]);
  }

  // ---- where the answer yes is wrong

  const BOX: TypeName := Key("Box", "")
  const PARAM: TypeName := Key("T", "")

  function BoxTable(): Symbols {
    Symbols(
      map[BOX := StructDecl("Box", [PARAM], [Field("value", Named(PARAM, []), false)])],
      map[],
      map[List := IntrinsicDecl(true, false, true), Deque := IntrinsicDecl(true, false, true)])
  }

  const BOXED: Ty := Qualified([Mut], Named(Str, []))
  const INNER_BOX: Ty := Named(BOX, [BOXED])
  const OUTER_BOX: Ty := Named(BOX, [INNER_BOX])

  lemma BoxParts(t: Ty)
    ensures Parts(BoxTable(), Named(BOX, [t])) == [t]
  {
    assert Zip([PARAM], [t]) == map[PARAM := t];
    assert PlainFieldTy(BoxTable().structs[BOX], [t], 0) == t;
  }

  lemma OuterBoxReachesMutable()
    ensures ReachesMutable(BoxTable(), OUTER_BOX)
  {
    BoxParts(INNER_BOX);
    BoxParts(BOXED);
    ReachesPart(BoxTable(), OUTER_BOX, INNER_BOX);
    ReachesPart(BoxTable(), INNER_BOX, BOXED);
    ReachesTransitive(BoxTable(), OUTER_BOX, INNER_BOX, BOXED);
  }

  lemma OuterBoxIsCalledImmutable()
    ensures IsImmutable(BoxTable(), OUTER_BOX, [])
  {
    EnteringShrinks(BoxTable(), [], BOX);
    BoxParts(INNER_BOX);
    var s := BoxTable().structs[BOX];
    assert Parts(BoxTable(), OUTER_BOX)[0] == PlainFieldTy(s, [INNER_BOX], 0);
    assert IsImmutable(BoxTable(), INNER_BOX, [BOX]);
    assert [] + [BOX] == [BOX];
  }

  lemma BoxTableIsWellFormed()
    ensures WellFormed(BoxTable())
  {
  }

  /** A generic struct nested in itself is cut at its own name: `Box<Box<Mut Str>>` is called
      immutable although a `Mut Str` is in it. */
  lemma GenericNestingIsMissed()
    ensures WellFormed(BoxTable())
    ensures IsImmutable(BoxTable(), OUTER_BOX, []) && ReachesMutable(BoxTable(), OUTER_BOX)
    ensures !Regular(BoxTable(), OUTER_BOX)
  {
    BoxTableIsWellFormed();
    OuterBoxReachesMutable();
    OuterBoxIsCalledImmutable();
    var sym := BoxTable();
    if Regular(sym, OUTER_BOX) {
      ImmutableIsExact(sym, OUTER_BOX);
    }
  }
}
