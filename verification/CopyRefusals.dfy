/** When a copy is refused: which types have no plan, and which have, whatever the tables. */
module CopyRefusals {
  import opened Basics
  import opened SalvoTypes
  import opened Immutable
  import opened CopyValues
  import opened CopyPlans
  import opened CopyTheorem

  // ---- the kinds of types that are copied

  predicate IsBuilder(ty: Ty) {
    ty.Qualified? && Mut in ty.quals && ty.base.Named? && ty.base.name == Str
  }

  /** A platform type without arguments that its host copies: a value of a type that can be `Mut`
      and is not linear. */
  predicate HostCopies(sym: Symbols, ty: Ty) {
    var base := StripQuals(ty);
    base.Named? && base.args == [] && base.name in sym.intrinsics &&
    var decl := sym.intrinsics[base.name];
    decl.platform && decl.canbeMut && !decl.linear
  }

  predicate IsSequence(ty: Ty) {
    StripQuals(ty).Named? && (StripQuals(ty).name == List || StripQuals(ty).name == Deque) && |StripQuals(ty).args| == 1
  }

  /** An argument that is a type, and not the identity of a function or a value. */
  predicate IsType(a: Ty) {
    !a.FnName? && !a.ValueRef? && !a.ConstArg?
  }

  lemma {:induction false} TypesOfJoined(before: seq<Ty>, behind: seq<Ty>)
    ensures TypesOf(before + behind) == TypesOf(before) + TypesOf(behind)
  {
    if before == [] {
      assert before + behind == behind;
    } else {
      TypesOfJoined(before[1..], behind);
      assert (before + behind)[1..] == before[1..] + behind;
    }
  }

  lemma TypesOfOne(a: Ty)
    ensures TypesOf([a]) == if IsType(a) then [a] else []
  {
    assert TypesOf([a][1..]) == [];
  }

  /** The type arguments, in order: an argument is one of them, or none. */
  lemma TypesOfExactly(before: seq<Ty>, a: Ty, behind: seq<Ty>)
    ensures TypesOf(before + [a] + behind) == TypesOf(before) + (if IsType(a) then [a] else []) + TypesOf(behind)
  {
    TypesOfJoined(before + [a], behind);
    TypesOfJoined(before, [a]);
    TypesOfOne(a);
  }

  predicate IsMapType(ty: Ty) {
    StripQuals(ty).Named? && (StripQuals(ty).name == Map || StripQuals(ty).name == SortedMap)
  }

  predicate IsSetType(ty: Ty) {
    StripQuals(ty).Named? && (StripQuals(ty).name == Set || StripQuals(ty).name == SortedSet)
  }

  /** A map or set whose key or member type no operation can write. */
  predicate SharesItsKeys(sym: Symbols, ty: Ty) {
    && (IsMapType(ty) || IsSetType(ty)) && IsPlatform(sym, StripQuals(ty).name)
    && TypesOf(StripQuals(ty).args) != [] && IsImmutable(sym, TypesOf(StripQuals(ty).args)[0], [])
  }

  predicate IsFlatArray(sym: Symbols, ty: Ty) {
    StripQuals(ty).ArrayOf? && IsImmutable(sym, StripQuals(ty).elem, [])
  }

  /** A struct whose name, as it is written, is among the `met` ones. */
  predicate MetAgain(ty: Ty, met: seq<TypeName>) {
    StripQuals(ty).Named? && exists n | n in met :: SamePlain(n, StripQuals(ty).name)
  }

  /** A struct that can be copied inside the copies of the structs `met`: only a generic one met
      again cannot. */
  predicate IsCopiedStruct(sym: Symbols, ty: Ty, met: seq<TypeName>) {
    IsStruct(sym, StripQuals(ty)) &&
    var s := sym.structs[StripQuals(ty).name];
    s.fields == [] || s.generics == [] || !MetAgain(ty, met)
  }

  /** A type that can be written and is of no kind that is copied. */
  predicate Refuses(sym: Symbols, ty: Ty, met: seq<TypeName>) {
    && !IsImmutable(sym, ty, [])
    && !IsBuilder(ty) && !HostCopies(sym, ty) && !IsSequence(ty) && !SharesItsKeys(sym, ty) && !IsFlatArray(sym, ty)
    && !IsCopiedStruct(sym, ty, met)
  }

  // ---- walks through what is copied

  /** Copying an `a` copies a `b` in it: an element, a map's value, or a field not left out. */
  ghost predicate Copies(sym: Symbols, a: Ty, b: Ty) {
    !IsImmutable(sym, a, []) && (
      || (IsSequence(a) && b == StripQuals(a).args[0])
      || (SharesItsKeys(sym, a) && IsMapType(a) && |TypesOf(StripQuals(a).args)| > 1 && b == TypesOf(StripQuals(a).args)[1])
      || CopiesField(sym, a, b))
  }

  ghost predicate CopiesField(sym: Symbols, a: Ty, b: Ty) {
    IsStruct(sym, StripQuals(a)) &&
    var s, args := sym.structs[StripQuals(a).name], StripQuals(a).args;
    exists k {:trigger LeftOut(sym, s, args, HasMut(a), k)} :: 0 <= k < |s.fields| && !LeftOut(sym, s, args, HasMut(a), k) && b == FieldTy(s, args, HasMut(a), k)
  }

  /** The structs on a walk, inside the copies of `met`. */
  ghost function Entered(sym: Symbols, met: seq<TypeName>, p: seq<Ty>): seq<TypeName> {
    if p == [] then met
    else
      var before := Entered(sym, met, p[..|p| - 1]);
      if IsStruct(sym, StripQuals(p[|p| - 1])) then before + [StripQuals(p[|p| - 1]).name] else before
  }

  ghost predicate CopyStep(sym: Symbols, met: seq<TypeName>, p: seq<Ty>, i: nat)
    requires i + 1 < |p|
  {
    Copies(sym, p[i], p[i + 1]) && (IsStruct(sym, StripQuals(p[i])) ==> !MetAgain(p[i], Entered(sym, met, p[..i])))
  }

  /** A walk from `ty` through what its copy copies, entering no struct it has met, to a type that
      refuses. */
  ghost predicate Refused(sym: Symbols, ty: Ty, met: seq<TypeName>, p: seq<Ty>) {
    && p != [] && p[0] == ty
    && (forall i: nat :: i + 1 < |p| ==> CopyStep(sym, met, p, i))
    && Refuses(sym, p[|p| - 1], Entered(sym, met, p[..|p| - 1]))
  }

  ghost function Within(sym: Symbols, met: seq<TypeName>, ty: Ty): seq<TypeName> {
    if IsStruct(sym, StripQuals(ty)) then met + [StripQuals(ty).name] else met
  }

  lemma {:induction false} EnteredFirst(sym: Symbols, met: seq<TypeName>, ty: Ty, rest: seq<Ty>)
    ensures Entered(sym, met, [ty] + rest) == Entered(sym, Within(sym, met, ty), rest)
  {
    var p := [ty] + rest;
    if rest == [] {
      assert p[..0] == [];
    } else {
      assert p[..|p| - 1] == [ty] + rest[..|rest| - 1];
      EnteredFirst(sym, met, ty, rest[..|rest| - 1]);
    }
  }

  lemma EnteredBefore(sym: Symbols, met: seq<TypeName>, ty: Ty, rest: seq<Ty>, i: nat)
    requires i < |rest|
    ensures Entered(sym, met, ([ty] + rest)[..i + 1]) == Entered(sym, Within(sym, met, ty), rest[..i])
  {
    assert ([ty] + rest)[..i + 1] == [ty] + rest[..i];
    EnteredFirst(sym, met, ty, rest[..i]);
  }

  lemma StepLater(sym: Symbols, met: seq<TypeName>, ty: Ty, rest: seq<Ty>, i: nat)
    requires i + 1 < |rest|
    ensures CopyStep(sym, met, [ty] + rest, i + 1) <==> CopyStep(sym, Within(sym, met, ty), rest, i)
  {
    EnteredBefore(sym, met, ty, rest, i);
  }

  /** A walk of one more step. */
  lemma RefusedFurther(sym: Symbols, ty: Ty, met: seq<TypeName>, rest: seq<Ty>)
    requires rest != [] && Copies(sym, ty, rest[0]) && (IsStruct(sym, StripQuals(ty)) ==> !MetAgain(ty, met))
    requires Refused(sym, rest[0], Within(sym, met, ty), rest)
    ensures Refused(sym, ty, met, [ty] + rest)
  {
    var p := [ty] + rest;
    forall i: nat | i + 1 < |p|
      ensures CopyStep(sym, met, p, i)
    {
      if i == 0 {
        assert p[..0] == [];
      } else {
        StepLater(sym, met, ty, rest, i - 1);
      }
    }
    EnteredBefore(sym, met, ty, rest, |rest| - 1);
  }

  lemma RefusedLater(sym: Symbols, ty: Ty, met: seq<TypeName>, p: seq<Ty>)
    requires Refused(sym, ty, met, p) && |p| > 1
    ensures Copies(sym, ty, p[1]) && (IsStruct(sym, StripQuals(ty)) ==> !MetAgain(ty, met))
    ensures Refused(sym, p[1], Within(sym, met, ty), p[1..])
  {
    var rest := p[1..];
    assert p == [ty] + rest && p[..0] == [];
    assert CopyStep(sym, met, p, 0);
    forall i: nat | i + 1 < |rest|
      ensures CopyStep(sym, Within(sym, met, ty), rest, i)
    {
      assert CopyStep(sym, met, p, i + 1);
      StepLater(sym, met, ty, rest, i);
    }
    EnteredBefore(sym, met, ty, rest, |rest| - 1);
  }

  lemma RefusedAtOnce(sym: Symbols, ty: Ty, met: seq<TypeName>)
    ensures Refused(sym, ty, met, [ty]) <==> Refuses(sym, ty, met)
  {
    assert [ty][..0] == [];
  }

  // ---- the search by written name

  lemma {:induction false} FindOuterExactly(copying: seq<TypeName>, name: TypeName)
    ensures FindOuter(copying, name).None? <==> forall n :: n in copying ==> !SamePlain(n, name)
  {
    if copying != [] {
      FindOuterExactly(copying[1..], name);
      assert copying == [copying[0]] + copying[1..];
    }
  }

  // ---- one step of the plan

  lemma {:induction false} FieldsRefused(sym: Symbols, s: StructDecl, args: seq<Ty>, isMut: bool, copying: seq<TypeName>, i: nat)
    requires i <= |s.fields|
    ensures StructPlan(sym, s, args, isMut, copying, i).None? <==>
      exists k {:trigger LeftOut(sym, s, args, isMut, k)} :: i <= k < |s.fields| && !LeftOut(sym, s, args, isMut, k) && Plan(sym, FieldTy(s, args, isMut, k), copying).None?
    decreases |s.fields| - i
  {
    if i < |s.fields| {
      FieldsRefused(sym, s, args, isMut, copying, i + 1);
      assert LeftOut(sym, s, args, isMut, i) <==> IsImmutable(sym, FieldTy(s, args, isMut, i), [PlainKey(s.written)]);
    }
  }

  /** A type without a plan that does not refuse by itself has a copied part without one. */
  lemma RefusedPart(sym: Symbols, ty: Ty, met: seq<TypeName>) returns (part: Ty)
    requires WellFormed(sym) && Plan(sym, ty, met).None? && !Refuses(sym, ty, met)
    ensures Copies(sym, ty, part) && (IsStruct(sym, StripQuals(ty)) ==> !MetAgain(ty, met))
    ensures Plan(sym, part, Within(sym, met, ty)).None?
    ensures Unvisited(sym, Within(sym, met, ty)) < Unvisited(sym, met) || (Within(sym, met, ty) == met && part < ty)
  {
    var base := StripQuals(ty);
    if IsStruct(sym, base) {
      part := RefusedField(sym, ty, met);
    } else if IsSequence(ty) {
      part := base.args[0];
    } else {
      assert SharesItsKeys(sym, ty);
      TypesOfSmaller(base, TypesOf(base.args)[1]);
      part := TypesOf(base.args)[1];
    }
  }

  /** A struct not met before is refused exactly where one of its copied fields is. */
  lemma StructRefused(sym: Symbols, ty: Ty, met: seq<TypeName>)
    requires WellFormed(sym) && IsStruct(sym, StripQuals(ty)) && !IsImmutable(sym, ty, []) && !MetAgain(ty, met)
    requires sym.structs[StripQuals(ty).name].fields != []
    ensures Unvisited(sym, Within(sym, met, ty)) < Unvisited(sym, met)
    ensures Plan(sym, ty, met).None? <==>
      StructPlan(sym, sym.structs[StripQuals(ty).name], StripQuals(ty).args, HasMut(ty), Within(sym, met, ty), 0).None?
  {
    NotMetIsNotFound(ty, met);
    PlannedByFields(sym, ty, met);
  }

  lemma NotMetIsNotFound(ty: Ty, met: seq<TypeName>)
    requires StripQuals(ty).Named? && !MetAgain(ty, met)
    ensures FindOuter(met, StripQuals(ty).name).None?
  {
    FindOuterExactly(met, StripQuals(ty).name);
  }

  lemma PlannedByFields(sym: Symbols, ty: Ty, met: seq<TypeName>)
    requires IsStruct(sym, StripQuals(ty)) && StripQuals(ty).name.Key? && StripQuals(ty).name !in sym.intrinsics
    requires !IsImmutable(sym, ty, []) && FindOuter(met, StripQuals(ty).name).None?
    requires sym.structs[StripQuals(ty).name].fields != []
    ensures Unvisited(sym, met + [StripQuals(ty).name]) < Unvisited(sym, met)
    ensures var base := StripQuals(ty);
      Plan(sym, ty, met).None? <==> StructPlan(sym, sym.structs[base.name], base.args, HasMut(ty), met + [base.name], 0).None?
  {
    EnteringShrinks(sym, met, StripQuals(ty).name);
    PlannedStruct(sym, ty, StripQuals(ty).name, StripQuals(ty).args, met);
  }

  lemma PlannedStruct(sym: Symbols, ty: Ty, name: TypeName, args: seq<Ty>, met: seq<TypeName>)
    requires StripQuals(ty) == Named(name, args) && name in sym.structs && name.Key? && name !in sym.intrinsics
    requires !IsImmutable(sym, ty, []) && FindOuter(met, name).None? && sym.structs[name].fields != []
    requires Unvisited(sym, met + [name]) < Unvisited(sym, met)
    ensures Plan(sym, ty, met).None? <==> StructPlan(sym, sym.structs[name], args, HasMut(ty), met + [name], 0).None?
  {
    assert !MutPlatformValue(sym, name) && !IsPlatform(sym, name) && name != Str && name != List && name != Deque;
  }

  /** A struct met again is copied by its own copy function, unless it is generic. */
  lemma MetIsPlanned(sym: Symbols, ty: Ty, met: seq<TypeName>)
    requires WellFormed(sym) && IsCopiedStruct(sym, ty, met) && Plan(sym, ty, met).None?
    ensures sym.structs[StripQuals(ty).name].fields != [] && !MetAgain(ty, met)
  {
    FindOuterExactly(met, StripQuals(ty).name);
  }

  lemma RefusedField(sym: Symbols, ty: Ty, met: seq<TypeName>) returns (part: Ty)
    requires WellFormed(sym) && Plan(sym, ty, met).None? && IsCopiedStruct(sym, ty, met)
    ensures Copies(sym, ty, part) && !MetAgain(ty, met)
    ensures Plan(sym, part, Within(sym, met, ty)).None?
    ensures Unvisited(sym, Within(sym, met, ty)) < Unvisited(sym, met)
  {
    var s, args := sym.structs[StripQuals(ty).name], StripQuals(ty).args;
    MetIsPlanned(sym, ty, met);
    StructRefused(sym, ty, met);
    FieldsRefused(sym, s, args, HasMut(ty), Within(sym, met, ty), 0);
    var k :| 0 <= k < |s.fields| && !LeftOut(sym, s, args, HasMut(ty), k) && Plan(sym, FieldTy(s, args, HasMut(ty), k), Within(sym, met, ty)).None?;
    part := FieldTy(s, args, HasMut(ty), k);
    assert CopiesField(sym, ty, part);
  }

  lemma FieldRefuses(sym: Symbols, ty: Ty, met: seq<TypeName>, part: Ty)
    requires WellFormed(sym) && !IsImmutable(sym, ty, []) && CopiesField(sym, ty, part) && !MetAgain(ty, met)
    requires Plan(sym, part, Within(sym, met, ty)).None?
    ensures Plan(sym, ty, met).None?
  {
    var s, args := sym.structs[StripQuals(ty).name], StripQuals(ty).args;
    StructRefused(sym, ty, met);
    FieldsRefused(sym, s, args, HasMut(ty), Within(sym, met, ty), 0);
    var k :| 0 <= k < |s.fields| && !LeftOut(sym, s, args, HasMut(ty), k) && part == FieldTy(s, args, HasMut(ty), k);
  }

  /** A copied part without a plan leaves the type without one. */
  lemma PartRefuses(sym: Symbols, ty: Ty, met: seq<TypeName>, part: Ty)
    requires WellFormed(sym) && Copies(sym, ty, part) && (IsStruct(sym, StripQuals(ty)) ==> !MetAgain(ty, met))
    requires Plan(sym, part, Within(sym, met, ty)).None?
    ensures Plan(sym, ty, met).None?
  {
    if IsStruct(sym, StripQuals(ty)) {
      StructCopiesFields(sym, ty, part);
      FieldRefuses(sym, ty, met, part);
    } else {
      PlainPartRefuses(sym, ty, met, part);
    }
  }

  lemma StructCopiesFields(sym: Symbols, ty: Ty, part: Ty)
    requires WellFormed(sym) && Copies(sym, ty, part) && IsStruct(sym, StripQuals(ty))
    ensures CopiesField(sym, ty, part)
  {}

  lemma PlainPartRefuses(sym: Symbols, ty: Ty, met: seq<TypeName>, part: Ty)
    requires WellFormed(sym) && Copies(sym, ty, part) && !IsStruct(sym, StripQuals(ty)) && Plan(sym, part, met).None?
    ensures Plan(sym, ty, met).None?
  {}

  lemma RefusesAtOnce(sym: Symbols, ty: Ty, met: seq<TypeName>)
    requires WellFormed(sym) && Refuses(sym, ty, met)
    ensures Plan(sym, ty, met).None?
  {
    if StripQuals(ty).Named? { FindOuterExactly(met, StripQuals(ty).name); }
  }

  // ---- the theorem

  lemma {:induction false} RefusalHasAWalk(sym: Symbols, ty: Ty, met: seq<TypeName>) returns (p: seq<Ty>)
    requires WellFormed(sym) && Plan(sym, ty, met).None?
    ensures Refused(sym, ty, met, p)
    decreases Unvisited(sym, met), ty
  {
    if Refuses(sym, ty, met) {
      RefusedAtOnce(sym, ty, met);
      p := [ty];
    } else {
      var part := RefusedPart(sym, ty, met);
      var rest := RefusalHasAWalk(sym, part, Within(sym, met, ty));
      RefusedFurther(sym, ty, met, rest);
      p := [ty] + rest;
    }
  }

  lemma {:induction false} WalkIsARefusal(sym: Symbols, ty: Ty, met: seq<TypeName>, p: seq<Ty>)
    requires WellFormed(sym) && Refused(sym, ty, met, p)
    ensures Plan(sym, ty, met).None?
    decreases |p|
  {
    if |p| == 1 {
      assert p == [ty];
      RefusedAtOnce(sym, ty, met);
      RefusesAtOnce(sym, ty, met);
    } else {
      RefusedLater(sym, ty, met, p);
      WalkIsARefusal(sym, p[1], Within(sym, met, ty), p[1..]);
      PartRefuses(sym, ty, met, p[1]);
    }
  }

  /** A copy is refused exactly where a walk through what it copies, entering no struct twice, ends
      in a type that refuses. */
  lemma RefusedExactly(sym: Symbols, ty: Ty)
    requires WellFormed(sym)
    ensures CopyPlanOf(sym, ty).None? <==> exists p :: Refused(sym, ty, [], p)
  {
    if CopyPlanOf(sym, ty).None? { var p := RefusalHasAWalk(sym, ty, []); }
    if p: seq<Ty> :| Refused(sym, ty, [], p) { WalkIsARefusal(sym, ty, [], p); }
  }

  /** So every set whose members no operation can write has a plan. */
  lemma SetsAreCopied(sym: Symbols, ty: Ty)
    requires WellFormed(sym) && SharesItsKeys(sym, ty) && IsSetType(ty)
    ensures CopyPlanOf(sym, ty).Some?
  {
    RefusedExactly(sym, ty);
    assert !IsStruct(sym, StripQuals(ty));
    if p: seq<Ty> :| Refused(sym, ty, [], p) {
      if |p| > 1 { RefusedLater(sym, ty, [], p); } else { RefusedAtOnce(sym, ty, []); }
    }
  }

  /** What is copied as itself: what no operation can write, and a struct without fields. */
  lemma CopiedAsItselfExactly(sym: Symbols, ty: Ty, copying: seq<TypeName>)
    requires WellFormed(sym)
    ensures Plan(sym, ty, copying) == Some(Identity) <==>
      IsImmutable(sym, ty, []) || (IsStruct(sym, StripQuals(ty)) && sym.structs[StripQuals(ty).name].fields == [])
  {}

  /** A `canbe Mut` text is a builder in a `Mut` struct, which copies it, and a plain text in a plain
      one, which shares it. */
  lemma TextFieldsExactly(sym: Symbols, s: StructDecl, args: seq<Ty>, isMut: bool, copying: seq<TypeName>, k: nat)
    requires k < |s.fields| && s.fields[k].ty == Named(Str, []) && Str !in s.generics
    ensures LeftOut(sym, s, args, isMut, k) <==> !(s.fields[k].canbeMut && isMut)
    ensures s.fields[k].canbeMut && isMut ==> Plan(sym, FieldTy(s, args, isMut, k), copying) == Some(StrBuilder)
  {
    ZipNames(s.generics, args, Str);
    assert PlainFieldTy(s, args, k) == Named(Str, []);
  }

  lemma {:induction false} ZipNames(generics: seq<TypeName>, args: seq<Ty>, n: TypeName)
    requires n !in generics
    ensures n !in Zip(generics, args)
  {
    if generics != [] && args != [] { ZipNames(generics[1..], args[1..], n); }
  }
}
