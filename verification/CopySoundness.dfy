/** What `immutable` means for values, and the types below which a copy plan can be trusted. */
module CopySoundness {
  import opened Basics
  import opened SalvoTypes
  import opened Immutable
  import opened CopyValues
  import opened CopyPlans

  // ---- what `immutable` means for values

  lemma PartUnreachable(sym: Symbols, ty: Ty, part: Ty)
    requires !ReachesMutable(sym, ty) && part in Parts(sym, ty)
    ensures !ReachesMutable(sym, part)
  {
    if leaf :| Reaches(sym, part, leaf) && MutableLeaf(sym, leaf) {
      ReachesPart(sym, ty, part);
      ReachesTransitive(sym, ty, part, leaf);
    }
  }

  /** Types whose values are objects with a part in each slot. */
  predicate IsContainer(sym: Symbols, ty: Ty) {
    ty.Tuple? || (ty.Named? && !IsScalar(ty.name) && (IsPlatform(sym, ty.name) || ty.name in sym.structs))
  }

  lemma SlotPart(sym: Symbols, ty: Ty, v: Val, s: Slot, seen: set<TypeName>) returns (part: Ty)
    requires WellFormed(sym) && IsContainer(sym, ty) && HasType(sym, ty, false, v, seen)
    requires v.Obj? && s in v.slots
    ensures part in Parts(sym, ty) && HasType(sym, part, false, s.val, {})
  {
    if ty.Tuple? {
      var i :| 0 <= i < |v.slots| && v.slots[i] == s;
      part := ty.elems[i];
    } else if IsPlatform(sym, ty.name) {
      assert PlatformSlot(sym, ty, s, v);
      part := SlotTy(sym, ty, s, v);
    } else {
      var d := sym.structs[ty.name];
      var i :| 0 <= i < |v.slots| && v.slots[i] == s;
      part := FieldTy(d, ty.args, false, i);
      assert FieldTyped(sym, d, ty.args, false, v, i) && Parts(sym, ty)[i] == part;
    }
  }

  lemma ContainerObject(sym: Symbols, ty: Ty, v: Val, seen: set<TypeName>)
    requires WellFormed(sym) && IsContainer(sym, ty) && HasType(sym, ty, false, v, seen) && !MutableLeaf(sym, ty)
    ensures v.Obj? && !v.mutable
  {
  }

  /** A value of a type from which no mutable leaf is reachable holds no cell. */
  lemma {:induction false} UnreachableHasNoCells(sym: Symbols, ty: Ty, v: Val, seen: set<TypeName>)
    requires WellFormed(sym) && !ReachesMutable(sym, ty) && HasType(sym, ty, false, v, seen)
    ensures NoCells(v)
    decreases v, |sym.aliases.Keys - seen|, ty
  {
    ReachesSelf(sym, ty);
    assert !MutableLeaf(sym, ty);
    if IsContainer(sym, ty) {
      ContainerObject(sym, ty, v, seen);
      forall s | s in v.slots ensures NoCells(s.val) {
        var part := SlotPart(sym, ty, v, s, seen);
        PartUnreachable(sym, ty, part);
        UnreachableHasNoCells(sym, part, s.val, {});
      }
    } else if ty.Qualified? {
      PartUnreachable(sym, ty, ty.base);
      UnreachableHasNoCells(sym, ty.base, v, seen);
    } else if ty.Union? {
      var a :| a in ty.arms && HasType(sym, a, false, v, seen);
      PartUnreachable(sym, ty, a);
      UnreachableHasNoCells(sym, a, v, seen);
    } else if ty.Named? && !IsScalar(ty.name) {
      var target := AliasTarget(sym, ty.name);
      PartUnreachable(sym, ty, target);
      assert AliasesLeft(sym, seen, ty.name);
      UnreachableHasNoCells(sym, target, v, seen + {ty.name});
    }
  }

  /** What `immutable` promises of values: nothing in one can be written. */
  lemma ImmutableHasNoCells(sym: Symbols, ty: Ty, v: Val)
    requires WellFormed(sym) && Honest(sym, ty)
    requires IsImmutable(sym, ty, []) && HasType(sym, ty, false, v, {})
    ensures NoCells(v)
  {
    ReachesSelf(sym, ty);
    UnreachableHasNoCells(sym, ty, v, {});
  }

  // ---- when a type can be trusted

  /** Asking about a field with the struct's written name on the stack, as the plan of a struct
      does, changes no answer: what the seed of `visiting` relies on. */
  predicate SeedHarmless(sym: Symbols, s: StructDecl, args: seq<Ty>) {
    forall i | 0 <= i < |s.fields| ::
      IsImmutable(sym, PlainFieldTy(s, args, i), [PlainKey(s.written)]) ==> IsImmutable(sym, PlainFieldTy(s, args, i), [])
  }

  ghost predicate SeedsHarmless(sym: Symbols, ty: Ty) {
    forall a :: Reaches(sym, ty, a) && IsStruct(sym, a) ==> SeedHarmless(sym, sym.structs[a.name], a.args)
  }

  /** No two structs, one reached from the other, are written alike. */
  ghost predicate Unmistaken(sym: Symbols, ty: Ty) {
    forall a, b :: Reaches(sym, ty, a) && Reaches(sym, a, b) && IsStruct(sym, a) && IsStruct(sym, b) && SamePlain(a.name, b.name) ==>
      a.name == b.name
  }

  /** Below `ty` the answer yes is right, no seed changes an answer, and a struct met inside
      another's copy is not taken for it. */
  ghost predicate Tame(sym: Symbols, ty: Ty) {
    Honest(sym, ty) && SeedsHarmless(sym, ty) && Unmistaken(sym, ty)
  }

  /** None of the structs being copied is written as another struct reached from `ty` is. */
  ghost predicate NoneMistaken(sym: Symbols, copying: seq<TypeName>, ty: Ty) {
    forall n, b :: n in copying && Reaches(sym, ty, b) && IsStruct(sym, b) && SamePlain(n, b.name) ==> n == b.name
  }

  lemma TameBelow(sym: Symbols, ty: Ty, below: Ty)
    requires Tame(sym, ty) && Reaches(sym, ty, below)
    ensures Tame(sym, below)
  {
    HonestBelow(sym, ty, below);
    forall a | Reaches(sym, below, a)
      ensures Reaches(sym, ty, a)
    {
      ReachesTransitive(sym, ty, below, a);
    }
  }

  lemma NoneMistakenBelow(sym: Symbols, copying: seq<TypeName>, ty: Ty, below: Ty)
    requires NoneMistaken(sym, copying, ty) && Reaches(sym, ty, below)
    ensures NoneMistaken(sym, copying, below)
  {
    forall b | Reaches(sym, below, b)
      ensures Reaches(sym, ty, b)
    {
      ReachesTransitive(sym, ty, below, b);
    }
  }

  lemma TamePart(sym: Symbols, ty: Ty, part: Ty)
    requires Tame(sym, ty) && part in Parts(sym, ty)
    ensures Tame(sym, part)
  {
    ReachesPart(sym, ty, part);
    TameBelow(sym, ty, part);
  }

  /** What lies below a type whose parts are `ty` or parts of `ty` lies below `ty`. */
  lemma BelowRespelled(sym: Symbols, ty: Ty, ty2: Ty, a: Ty)
    requires forall p :: p in Parts(sym, ty2) ==> p in Parts(sym, ty) || p == ty
    requires Reaches(sym, ty2, a)
    ensures a == ty2 || Reaches(sym, ty, a)
  {
    var p :| PathFrom(sym, ty2, a, p);
    if |p| > 1 {
      assert StepAt(sym, p, 1);
      Subwalk(sym, p, 1, |p| - 1);
      if p[1] != ty {
        ReachesPart(sym, ty, p[1]);
        ReachesTransitive(sym, ty, p[1], a);
      }
    }
  }

  /** A wrapper of `ty` that is no struct and not called immutable without reason. */
  lemma TameWrapped(sym: Symbols, ty: Ty, ty2: Ty)
    requires Tame(sym, ty) && !IsStruct(sym, ty2) && !IsImmutable(sym, ty2, [])
    requires forall p :: p in Parts(sym, ty2) ==> p in Parts(sym, ty) || p == ty
    ensures Tame(sym, ty2)
  {
    forall a | Reaches(sym, ty2, a)
      ensures a == ty2 || Reaches(sym, ty, a)
    {
      BelowRespelled(sym, ty, ty2, a);
    }
  }

  lemma QualifiedParts(sym: Symbols, ty: Ty)
    ensures forall p :: p in Parts(sym, Qualify(ty, [Mut])) ==> p in Parts(sym, ty) || p == ty
    ensures !IsStruct(sym, Qualify(ty, [Mut])) && !IsImmutable(sym, Qualify(ty, [Mut]), [])
  {}

  lemma TameQualified(sym: Symbols, ty: Ty)
    requires Tame(sym, ty)
    ensures Tame(sym, Qualify(ty, [Mut]))
  {
    QualifiedParts(sym, ty);
    TameWrapped(sym, ty, Qualify(ty, [Mut]));
  }

  lemma NoneMistakenQualified(sym: Symbols, copying: seq<TypeName>, ty: Ty)
    requires NoneMistaken(sym, copying, ty)
    ensures NoneMistaken(sym, copying, Qualify(ty, [Mut]))
  {
    QualifiedParts(sym, ty);
    forall b | Reaches(sym, Qualify(ty, [Mut]), b) && IsStruct(sym, b)
      ensures Reaches(sym, ty, b)
    {
      BelowRespelled(sym, ty, Qualify(ty, [Mut]), b);
    }
  }

  /** Inside a struct's own copy, what was not mistaken for another struct still is not. */
  lemma NoneMistakenInside(sym: Symbols, copying: seq<TypeName>, ty: Ty)
    requires Unmistaken(sym, ty) && NoneMistaken(sym, copying, ty) && IsStruct(sym, ty)
    ensures NoneMistaken(sym, copying + [ty.name], ty)
  {
    ReachesSelf(sym, ty);
  }

  lemma FieldReached(sym: Symbols, name: TypeName, args: seq<Ty>, i: nat)
    requires WellFormed(sym) && name in sym.structs && i < |sym.structs[name].fields|
    ensures Reaches(sym, Named(name, args), PlainFieldTy(sym.structs[name], args, i))
  {
    var t := PlainFieldTy(sym.structs[name], args, i);
    assert Parts(sym, Named(name, args))[i] == t;
    ReachesPart(sym, Named(name, args), t);
  }

  lemma TameField(sym: Symbols, name: TypeName, args: seq<Ty>, isMut: bool, copying: seq<TypeName>, i: nat)
    requires WellFormed(sym) && Tame(sym, Named(name, args)) && NoneMistaken(sym, copying, Named(name, args))
    requires name in sym.structs && i < |sym.structs[name].fields|
    ensures Tame(sym, FieldTy(sym.structs[name], args, isMut, i))
    ensures NoneMistaken(sym, copying, FieldTy(sym.structs[name], args, isMut, i))
  {
    var t := PlainFieldTy(sym.structs[name], args, i);
    FieldReached(sym, name, args, i);
    TameBelow(sym, Named(name, args), t);
    NoneMistakenBelow(sym, copying, Named(name, args), t);
    TameQualified(sym, t);
    NoneMistakenQualified(sym, copying, t);
  }

  /** Types of one expansion reach mutable leaves alike. */
  lemma SameExpansionReaches(sym: Symbols, a: Ty, b: Ty)
    requires WellFormed(sym) && SameExpansion(sym, a, b) && ReachesMutable(sym, a)
    ensures ReachesMutable(sym, b)
  {
    SameExpansionSameParts(sym, a, b);
    var leaf :| Reaches(sym, a, leaf) && MutableLeaf(sym, leaf);
    BelowRespelled(sym, b, a, leaf);
    assert leaf == a || Reaches(sym, b, leaf);
  }

  lemma TameSameExpansion(sym: Symbols, ty: Ty, ty2: Ty)
    requires WellFormed(sym) && Tame(sym, ty) && SameExpansion(sym, ty, ty2)
    requires ty.name in sym.structs && sym.structs[ty.name].generics == []
    ensures Tame(sym, ty2)
  {
    ReachesSelf(sym, ty);
    SameExpansionSameParts(sym, ty, ty2);
    forall a | Reaches(sym, ty2, a)
      ensures a == ty2 || Reaches(sym, ty, a)
    {
      BelowRespelled(sym, ty, ty2, a);
    }
    if IsImmutable(sym, ty2, []) && ReachesMutable(sym, ty2) {
      SameExpansionSameAnswer(sym, ty, ty2, []);
      SameExpansionReaches(sym, ty2, ty);
    }
    SeedSameExpansion(sym, ty, ty2);
  }

  lemma SeedSameExpansion(sym: Symbols, ty: Ty, ty2: Ty)
    requires SeedsHarmless(sym, ty) && SameExpansion(sym, ty, ty2)
    requires ty.name in sym.structs && sym.structs[ty.name].generics == []
    ensures SeedHarmless(sym, sym.structs[ty2.name], ty2.args)
  {
    ReachesSelf(sym, ty);
    var s := sym.structs[ty2.name];
    forall i | 0 <= i < |s.fields| ensures PlainFieldTy(s, ty2.args, i) == PlainFieldTy(s, ty.args, i) {}
  }

  lemma TameOwn(sym: Symbols, name: TypeName, args: seq<Ty>, isMut: bool)
    requires WellFormed(sym) && Tame(sym, Named(name, args)) && IsDecl(sym, Named(name, args))
    requires name in sym.structs && sym.structs[name].generics == []
    ensures Tame(sym, OwnTy(name, isMut))
  {
    TameSameExpansion(sym, Named(name, args), Named(name, []));
    TameQualified(sym, Named(name, []));
  }

  // ---- typing, seen from the stripped type

  lemma StrippedType(sym: Symbols, ty: Ty, v: Val)
    ensures HasType(sym, ty, false, v, {}) <==> HasType(sym, StripQuals(ty), HasMut(ty), v, {})
  {
  }

  lemma TameStripped(sym: Symbols, copying: seq<TypeName>, ty: Ty)
    requires Tame(sym, ty) && NoneMistaken(sym, copying, ty)
    ensures Tame(sym, StripQuals(ty)) && NoneMistaken(sym, copying, StripQuals(ty))
  {
    if ty.Qualified? {
      ReachesPart(sym, ty, ty.base);
      TameBelow(sym, ty, ty.base);
      NoneMistakenBelow(sym, copying, ty, ty.base);
    }
  }

  /** A value of the struct is one of the struct's own type, whatever arguments were written. */
  lemma OwnTypeSame(sym: Symbols, name: TypeName, args: seq<Ty>, isMut: bool, v: Val)
    requires WellFormed(sym) && name in sym.structs && sym.structs[name].generics == []
    ensures HasType(sym, OwnTy(name, isMut), false, v, {}) <==> HasType(sym, Named(name, args), isMut, v, {})
  {
    var s := sym.structs[name];
    forall i | 0 <= i < |s.fields|
      ensures FieldTy(s, args, isMut, i) == FieldTy(s, [], isMut, i)
    {
    }
    StrippedType(sym, OwnTy(name, isMut), v);
    if v.Obj? && |v.slots| == |s.fields| {
      forall i | 0 <= i < |s.fields|
        ensures FieldTyped(sym, s, args, isMut, v, i) <==> FieldTyped(sym, s, [], isMut, v, i)
      {
      }
    }
  }
}
