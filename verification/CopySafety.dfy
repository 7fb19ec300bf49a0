/** Copy plans: the theorem, its converse at a struct, and the tables it holds for. */
module CopySafety {
  import opened Basics
  import opened SalvoTypes
  import opened Immutable
  import opened CopyValues
  import opened CopyPlans
  import opened CopySharing
  import opened CopySoundness
  import opened CopyTheorem

  /** An equal value of the same type that shares no mutable cell with the original: no write to
      a cell of either shows in the other. */
  ghost predicate SoundCopy(sym: Symbols, ty: Ty, v: Val, copy: Val) {
    && SameShape(v, copy) && HasType(sym, ty, false, copy, {})
    && Cells(v) !! Cells(copy)
    && (forall id, x :: id in Cells(copy) ==> Write(v, id, x) == v)
    && (forall id, x :: id in Cells(v) ==> Write(copy, id, x) == copy)
  }

  /** `copy` of every value of `ty`, wherever it ends, is sound. */
  ghost predicate CopiesSoundly(sym: Symbols, ty: Ty) {
    CopyPlanOf(sym, ty).Some? ==>
      forall fns, v, next: nat {:trigger Run(sym, fns, CopyPlanOf(sym, ty).value, v, next)} ::
        HasType(sym, ty, false, v, {}) && IdsBelow(v, next) && Run(sym, fns, CopyPlanOf(sym, ty).value, v, next).Some? ==>
          SoundCopy(sym, ty, v, Run(sym, fns, CopyPlanOf(sym, ty).value, v, next).value.val)
  }

  /** A copy that shares nothing is sound. */
  lemma DisjointIsSound(sym: Symbols, ty: Ty, v: Val, copy: Val)
    requires SameShape(v, copy) && HasType(sym, ty, false, v, {})
    requires Cells(v) * Cells(copy) == {}
    ensures SoundCopy(sym, ty, v, copy)
  {
    assert Cells(copy) * Cells(v) == {};
    ShapeKeepsType(sym, ty, false, v, copy, {});
    forall id, x | id in Cells(copy) ensures Write(v, id, x) == v { WriteToTheOther(copy, v, id, x); }
    forall id, x | id in Cells(v) ensures Write(copy, id, x) == copy { WriteToTheOther(v, copy, id, x); }
  }

  lemma WriteToTheOther(v: Val, w: Val, id: nat, x: Val)
    requires Cells(v) * Cells(w) == {} && id in Cells(v)
    ensures Write(w, id, x) == w
  {
    assert id !in Cells(v) * Cells(w);
    WriteElsewhere(w, id, x);
  }

  /** The theorem: below a type that can be trusted, every plan copies soundly. */
  lemma CopyIsSound(sym: Symbols, fns: set<CopyFn>, ty: Ty, v: Val, next: nat)
    requires CopyTables(sym) && Tame(sym, ty)
    requires HasType(sym, ty, false, v, {}) && IdsBelow(v, next)
    requires CopyPlanOf(sym, ty).Some? && Run(sym, fns, CopyPlanOf(sym, ty).value, v, next).Some?
    ensures SoundCopy(sym, ty, v, Run(sym, fns, CopyPlanOf(sym, ty).value, v, next).value.val)
  {
    var p := CopyPlanOf(sym, ty).value;
    assert Ready(sym, ty, [], p, v);
    NothingIsShared(sym, p, v);
    CopySharesExactly(sym, fns, p, v, next);
    DisjointIsSound(sym, ty, v, Run(sym, fns, p, v, next).value.val);
  }

  lemma TameCopiesSoundly(sym: Symbols, ty: Ty)
    requires CopyTables(sym) && Tame(sym, ty)
    ensures CopiesSoundly(sym, ty)
  {
    if CopyPlanOf(sym, ty).Some? {
      var p := CopyPlanOf(sym, ty).value;
      forall fns, v, next: nat | HasType(sym, ty, false, v, {}) && IdsBelow(v, next) && Run(sym, fns, p, v, next).Some?
        ensures SoundCopy(sym, ty, v, Run(sym, fns, p, v, next).value.val)
      {
        CopyIsSound(sym, fns, ty, v, next);
      }
    }
  }

  // ---- the converse, at a struct's own plan

  /** The fields a struct's own plan copies can be trusted. */
  ghost predicate ListedFieldsTame(sym: Symbols, name: TypeName, args: seq<Ty>, isMut: bool)
    requires name in sym.structs
  {
    forall k :: 0 <= k < |sym.structs[name].fields| && !LeftOut(sym, sym.structs[name], args, isMut, k) ==>
      var fty := FieldTy(sym.structs[name], args, isMut, k);
      Tame(sym, fty) && NoneMistaken(sym, [name], fty)
  }

  /** The left-out fields of a value hold nothing that can be written. */
  ghost predicate LeftOutHoldNoCells(sym: Symbols, s: StructDecl, args: seq<Ty>, isMut: bool, v: Val) {
    v.Obj? && |v.slots| == |s.fields| &&
    forall k :: 0 <= k < |s.fields| && LeftOut(sym, s, args, isMut, k) ==> Cells(v.slots[k].val) == {}
  }

  lemma SlotsShareNothingExactly(sym: Symbols, ps: SlotPlans, v: Val)
    requires v.Obj?
    ensures SharedInSlots(sym, ps, v, |v.slots|) == {} <==>
      forall k :: 0 <= k < |v.slots| ==> SharedInSlot(sym, ps, v.slots[k]) == {}
  {
    if SharedInSlots(sym, ps, v, |v.slots|) == {} {
      forall k | 0 <= k < |v.slots| ensures SharedInSlot(sym, ps, v.slots[k]) == {} {
        if id :| id in SharedInSlot(sym, ps, v.slots[k]) { SharedSlotwise(sym, ps, v, |v.slots|, id); }
      }
    } else if forall k :: 0 <= k < |v.slots| ==> SharedInSlot(sym, ps, v.slots[k]) == {} {
      NoSlotShares(sym, ps, v);
    }
  }

  lemma FieldShares(sym: Symbols, name: TypeName, args: seq<Ty>, isMut: bool, fps: seq<FieldPlan>, v: Val, k: nat)
    requires CopyTables(sym) && name in sym.structs && k < |sym.structs[name].fields|
    requires ListedFieldsTame(sym, name, args, isMut)
    requires StructPlan(sym, sym.structs[name], args, isMut, [name], 0) == Some(fps)
    requires HasType(sym, Named(name, args), isMut, v, {})
    ensures v.Obj? && k < |v.slots|
    ensures SharedInSlot(sym, Fields(fps), v.slots[k]) ==
      if LeftOut(sym, sym.structs[name], args, isMut, k) then Cells(v.slots[k].val) else {}
  {
    var fty := FieldTy(sym.structs[name], args, isMut, k);
    FieldSlot(sym, name, args, isMut, [name], fps, v, k);
    if !LeftOut(sym, sym.structs[name], args, isMut, k) {
      var q := Plan(sym, fty, [name]).value;
      assert Ready(sym, fty, [name], q, v.slots[k].val);
      NothingIsShared(sym, q, v.slots[k].val);
    }
  }

  /** What a struct's own plan shares is what its left-out fields hold. */
  lemma StructSharesLeftOut(sym: Symbols, name: TypeName, args: seq<Ty>, isMut: bool, fps: seq<FieldPlan>, v: Val)
    requires CopyTables(sym) && name in sym.structs && sym.structs[name].fields != []
    requires ListedFieldsTame(sym, name, args, isMut)
    requires StructPlan(sym, sym.structs[name], args, isMut, [name], 0) == Some(fps)
    requires HasType(sym, Named(name, args), isMut, v, {})
    ensures v.Obj?
    ensures SharedInSlots(sym, Fields(fps), v, |v.slots|) == {} <==> LeftOutHoldNoCells(sym, sym.structs[name], args, isMut, v)
  {
    FieldSlot(sym, name, args, isMut, [name], fps, v, 0);
    forall k | 0 <= k < |v.slots|
      ensures SharedInSlot(sym, Fields(fps), v.slots[k]) ==
        if LeftOut(sym, sym.structs[name], args, isMut, k) then Cells(v.slots[k].val) else {}
    {
      FieldShares(sym, name, args, isMut, fps, v, k);
    }
    SlotsShareNothingExactly(sym, Fields(fps), v);
  }

  /** Every cell of a left-out field is in the copy, so where the other fields can be trusted the
      copy is sound if and only if the left-out ones hold no cells. */
  lemma StructCopyIsSoundExactly(sym: Symbols, fns: set<CopyFn>, ty: Ty, p: CopyPlan, v: Val, next: nat)
    requires CopyTables(sym) && CopyPlanOf(sym, ty) == Some(p) && p.StructCopy?
    requires HasType(sym, ty, false, v, {}) && IdsBelow(v, next) && Run(sym, fns, p, v, next).Some?
    requires StripQuals(ty).Named? && StripQuals(ty).name in sym.structs
    requires ListedFieldsTame(sym, StripQuals(ty).name, StripQuals(ty).args, HasMut(ty))
    ensures SoundCopy(sym, ty, v, Run(sym, fns, p, v, next).value.val) <==>
      LeftOutHoldNoCells(sym, sym.structs[StripQuals(ty).name], StripQuals(ty).args, HasMut(ty), v)
  {
    var base := StripQuals(ty);
    var copy := Run(sym, fns, p, v, next).value.val;
    assert Cells(v) * Cells(copy) == {} <==> LeftOutHoldNoCells(sym, sym.structs[base.name], base.args, HasMut(ty), v) by {
      StructPlanIs(sym, ty, [], p);
      assert [] + [base.name] == [base.name];
      StrippedType(sym, ty, v);
      StructSharesLeftOut(sym, base.name, base.args, HasMut(ty), p.fields, v);
      CopySharesExactly(sym, fns, p, v, next);
      SharedOfObject(sym, p, v);
    }
    CopySharesExactly(sym, fns, p, v, next);
    SoundIsDisjoint(sym, ty, v, copy);
  }

  lemma SoundIsDisjoint(sym: Symbols, ty: Ty, v: Val, copy: Val)
    requires SameShape(v, copy) && HasType(sym, ty, false, v, {})
    ensures SoundCopy(sym, ty, v, copy) <==> Cells(v) * Cells(copy) == {}
  {
    if Cells(v) * Cells(copy) == {} { DisjointIsSound(sym, ty, v, copy); }
  }

  // ---- the seed of `visiting`

  /** The seed is safe at a struct exactly when every field its plan leaves out is free of
      mutable leaves; the answer without a seed need only be right for the fields. */
  lemma SeedHarmlessIsExact(sym: Symbols, s: StructDecl, args: seq<Ty>)
    requires WellFormed(sym)
    requires forall i :: 0 <= i < |s.fields| ==> Honest(sym, PlainFieldTy(s, args, i))
    ensures SeedHarmless(sym, s, args) <==>
      forall i :: 0 <= i < |s.fields| && IsImmutable(sym, PlainFieldTy(s, args, i), [PlainKey(s.written)]) ==>
        !ReachesMutable(sym, PlainFieldTy(s, args, i))
  {
    forall i | 0 <= i < |s.fields|
      ensures IsImmutable(sym, PlainFieldTy(s, args, i), []) <==> !ReachesMutable(sym, PlainFieldTy(s, args, i))
    {
      var fty := PlainFieldTy(s, args, i);
      ReachesSelf(sym, fty);
      if !IsImmutable(sym, fty, []) { RefusalIsRight(sym, fty); }
    }
  }

  /** Over every table, a seed changes the answer for a field exactly when walks expose mutable
      leaves of it and every one of them enters the declaration keyed by the struct's written name. */
  lemma SeedMatters(sym: Symbols, fty: Ty, written: TypeName)
    requires WellFormed(sym)
    ensures IsImmutable(sym, fty, [written]) && !IsImmutable(sym, fty, []) <==>
      && (exists p :: Exposes(sym, fty, p))
      && (forall p :: Exposes(sym, fty, p) ==> !Avoids(sym, p, [written]))
  {
    ImmutableMeansUnexposed(sym, fty);
    if IsImmutable(sym, fty, [written]) {
      forall p | Exposes(sym, fty, p) ensures !Avoids(sym, p, [written]) {
        if Avoids(sym, p, [written]) { NoWalkAroundTheStack(sym, [written], p); }
      }
    } else {
      var p := RefusalHasAWitness(sym, fty, [written]);
    }
  }

  /** No field of the struct keyed `key` leads back to a declaration written like it. */
  ghost predicate NotBelowItself(sym: Symbols, key: TypeName, s: StructDecl, args: seq<Ty>) {
    forall i, a :: 0 <= i < |s.fields| && Reaches(sym, PlainFieldTy(s, args, i), a) && IsDecl(sym, a) ==> !SamePlain(a.name, key)
  }

  /** No field leads to a declaration keyed by the struct's written name. */
  ghost predicate SeedUnreached(sym: Symbols, s: StructDecl, args: seq<Ty>) {
    forall i, a :: 0 <= i < |s.fields| && Reaches(sym, PlainFieldTy(s, args, i), a) && IsDecl(sym, a) ==> a.name != PlainKey(s.written)
  }

  /** A seed that names nothing reached from the fields changes no answer, whatever the table. */
  lemma UnreachedSeedIsHarmless(sym: Symbols, s: StructDecl, args: seq<Ty>)
    requires WellFormed(sym)
    requires SeedUnreached(sym, s, args)
    ensures SeedHarmless(sym, s, args)
  {
    forall i | 0 <= i < |s.fields| && IsImmutable(sym, PlainFieldTy(s, args, i), [PlainKey(s.written)])
      ensures IsImmutable(sym, PlainFieldTy(s, args, i), [])
    {
      var fty := PlainFieldTy(s, args, i);
      SeedMatters(sym, fty, PlainKey(s.written));
      if p: seq<Ty> :| Exposes(sym, fty, p) && !Avoids(sym, p, [PlainKey(s.written)]) {
        var k :| 0 <= k < |p| && IsDecl(sym, p[k]) && p[k].name in [PlainKey(s.written)];
        Subwalk(sym, p, 0, k);
      }
    }
  }

  // ---- types a caller can check

  lemma FirstPart(sym: Symbols, a: Ty, b: Ty) returns (part: Ty)
    requires Reaches(sym, a, b) && a != b
    ensures part in Parts(sym, a) && Reaches(sym, part, b)
  {
    var p :| PathFrom(sym, a, b, p);
    part := p[1];
    assert StepAt(sym, p, 1);
    Subwalk(sym, p, 1, |p| - 1);
  }

  lemma NotReachedAlike(sym: Symbols, a: Ty, b: Ty)
    requires WellFormed(sym) && IsStruct(sym, a) && IsStruct(sym, b) && Reaches(sym, a, b)
    requires NotBelowItself(sym, a.name, sym.structs[a.name], a.args)
    ensures SamePlain(a.name, b.name) ==> a == b
  {
    if a != b {
      var part := FirstPart(sym, a, b);
      var i := FieldOfPart(sym, a, part);
      assert IsDecl(sym, b) && !SamePlain(b.name, a.name);
    }
  }

  /** No struct reached from `ty` leads back to a declaration written like it. */
  ghost predicate Acyclic(sym: Symbols, ty: Ty) {
    forall a :: Reaches(sym, ty, a) && IsStruct(sym, a) ==> NotBelowItself(sym, a.name, sym.structs[a.name], a.args)
  }

  lemma AcyclicIsUnmistaken(sym: Symbols, ty: Ty)
    requires WellFormed(sym) && Acyclic(sym, ty)
    ensures Unmistaken(sym, ty)
  {
    forall a, b | Reaches(sym, ty, a) && Reaches(sym, a, b) && IsStruct(sym, a) && IsStruct(sym, b) && SamePlain(a.name, b.name)
      ensures a.name == b.name
    {
      NotReachedAlike(sym, a, b);
    }
  }

  /** A struct that is not met again is met at one expansion, generic or not. */
  lemma AcyclicIsRegular(sym: Symbols, ty: Ty)
    requires WellFormed(sym) && Acyclic(sym, ty)
    ensures Regular(sym, ty)
  {
    forall a, b | Reaches(sym, ty, a) && Reaches(sym, a, b) && IsDecl(sym, a) && IsDecl(sym, b) && a.name == b.name
      ensures SameExpansion(sym, a, b)
    {
      if IsStruct(sym, a) { NotReachedAlike(sym, a, b); }
    }
  }

  lemma FieldOfPart(sym: Symbols, a: Ty, part: Ty) returns (i: nat)
    requires WellFormed(sym) && IsStruct(sym, a) && part in Parts(sym, a)
    ensures i < |sym.structs[a.name].fields| && PlainFieldTy(sym.structs[a.name], a.args, i) == part
  {
    i :| 0 <= i < |sym.structs[a.name].fields| && Parts(sym, a)[i] == part;
  }

  /** Where no struct reached from `ty` leads back to a declaration written like it, every copy of
      a value of `ty` is sound; generic structs are allowed, and whatever else the table holds. */
  lemma AcyclicTypesCopySoundly(sym: Symbols, ty: Ty)
    requires CopyTables(sym) && Acyclic(sym, ty)
    ensures CopiesSoundly(sym, ty)
  {
    forall a | Reaches(sym, ty, a) && IsStruct(sym, a)
      ensures SeedHarmless(sym, sym.structs[a.name], a.args)
    {
      assert NotBelowItself(sym, a.name, sym.structs[a.name], a.args);
      assert SamePlain(PlainKey(sym.structs[a.name].written), a.name);
      UnreachedSeedIsHarmless(sym, sym.structs[a.name], a.args);
    }
    AcyclicIsUnmistaken(sym, ty);
    AcyclicIsRegular(sym, ty);
    RegularIsHonest(sym, ty);
    TameCopiesSoundly(sym, ty);
  }

  /** No field of a struct reached from `ty` leads to a declaration keyed by the struct's written
      name: so of every struct a project declares, unless it leads to a plain key spelled alike. */
  ghost predicate SeedsUnreached(sym: Symbols, ty: Ty) {
    forall a :: Reaches(sym, ty, a) && IsStruct(sym, a) ==> SeedUnreached(sym, sym.structs[a.name], a.args)
  }

  lemma SeedsUnreachedAreHarmless(sym: Symbols, ty: Ty)
    requires WellFormed(sym) && SeedsUnreached(sym, ty)
    ensures SeedsHarmless(sym, ty)
  {
    forall a | Reaches(sym, ty, a) && IsStruct(sym, a)
      ensures SeedHarmless(sym, sym.structs[a.name], a.args)
    {
      UnreachedSeedIsHarmless(sym, sym.structs[a.name], a.args);
    }
  }

  /** Where recursion below `ty` is regular, no struct leads to another one written like it, and
      none to a declaration keyed by its written name, every copy of a value of `ty` is sound:
      self-recursion is allowed. */
  lemma OwnStructsCopySoundly(sym: Symbols, ty: Ty)
    requires CopyTables(sym) && Regular(sym, ty) && Unmistaken(sym, ty) && SeedsUnreached(sym, ty)
    ensures Tame(sym, ty) && CopiesSoundly(sym, ty)
  {
    RegularIsHonest(sym, ty);
    SeedsUnreachedAreHarmless(sym, ty);
    TameCopiesSoundly(sym, ty);
  }

  /** Where no struct below is generic the answer yes is right. */
  lemma NonGenericIsHonest(sym: Symbols, ty: Ty)
    requires WellFormed(sym) && NonGenericBelow(sym, ty)
    ensures Honest(sym, ty)
  {
    NonGenericIsRegular(sym, ty);
    RegularIsHonest(sym, ty);
  }
}
