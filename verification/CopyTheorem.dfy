/** The soundness theorem of copy plans, by induction on the value a plan runs on: a plan made for
    a type that can be trusted leaves no cell to be shared. */
module CopyTheorem {
  import opened Basics
  import opened SalvoTypes
  import opened Immutable
  import opened CopyValues
  import opened CopyPlans
  import opened CopySharing
  import opened CopySoundness

  /** The situation a plan runs in: made for `ty` inside the copies in `copying`, over a table
      that can be trusted below `ty`, on a value of `ty`. */
  ghost predicate Ready(sym: Symbols, ty: Ty, copying: seq<TypeName>, p: CopyPlan, v: Val) {
    && CopyTables(sym) && Tame(sym, ty) && NoneMistaken(sym, copying, ty)
    && Plan(sym, ty, copying) == Some(p) && HasType(sym, ty, false, v, {})
  }

  ghost predicate MadeFor(sym: Symbols, p: CopyPlan, v: Val) {
    exists ty, copying :: Ready(sym, ty, copying, p, v)
  }

  /** What one slot needs: its plan is for its type, or it is shared and holds no cell. */
  ghost predicate SlotReady(sym: Symbols, ps: SlotPlans, s: Slot) {
    match SlotPlanOf(ps, s.tag)
    case None => NoCells(s.val)
    case Some(q) => MadeFor(sym, q, s.val)
  }

  // ---- the struct found by its written name

  /** The first struct of `copying` written like `name` stands at `i` and is `name` itself. */
  predicate FirstAlike(copying: seq<TypeName>, name: TypeName, i: nat) {
    i < |copying| && copying[i] == name && forall j :: 0 <= j < i ==> !SamePlain(copying[j], name)
  }

  lemma FirstAlikeLater(copying: seq<TypeName>, name: TypeName, i: nat)
    requires copying != []
    ensures FirstAlike(copying, name, i + 1) <==> !SamePlain(copying[0], name) && FirstAlike(copying[1..], name, i)
  {
    if FirstAlike(copying[1..], name, i) && !SamePlain(copying[0], name) {
      forall j | 0 <= j < i + 1 ensures !SamePlain(copying[j], name) { if j > 0 { assert copying[j] == copying[1..][j - 1]; } }
    }
  }

  /** The plain-name search answers the struct itself exactly when the first struct being copied
      that is written like it is that struct. */
  lemma {:induction false} OuterIsItself(copying: seq<TypeName>, name: TypeName)
    ensures FindOuter(copying, name) == Some(name) <==> exists i :: FirstAlike(copying, name, i)
    decreases |copying|
  {
    if copying != [] {
      OuterIsItself(copying[1..], name);
      if copying[0] == name {
        assert FirstAlike(copying, name, 0);
      } else {
        if i: nat :| FirstAlike(copying, name, i) { FirstAlikeLater(copying, name, i - 1); }
        if i: nat :| FirstAlike(copying[1..], name, i) { FirstAlikeLater(copying, name, i); }
      }
    }
  }

  // ---- plans that share

  lemma IdentityPlanIs(sym: Symbols, ty: Ty, copying: seq<TypeName>)
    requires Plan(sym, ty, copying) == Some(Identity)
    ensures IsImmutable(sym, ty, []) || (IsStruct(sym, StripQuals(ty)) && sym.structs[StripQuals(ty).name].fields == [])
  {}

  lemma IdentityHasNoCells(sym: Symbols, ty: Ty, copying: seq<TypeName>, v: Val)
    requires Ready(sym, ty, copying, Identity, v)
    ensures NoCells(v)
  {
    IdentityPlanIs(sym, ty, copying);
    if IsImmutable(sym, ty, []) {
      ImmutableHasNoCells(sym, ty, v);
    } else {
      StrippedType(sym, ty, v);
    }
  }

  /** What a list's or deque's plan says. */
  lemma ElementsPlanIs(sym: Symbols, ty: Ty, copying: seq<TypeName>, p: CopyPlan)
    requires StdTypes(sym) && Plan(sym, ty, copying) == Some(p) && p.Elements?
    ensures var base := StripQuals(ty);
      && base.Named? && (base.name == List || base.name == Deque) && IsPlatform(sym, base.name) && |base.args| == 1
      && p.deque == (base.name == Deque) && p.mutable == HasMut(ty)
      && Plan(sym, base.args[0], copying) == Some(p.elem)
  {}

  lemma TamePartReady(sym: Symbols, ty: Ty, copying: seq<TypeName>, part: Ty)
    requires Tame(sym, ty) && NoneMistaken(sym, copying, ty) && part in Parts(sym, StripQuals(ty))
    ensures Tame(sym, part) && NoneMistaken(sym, copying, part)
  {
    TameStripped(sym, copying, ty);
    TamePart(sym, StripQuals(ty), part);
    ReachesPart(sym, StripQuals(ty), part);
    NoneMistakenBelow(sym, copying, StripQuals(ty), part);
  }

  /** Each element is ready for the element's plan. */
  lemma ElementsReady(sym: Symbols, ty: Ty, copying: seq<TypeName>, p: CopyPlan, v: Val)
    requires Ready(sym, ty, copying, p, v) && p.Elements?
    ensures StripQuals(ty).Named? && |StripQuals(ty).args| == 1 && v.Obj? && (v.mutable ==> p.deque || p.mutable)
    ensures forall s :: s in v.slots ==> Ready(sym, StripQuals(ty).args[0], copying, p.elem, s.val)
  {
    var base := StripQuals(ty);
    ElementsPlanIs(sym, ty, copying, p);
    StrippedType(sym, ty, v);
    TamePartReady(sym, ty, copying, base.args[0]);
    forall s | s in v.slots
      ensures HasType(sym, base.args[0], false, s.val, {})
    {
      assert PlatformSlot(sym, base, s, v);
      var a := SlotTy(sym, base, s, v);
      assert a == base.args[0];
    }
  }

  lemma {:induction false} SharingHasNoCells(sym: Symbols, ty: Ty, copying: seq<TypeName>, p: CopyPlan, v: Val)
    requires Ready(sym, ty, copying, p, v) && Shares(p)
    ensures NoCells(v)
    decreases v
  {
    if p.Identity? {
      IdentityHasNoCells(sym, ty, copying, v);
    } else {
      ElementsReady(sym, ty, copying, p, v);
      forall s | s in v.slots ensures NoCells(s.val) {
        SharingHasNoCells(sym, StripQuals(ty).args[0], copying, p.elem, s.val);
      }
    }
  }

  lemma SharedPlanHasNoCells(sym: Symbols, p: CopyPlan, v: Val)
    requires MadeFor(sym, p, v) && Shares(p)
    ensures NoCells(v)
  {
    var ty, copying :| Ready(sym, ty, copying, p, v);
    SharingHasNoCells(sym, ty, copying, p, v);
  }

  lemma {:induction false} NoCellsIsEmpty(v: Val)
    requires NoCells(v)
    ensures Cells(v) == {}
  {
    if v.Obj? {
      forall id ensures id !in SlotCells(v, |v.slots|) {
        CellsSlotwise(v, |v.slots|, id);
        if j :| 0 <= j < |v.slots| && id in Cells(v.slots[j].val) {
          assert v.slots[j] in v.slots;
          NoCellsIsEmpty(v.slots[j].val);
        }
      }
    }
  }

  // ---- plans that only renew the object

  /** A platform value without type arguments holds no references. */
  lemma NoArgsNoCells(sym: Symbols, name: TypeName, isMut: bool, v: Val)
    requires !IsScalar(name) && IsPlatform(sym, name) && HasType(sym, Named(name, []), isMut, v, {})
    ensures forall s :: s in v.slots ==> NoCells(s.val)
  {
    var ty := Named(name, []);
    assert forall s: Slot :: s.val < v ==> !PlatformSlot(sym, ty, s, v);
  }

  /** What the plans that only renew the object are for. */
  lemma ShallowPlanIs(sym: Symbols, ty: Ty, copying: seq<TypeName>, p: CopyPlan)
    requires Plan(sym, ty, copying) == Some(p)
    ensures p.StrBuilder? ==> HasMut(ty) && StripQuals(ty).Named? && StripQuals(ty).name == Str
    ensures p.Platform? ==> StripQuals(ty).Named? && StripQuals(ty).args == [] && IsPlatform(sym, StripQuals(ty).name)
    ensures p.ArrayCopy? ==> StripQuals(ty).ArrayOf? && IsImmutable(sym, StripQuals(ty).elem, [])
  {}

  /** A builder, a platform value or an array: nothing below the object itself is a cell. */
  lemma ShallowReady(sym: Symbols, ty: Ty, copying: seq<TypeName>, p: CopyPlan, v: Val)
    requires Ready(sym, ty, copying, p, v) && (p.StrBuilder? || p.Platform? || p.ArrayCopy?)
    ensures v.Obj? ==> forall s :: s in v.slots ==> NoCells(s.val)
  {
    var base := StripQuals(ty);
    ShallowPlanIs(sym, ty, copying, p);
    StrippedType(sym, ty, v);
    if p.Platform? {
      if !IsScalar(base.name) { NoArgsNoCells(sym, base.name, HasMut(ty), v); }
    } else if p.ArrayCopy? {
      TamePartReady(sym, ty, copying, base.elem);
      forall s | s in v.slots ensures NoCells(s.val) {
        ImmutableHasNoCells(sym, base.elem, s.val);
      }
    }
  }

  // ---- keyed collections

  /** What a keyed collection's plan says. */
  lemma KeyedPlanIs(sym: Symbols, ty: Ty, copying: seq<TypeName>, p: CopyPlan)
    requires Plan(sym, ty, copying) == Some(p) && p.Keyed?
    ensures StripQuals(ty).Named? && IsKeyed(StripQuals(ty).name) && IsPlatform(sym, StripQuals(ty).name)
    ensures var ts := TypesOf(StripQuals(ty).args);
      && ts != [] && IsImmutable(sym, ts[0], [])
      && (|ts| > 1 && IsMap(StripQuals(ty).name) ==> Plan(sym, ts[1], copying) == Some(p.value))
  {}

  lemma EntryReady(sym: Symbols, ty: Ty, copying: seq<TypeName>, p: CopyPlan, v: Val, s: Slot)
    requires Ready(sym, ty, copying, p, v) && p.Keyed? && v.Obj? && s in v.slots
    ensures SlotReady(sym, Values(p.value), s)
    ensures s.tag == EntryKey || s.tag == EntryValue
  {
    KeyedPlanIs(sym, ty, copying, p);
    StrippedType(sym, ty, v);
    var base := StripQuals(ty);
    assert PlatformSlot(sym, base, s, v);
    var a := SlotTy(sym, base, s, v);
    TamePartReady(sym, ty, copying, a);
    if s.tag == EntryKey {
      ImmutableHasNoCells(sym, a, s.val);
    } else {
      assert Ready(sym, a, copying, p.value, s.val);
    }
  }

  // ---- structs

  /** The fields from `i` on: those before have no plan, and field `k` has its own or none. */
  lemma {:induction false} StructPlanFields(sym: Symbols, s: StructDecl, args: seq<Ty>, isMut: bool, copying: seq<TypeName>, i: nat, fps: seq<FieldPlan>, k: nat)
    requires i <= |s.fields| && k < |s.fields| && DistinctFields(s)
    requires StructPlan(sym, s, args, isMut, copying, i) == Some(fps)
    ensures FieldPlanOf(fps, s.fields[k].name) ==
      if k < i || IsImmutable(sym, FieldTy(s, args, isMut, k), [PlainKey(s.written)]) then None
      else Plan(sym, FieldTy(s, args, isMut, k), copying)
    ensures k >= i && !IsImmutable(sym, FieldTy(s, args, isMut, k), [PlainKey(s.written)]) ==> FieldPlanOf(fps, s.fields[k].name).Some?
    decreases |s.fields| - i
  {
    if i < |s.fields| {
      var rest := StructPlan(sym, s, args, isMut, copying, i + 1).value;
      StructPlanFields(sym, s, args, isMut, copying, i + 1, rest, k);
      if !IsImmutable(sym, FieldTy(s, args, isMut, i), [PlainKey(s.written)]) {
        assert fps[0].field == s.fields[i].name && fps[1..] == rest;
      }
    }
  }

  /** Whether a struct's plan leaves a field to be shared. */
  predicate LeftOut(sym: Symbols, s: StructDecl, args: seq<Ty>, isMut: bool, k: nat)
    requires k < |s.fields|
  {
    IsImmutable(sym, FieldTy(s, args, isMut, k), [PlainKey(s.written)])
  }

  /** The slot of field `k`, of the field's type and under the field's plan if it has one. */
  lemma FieldSlot(sym: Symbols, name: TypeName, args: seq<Ty>, isMut: bool, copying: seq<TypeName>, fps: seq<FieldPlan>, v: Val, k: nat)
    requires CopyTables(sym) && name in sym.structs && k < |sym.structs[name].fields|
    requires StructPlan(sym, sym.structs[name], args, isMut, copying, 0) == Some(fps)
    requires HasType(sym, Named(name, args), isMut, v, {})
    ensures v.Obj? && |v.slots| == |sym.structs[name].fields|
    ensures HasType(sym, FieldTy(sym.structs[name], args, isMut, k), false, v.slots[k].val, {})
    ensures SlotPlanOf(Fields(fps), v.slots[k].tag) ==
      if LeftOut(sym, sym.structs[name], args, isMut, k) then None
      else Plan(sym, FieldTy(sym.structs[name], args, isMut, k), copying)
    ensures !LeftOut(sym, sym.structs[name], args, isMut, k) ==> SlotPlanOf(Fields(fps), v.slots[k].tag).Some?
  {
    StructPlanFields(sym, sym.structs[name], args, isMut, copying, 0, fps, k);
    assert FieldTyped(sym, sym.structs[name], args, isMut, v, k);
  }

  lemma FieldReady(sym: Symbols, name: TypeName, args: seq<Ty>, isMut: bool, copying: seq<TypeName>, fps: seq<FieldPlan>, v: Val, k: nat)
    requires CopyTables(sym) && Tame(sym, Named(name, args)) && NoneMistaken(sym, copying, Named(name, args))
    requires name in sym.structs && k < |sym.structs[name].fields|
    requires StructPlan(sym, sym.structs[name], args, isMut, copying, 0) == Some(fps)
    requires HasType(sym, Named(name, args), isMut, v, {})
    ensures v.Obj? && k < |v.slots| && SlotReady(sym, Fields(fps), v.slots[k])
  {
    var s := sym.structs[name];
    var fty := FieldTy(s, args, isMut, k);
    FieldSlot(sym, name, args, isMut, copying, fps, v, k);
    TameField(sym, name, args, isMut, copying, k);
    if LeftOut(sym, s, args, isMut, k) {
      ReachesSelf(sym, Named(name, args));
      assert fty == PlainFieldTy(s, args, k);
      ImmutableHasNoCells(sym, fty, v.slots[k].val);
    } else {
      assert Ready(sym, fty, copying, Plan(sym, fty, copying).value, v.slots[k].val);
    }
  }

  /** A struct's plan is the plan of its fields inside one more copy. */
  lemma StructPlanIs(sym: Symbols, ty: Ty, copying: seq<TypeName>, p: CopyPlan)
    requires Plan(sym, ty, copying) == Some(p) && p.StructCopy?
    ensures var base := StripQuals(ty);
      && base.Named? && base.name in sym.structs && sym.structs[base.name].fields != []
      && StructPlan(sym, sym.structs[base.name], base.args, HasMut(ty), copying + [base.name], 0) == Some(p.fields)
  {}

  lemma StructSlotsReady(sym: Symbols, ty: Ty, copying: seq<TypeName>, p: CopyPlan, v: Val, j: nat)
    requires Ready(sym, ty, copying, p, v) && p.StructCopy? && v.Obj? && j < |v.slots|
    ensures SlotReady(sym, Fields(p.fields), v.slots[j])
  {
    var base := StripQuals(ty);
    StructPlanIs(sym, ty, copying, p);
    StrippedType(sym, ty, v);
    TameStripped(sym, copying, ty);
    NoneMistakenInside(sym, copying, base);
    FieldSlot(sym, base.name, base.args, HasMut(ty), copying + [base.name], p.fields, v, 0);
    FieldReady(sym, base.name, base.args, HasMut(ty), copying + [base.name], p.fields, v, j);
  }

  lemma RecurPlanIs(sym: Symbols, ty: Ty, copying: seq<TypeName>, p: CopyPlan)
    requires WellFormed(sym) && Plan(sym, ty, copying) == Some(p) && p.Recur?
    ensures var base := StripQuals(ty);
      && base.Named? && base.name in sym.structs && IsDecl(sym, base) && sym.structs[base.name].generics == []
      && FindOuter(copying, base.name) == Some(p.name) && p.mutable == HasMut(ty)
  {}

  /** A struct met again inside its own copy: the copy function called is its own, and is for the
      same values. */
  lemma RecurReady(sym: Symbols, ty: Ty, copying: seq<TypeName>, p: CopyPlan, v: Val)
    requires Ready(sym, ty, copying, p, v) && p.Recur?
    ensures p.name == StripQuals(ty).name
    ensures var own := CopyPlanOf(sym, OwnTy(p.name, p.mutable));
      own.Some? ==> Ready(sym, OwnTy(p.name, p.mutable), [], own.value, v)
  {
    var base := StripQuals(ty);
    RecurPlanIs(sym, ty, copying, p);
    StrippedType(sym, ty, v);
    TameStripped(sym, copying, ty);
    ReachesSelf(sym, base);
    assert p.name == base.name;
    TameOwn(sym, base.name, base.args, p.mutable);
    OwnTypeSame(sym, base.name, base.args, p.mutable, v);
  }

  // ---- any plan

  lemma SlotsAreReady(sym: Symbols, ty: Ty, copying: seq<TypeName>, p: CopyPlan, v: Val, j: nat)
    requires Ready(sym, ty, copying, p, v) && !Shares(p) && !p.Recur? && v.Obj? && j < |v.slots|
    ensures SlotReady(sym, Through(p), v.slots[j])
  {
    var s := v.slots[j];
    assert s in v.slots;
    if p.Elements? {
      ElementsReady(sym, ty, copying, p, v);
      assert MadeFor(sym, p.elem, s.val);
      if Shares(p.elem) { SharedPlanHasNoCells(sym, p.elem, s.val); }
    } else if p.Keyed? {
      EntryReady(sym, ty, copying, p, v, s);
      if Shares(p.value) && s.tag == EntryValue { SharedPlanHasNoCells(sym, p.value, s.val); }
    } else if p.StructCopy? {
      StructSlotsReady(sym, ty, copying, p, v, j);
    } else {
      ShallowReady(sym, ty, copying, p, v);
    }
  }

  /** A plan made for a type that can be trusted, on a value of the type, leaves no cell to be
      shared. */
  lemma {:induction false} NothingIsShared(sym: Symbols, p: CopyPlan, v: Val)
    requires MadeFor(sym, p, v)
    ensures SharedCells(sym, p, v) == {}
    decreases v, if p.Recur? then 2 else 1
  {
    var ty, copying :| Ready(sym, ty, copying, p, v);
    if Shares(p) {
      SharingHasNoCells(sym, ty, copying, p, v);
      NoCellsIsEmpty(v);
    } else if p.Recur? {
      var own := CopyPlanOf(sym, OwnTy(p.name, p.mutable));
      RecurReady(sym, ty, copying, p, v);
      RecurSharesOwn(sym, p, v);
      OwnPlanIsNotRecur(sym, OwnTy(p.name, p.mutable));
      if own.Some? { NothingIsShared(sym, own.value, v); }
    } else if v.Obj? {
      SharedOfObject(sym, p, v);
      forall j | 0 <= j < |v.slots|
        ensures SharedInSlot(sym, Through(p), v.slots[j]) == {}
      {
        SlotsAreReady(sym, ty, copying, p, v, j);
        SlotSharesNothing(sym, Through(p), v, j);
      }
      NoSlotShares(sym, Through(p), v);
    }
  }

  lemma {:induction false} SlotSharesNothing(sym: Symbols, ps: SlotPlans, v: Val, j: nat)
    requires v.Obj? && j < |v.slots| && SlotReady(sym, ps, v.slots[j])
    ensures SharedInSlot(sym, ps, v.slots[j]) == {}
    decreases v, 0
  {
    match SlotPlanOf(ps, v.slots[j].tag) {
      case None => NoCellsIsEmpty(v.slots[j].val);
      case Some(q) => NothingIsShared(sym, q, v.slots[j].val);
    }
  }

  lemma NoSlotShares(sym: Symbols, ps: SlotPlans, v: Val)
    requires v.Obj? && forall j :: 0 <= j < |v.slots| ==> SharedInSlot(sym, ps, v.slots[j]) == {}
    ensures SharedInSlots(sym, ps, v, |v.slots|) == {}
  {
    forall id ensures id !in SharedInSlots(sym, ps, v, |v.slots|) {
      SharedSlotwise(sym, ps, v, |v.slots|, id);
    }
  }
}
