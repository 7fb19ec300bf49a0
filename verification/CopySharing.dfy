/** What running any plan on any value makes and what it shares, exactly, over every table. */
module CopySharing {
  import opened Basics
  import opened SalvoTypes
  import opened CopyValues
  import opened CopyPlans

  // ---- the cells a plan leaves to be shared

  /** The cells of the parts of `v` that running `p` leaves as they are. */
  function SharedCells(sym: Symbols, p: CopyPlan, v: Val): set<nat>
    decreases v, (if p.Recur? then 2 else 1), 0
  {
    if Shares(p) then Cells(v)
    else if p.Recur? then
      var own := CopyPlanOf(sym, OwnTy(p.name, p.mutable));
      OwnPlanIsNotRecur(sym, OwnTy(p.name, p.mutable));
      if own.None? then {} else SharedCells(sym, own.value, v)
    else if v.Atom? then {}
    else SharedInSlots(sym, Through(p), v, |v.slots|)
  }

  function SharedInSlots(sym: Symbols, ps: SlotPlans, v: Val, n: nat): set<nat>
    requires v.Obj? && n <= |v.slots|
    decreases v, 0, n
  {
    if n == 0 then {}
    else
      var s := v.slots[n - 1];
      SharedInSlots(sym, ps, v, n - 1) +
      match SlotPlanOf(ps, s.tag)
      case None => Cells(s.val)
      case Some(p) => SharedCells(sym, p, s.val)
  }

  /** What one slot shares. */
  function SharedInSlot(sym: Symbols, ps: SlotPlans, s: Slot): set<nat> {
    match SlotPlanOf(ps, s.tag)
    case None => Cells(s.val)
    case Some(p) => SharedCells(sym, p, s.val)
  }

  lemma {:induction false} SharedSlotwise(sym: Symbols, ps: SlotPlans, v: Val, n: nat, id: nat)
    requires v.Obj? && n <= |v.slots|
    ensures id in SharedInSlots(sym, ps, v, n) <==> exists j :: 0 <= j < n && id in SharedInSlot(sym, ps, v.slots[j])
    decreases n
  {
    if n > 0 {
      SharedSlotwise(sym, ps, v, n - 1, id);
      assert id in SharedInSlot(sym, ps, v.slots[n - 1]) ==> 0 <= n - 1 < n;
    }
  }

  lemma {:induction false} CellsSlotwise(v: Val, n: nat, id: nat)
    requires v.Obj? && n <= |v.slots|
    ensures id in SlotCells(v, n) <==> exists j :: 0 <= j < n && id in Cells(v.slots[j].val)
    decreases n
  {
    if n > 0 {
      CellsSlotwise(v, n - 1, id);
      assert id in Cells(v.slots[n - 1].val) ==> 0 <= n - 1 < n;
    }
  }

  lemma {:induction false} SharedAreCells(sym: Symbols, p: CopyPlan, v: Val)
    ensures SharedCells(sym, p, v) <= Cells(v)
    decreases v, if p.Recur? then 2 else 1
  {
    if Shares(p) {
    } else if p.Recur? {
      var own := CopyPlanOf(sym, OwnTy(p.name, p.mutable));
      OwnPlanIsNotRecur(sym, OwnTy(p.name, p.mutable));
      if own.Some? { SharedAreCells(sym, own.value, v); }
    } else if v.Obj? {
      forall id | id in SharedCells(sym, p, v)
        ensures id in Cells(v)
      {
        SharedSlotwise(sym, Through(p), v, |v.slots|, id);
        var j :| 0 <= j < |v.slots| && id in SharedInSlot(sym, Through(p), v.slots[j]);
        if q :| SlotPlanOf(Through(p), v.slots[j].tag) == Some(q) { SharedAreCells(sym, q, v.slots[j].val); }
        CellsSlotwise(v, |v.slots|, id);
      }
    }
  }

  // ---- what a run makes

  /** `w` is `v` again, allocated up to `upto`, and holds of the cells before `next` just `shared`. */
  ghost predicate Copies(v: Val, next: nat, w: Val, upto: nat, shared: set<nat>) {
    && next <= upto && IdsBelow(w, upto) && SameShape(v, w)
    && forall id :: id in shared <==> id in Cells(w) && id < next
  }

  lemma CopiesItself(v: Val, next: nat)
    requires IdsBelow(v, next)
    ensures Copies(v, next, v, next, Cells(v))
  {
    SameShapeSelf(v);
    CellsAreOld(v, next);
  }

  /** A copy begun later and kept until later still. */
  lemma CopiesFrom(v: Val, next: nat, from: nat, w: Val, upto: nat, later: nat, shared: set<nat>)
    requires Copies(v, from, w, upto, shared) && next <= from && upto <= later
    requires IdsBelow(v, next) && shared <= Cells(v)
    ensures Copies(v, next, w, later, shared)
  {
    IdsBelowUp(w, upto, later);
    CellsAreOld(v, next);
  }

  ghost predicate SlotsCopied(sym: Symbols, ps: SlotPlans, v: Val, i: nat, next: nat, c: Copied<seq<Slot>>)
    requires v.Obj? && i <= |v.slots|
  {
    && next <= c.next && |c.val| == |v.slots| - i
    && forall j :: 0 <= j < |c.val| ==>
         && c.val[j].tag == v.slots[i + j].tag
         && Copies(v.slots[i + j].val, next, c.val[j].val, c.next, SharedInSlot(sym, ps, v.slots[i + j]))
  }

  lemma SlotsJoin(sym: Symbols, ps: SlotPlans, v: Val, i: nat, next: nat, head: Copied<Val>, rest: Copied<seq<Slot>>)
    requires v.Obj? && i < |v.slots| && IdsBelow(v, next)
    requires Copies(v.slots[i].val, next, head.val, head.next, SharedInSlot(sym, ps, v.slots[i]))
    requires SlotsCopied(sym, ps, v, i + 1, head.next, rest)
    ensures SlotsCopied(sym, ps, v, i, next, Copied([Slot(v.slots[i].tag, head.val)] + rest.val, rest.next))
  {
    var c := Copied([Slot(v.slots[i].tag, head.val)] + rest.val, rest.next);
    forall j | 0 <= j < |c.val|
      ensures c.val[j].tag == v.slots[i + j].tag
      ensures Copies(v.slots[i + j].val, next, c.val[j].val, c.next, SharedInSlot(sym, ps, v.slots[i + j]))
    {
      var s := v.slots[i + j];
      assert s in v.slots;
      SharedInOneSlot(sym, ps, s);
      if j == 0 {
        CopiesFrom(s.val, next, next, head.val, head.next, rest.next, SharedInSlot(sym, ps, s));
      } else {
        assert c.val[j] == rest.val[j - 1] && v.slots[i + 1 + (j - 1)] == s;
        CopiesFrom(s.val, next, head.next, c.val[j].val, rest.next, rest.next, SharedInSlot(sym, ps, s));
      }
    }
  }

  lemma SharedInOneSlot(sym: Symbols, ps: SlotPlans, s: Slot)
    ensures SharedInSlot(sym, ps, s) <= Cells(s.val)
  {
    if p :| SlotPlanOf(ps, s.tag) == Some(p) { SharedAreCells(sym, p, s.val); }
  }

  lemma {:induction false} SlotsAreCopied(sym: Symbols, fns: set<CopyFn>, ps: SlotPlans, v: Val, i: nat, next: nat)
    requires v.Obj? && i <= |v.slots| && IdsBelow(v, next)
    requires RunSlots(sym, fns, ps, v, i, next).Some?
    ensures SlotsCopied(sym, ps, v, i, next, RunSlots(sym, fns, ps, v, i, next).value)
    decreases v, 0, |v.slots| - i
  {
    if i < |v.slots| {
      var s := v.slots[i];
      assert s in v.slots;
      var head := Copied(s.val, next);
      match SlotPlanOf(ps, s.tag) {
        case None => CopiesItself(s.val, next);
        case Some(q) =>
          head := Run(sym, fns, q, s.val, next).value;
          RunCopies(sym, fns, q, s.val, next);
      }
      IdsBelowUp(v, next, head.next);
      SlotsAreCopied(sym, fns, ps, v, i + 1, head.next);
      SlotsJoin(sym, ps, v, i, next, head, RunSlots(sym, fns, ps, v, i + 1, head.next).value);
    }
  }

  /** A new object over copied slots. */
  lemma ObjectCopied(sym: Symbols, ps: SlotPlans, v: Val, next: nat, c: Copied<seq<Slot>>)
    requires v.Obj? && SlotsCopied(sym, ps, v, 0, next, c)
    ensures Copies(v, next, NewObject(v, c).val, NewObject(v, c).next, SharedInSlots(sym, ps, v, |v.slots|))
  {
    var w := NewObject(v, c).val;
    forall i | 0 <= i < |v.slots|
      ensures v.slots[i].tag == w.slots[i].tag && SameShape(v.slots[i].val, w.slots[i].val) && IdsBelow(w.slots[i].val, c.next + 1)
    {
      assert Copies(v.slots[0 + i].val, next, c.val[i].val, c.next, SharedInSlot(sym, ps, v.slots[0 + i]));
      IdsBelowUp(c.val[i].val, c.next, c.next + 1);
    }
    forall id: nat
      ensures id in SharedInSlots(sym, ps, v, |v.slots|) <==> id in Cells(w) && id < next
    {
      OldCellsOfObject(sym, ps, v, next, c, id);
    }
  }

  lemma OldCellsOfObject(sym: Symbols, ps: SlotPlans, v: Val, next: nat, c: Copied<seq<Slot>>, id: nat)
    requires v.Obj? && SlotsCopied(sym, ps, v, 0, next, c)
    ensures id in SharedInSlots(sym, ps, v, |v.slots|) <==> id in Cells(NewObject(v, c).val) && id < next
  {
    var w := NewObject(v, c).val;
    SharedSlotwise(sym, ps, v, |v.slots|, id);
    CellsSlotwise(w, |w.slots|, id);
    forall j | 0 <= j < |v.slots|
      ensures id in SharedInSlot(sym, ps, v.slots[j]) <==> id in Cells(w.slots[j].val) && id < next
    {
      assert Copies(v.slots[0 + j].val, next, c.val[j].val, c.next, SharedInSlot(sym, ps, v.slots[0 + j]));
    }
    if j :| 0 <= j < |v.slots| && id in SharedInSlot(sym, ps, v.slots[j]) { assert id in Cells(w.slots[j].val); }
    if id in SlotCells(w, |w.slots|) && id < next {
      var j :| 0 <= j < |w.slots| && id in Cells(w.slots[j].val);
      assert id in SharedInSlot(sym, ps, v.slots[j]);
    }
  }

  /** What running a plan that copies at least the outermost object is. */
  lemma RunMakesObject(sym: Symbols, fns: set<CopyFn>, p: CopyPlan, v: Val, next: nat)
    requires !Shares(p) && !p.Recur?
    ensures Run(sym, fns, p, v, next).Some? <==> v.Obj? && RunSlots(sym, fns, Through(p), v, 0, next).Some?
    ensures v.Obj? && RunSlots(sym, fns, Through(p), v, 0, next).Some? ==>
              Run(sym, fns, p, v, next) == Some(NewObject(v, RunSlots(sym, fns, Through(p), v, 0, next).value))
  {}

  lemma SharedOfObject(sym: Symbols, p: CopyPlan, v: Val)
    requires !Shares(p) && !p.Recur? && v.Obj?
    ensures SharedCells(sym, p, v) == SharedInSlots(sym, Through(p), v, |v.slots|)
  {}

  /** Calling a struct's copy function is running the struct's own plan. */
  lemma RecurRunsOwn(sym: Symbols, fns: set<CopyFn>, p: CopyPlan, v: Val, next: nat)
    requires p.Recur?
    ensures var own := OwnPlan(sym, CopyFn(p.name, p.mutable));
      Run(sym, fns, p, v, next) ==
        if CopyFn(p.name, p.mutable) !in fns || own.None? then None else Run(sym, fns, own.value, v, next)
  {}

  lemma RecurSharesOwn(sym: Symbols, p: CopyPlan, v: Val)
    requires p.Recur?
    ensures var own := OwnPlan(sym, CopyFn(p.name, p.mutable));
      SharedCells(sym, p, v) == if own.None? then {} else SharedCells(sym, own.value, v)
  {}

  lemma {:induction false} RunCopies(sym: Symbols, fns: set<CopyFn>, p: CopyPlan, v: Val, next: nat)
    requires IdsBelow(v, next) && Run(sym, fns, p, v, next).Some?
    ensures var c := Run(sym, fns, p, v, next).value; Copies(v, next, c.val, c.next, SharedCells(sym, p, v))
    decreases v, (if p.Recur? then 3 else 2), 0
  {
    if Shares(p) {
      CopiesItself(v, next);
    } else if p.Recur? {
      OwnPlanIsNotRecur(sym, OwnTy(p.name, p.mutable));
      RecurRunsOwn(sym, fns, p, v, next);
      RecurSharesOwn(sym, p, v);
      RunCopies(sym, fns, CopyPlanOf(sym, OwnTy(p.name, p.mutable)).value, v, next);
    } else {
      RunMakesObject(sym, fns, p, v, next);
      ObjectIsCopied(sym, fns, p, v, next);
    }
  }

  lemma {:induction false} ObjectIsCopied(sym: Symbols, fns: set<CopyFn>, p: CopyPlan, v: Val, next: nat)
    requires IdsBelow(v, next) && !Shares(p) && !p.Recur? && v.Obj?
    requires RunSlots(sym, fns, Through(p), v, 0, next).Some?
    ensures var w := NewObject(v, RunSlots(sym, fns, Through(p), v, 0, next).value);
      Copies(v, next, w.val, w.next, SharedCells(sym, p, v))
    decreases v, 1, 0
  {
    var c := RunSlots(sym, fns, Through(p), v, 0, next).value;
    var w := NewObject(v, c);
    SlotsAreCopied(sym, fns, Through(p), v, 0, next);
    ObjectCopied(sym, Through(p), v, next, c);
    assert Copies(v, next, w.val, w.next, SharedInSlots(sym, Through(p), v, |v.slots|));
    SharedOfObject(sym, p, v);
  }

  /** Whatever the table, the plan and the value: a run that ends gives an equal value, and the
      cells it has in common with the original are exactly those of the parts the plan leaves. */
  lemma CopySharesExactly(sym: Symbols, fns: set<CopyFn>, p: CopyPlan, v: Val, next: nat)
    requires IdsBelow(v, next) && Run(sym, fns, p, v, next).Some?
    ensures var copy := Run(sym, fns, p, v, next).value.val;
      SameShape(v, copy) && Cells(v) * Cells(copy) == SharedCells(sym, p, v)
  {
    RunCopies(sym, fns, p, v, next);
    CellsAreOld(v, next);
    SharedAreCells(sym, p, v);
  }

  // ---- types do not see identities

  lemma {:induction false} ShapeKeepsNoCells(v: Val, w: Val)
    requires SameShape(v, w) && NoCells(v)
    ensures NoCells(w)
  {
    if v.Obj? {
      forall s | s in w.slots
        ensures NoCells(s.val)
      {
        var i :| 0 <= i < |w.slots| && w.slots[i] == s;
        assert v.slots[i] in v.slots;
        ShapeKeepsNoCells(v.slots[i].val, s.val);
      }
    }
  }

  /** What is asked of a value's type is asked of its slots', or of the value's at a part of the type. */
  lemma {:induction false} ShapeKeepsType(sym: Symbols, ty: Ty, isMut: bool, v: Val, w: Val, seen: set<TypeName>)
    requires SameShape(v, w) && HasType(sym, ty, isMut, v, seen)
    ensures HasType(sym, ty, isMut, w, seen)
    decreases v, |sym.aliases.Keys - seen|, ty, 1
  {
    if ty.Named? {
      ShapeKeepsNamed(sym, ty, isMut, v, w, seen);
    } else if ty.Qualified? {
      ShapeKeepsType(sym, ty.base, isMut || Mut in ty.quals, v, w, seen);
    } else if ty.Union? {
      var a :| a in ty.arms && HasType(sym, a, isMut, v, seen);
      ShapeKeepsType(sym, a, isMut, v, w, seen);
    } else if ty.Tuple? {
      forall i | 0 <= i < |ty.elems|
        ensures HasType(sym, ty.elems[i], false, w.slots[i].val, {})
      {
        ShapeKeepsType(sym, ty.elems[i], false, v.slots[i].val, w.slots[i].val, {});
      }
    } else if ty.ArrayOf? {
      forall s | s in w.slots
        ensures HasType(sym, ty.elem, false, s.val, {})
      {
        var i :| 0 <= i < |w.slots| && w.slots[i] == s;
        assert v.slots[i] in v.slots;
        ShapeKeepsType(sym, ty.elem, false, v.slots[i].val, s.val, {});
      }
    } else if NoCells(v) {
      ShapeKeepsNoCells(v, w);
    }
  }

  lemma {:induction false} ShapeKeepsNamed(sym: Symbols, ty: Ty, isMut: bool, v: Val, w: Val, seen: set<TypeName>)
    requires ty.Named? && SameShape(v, w) && HasType(sym, ty, isMut, v, seen)
    ensures HasType(sym, ty, isMut, w, seen)
    decreases v, |sym.aliases.Keys - seen|, ty, 0
  {
    if IsScalar(ty.name) {
      if !(ty.name == Str && isMut) { ShapeKeepsNoCells(v, w); }
    } else if IsPlatform(sym, ty.name) {
      forall i | 0 <= i < |v.slots|
        ensures PlatformSlot(sym, ty, w.slots[i], w)
      {
        assert v.slots[i] in v.slots && PlatformSlot(sym, ty, v.slots[i], v);
        ShapeKeepsType(sym, SlotTy(sym, ty, v.slots[i], v), false, v.slots[i].val, w.slots[i].val, {});
        SlotRetyped(sym, ty, v, v.slots[i], w, w.slots[i]);
      }
    } else if ty.name in sym.aliases {
      assert AliasesLeft(sym, seen, ty.name);
      ShapeKeepsType(sym, AliasTarget(sym, ty.name), isMut, v, w, seen + {ty.name});
    } else if ty.name in sym.structs {
      var d := sym.structs[ty.name];
      forall i | 0 <= i < |d.fields|
        ensures FieldTyped(sym, d, ty.args, isMut, w, i)
      {
        assert FieldTyped(sym, d, ty.args, isMut, v, i);
        ShapeKeepsType(sym, FieldTy(d, ty.args, isMut, i), false, v.slots[i].val, w.slots[i].val, {});
      }
    }
  }
}
