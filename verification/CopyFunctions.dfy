/** The copy functions a run of a plan calls: a run ends exactly where each of them was generated. */
module CopyFunctions {
  import opened Basics
  import opened SalvoTypes
  import opened Immutable
  import opened CopyValues
  import opened CopyPlans
  import opened CopySharing
  import opened CopySoundness
  import opened CopyTheorem
  import opened CopySafety

  /** The copy functions that running `p` on `v` arrives at. */
  function Calls(sym: Symbols, p: CopyPlan, v: Val): set<CopyFn>
    decreases v, (if p.Recur? then 2 else 1), 0
  {
    if Shares(p) then {}
    else if p.Recur? then
      var own := OwnPlan(sym, CopyFn(p.name, p.mutable));
      OwnPlanIsNotRecur(sym, OwnTy(p.name, p.mutable));
      {CopyFn(p.name, p.mutable)} + if own.None? then {} else Calls(sym, own.value, v)
    else if v.Atom? then {}
    else SlotsCall(sym, Through(p), v, 0)
  }

  function SlotsCall(sym: Symbols, ps: SlotPlans, v: Val, i: nat): set<CopyFn>
    requires v.Obj? && i <= |v.slots|
    decreases v, 0, |v.slots| - i
  {
    if i == |v.slots| then {}
    else
      (match SlotPlanOf(ps, v.slots[i].tag)
       case None => {}
       case Some(q) => Calls(sym, q, v.slots[i].val))
      + SlotsCall(sym, ps, v, i + 1)
  }

  /** What one slot's plan calls, the run calls. */
  lemma {:induction false} SlotCalls(sym: Symbols, ps: SlotPlans, v: Val, i: nat, j: nat, q: CopyPlan, f: CopyFn)
    requires v.Obj? && i <= j < |v.slots| && SlotPlanOf(ps, v.slots[j].tag) == Some(q) && f in Calls(sym, q, v.slots[j].val)
    ensures f in SlotsCall(sym, ps, v, i)
    decreases j - i
  {
    if i < j { SlotCalls(sym, ps, v, i + 1, j, q, f); }
  }

  /** Every function called was generated, so has a plan. */
  ghost predicate AllThere(sym: Symbols, fns: set<CopyFn>, called: set<CopyFn>) {
    forall f :: f in called ==> f in fns && OwnPlan(sym, f).Some?
  }

  // ---- a run ends exactly where what it calls is there

  /** A scalar's name has no `copy` of its own. */
  lemma PlatformIsNoScalar(sym: Symbols, ty: Ty, copying: seq<TypeName>, p: CopyPlan)
    requires CopyTables(sym) && Plan(sym, ty, copying) == Some(p) && p.Platform?
    ensures StripQuals(ty).Named? && !IsScalar(StripQuals(ty).name)
  {
    assert IsImmutable(sym, Named(Str, []), []);
  }

  lemma PlanIsForObjects(sym: Symbols, ty: Ty, copying: seq<TypeName>, p: CopyPlan, v: Val)
    requires Ready(sym, ty, copying, p, v) && !p.Identity? && !p.Recur?
    ensures v.Obj?
  {
    StrippedType(sym, ty, v);
    if p.Platform? { PlatformIsNoScalar(sym, ty, copying, p); }
  }

  lemma RecurCalls(sym: Symbols, p: CopyPlan, v: Val)
    requires p.Recur?
    ensures var own := OwnPlan(sym, CopyFn(p.name, p.mutable));
      Calls(sym, p, v) == {CopyFn(p.name, p.mutable)} + if own.None? then {} else Calls(sym, own.value, v)
  {}

  lemma ObjectCalls(sym: Symbols, p: CopyPlan, v: Val)
    requires !Shares(p) && !p.Recur? && v.Obj?
    ensures Calls(sym, p, v) == SlotsCall(sym, Through(p), v, 0)
  {}

  /** The copy function called has a plan for the same value. */
  lemma OwnIsMadeFor(sym: Symbols, p: CopyPlan, v: Val)
    requires MadeFor(sym, p, v) && p.Recur?
    ensures var own := OwnPlan(sym, CopyFn(p.name, p.mutable)); own.Some? ==> MadeFor(sym, own.value, v)
  {
    var ty, copying :| Ready(sym, ty, copying, p, v);
    RecurReady(sym, ty, copying, p, v);
  }

  lemma SlotsAreMadeFor(sym: Symbols, p: CopyPlan, v: Val)
    requires MadeFor(sym, p, v) && !Shares(p) && !p.Recur?
    ensures v.Obj? && forall j :: 0 <= j < |v.slots| ==> SlotReady(sym, Through(p), v.slots[j])
  {
    var ty, copying :| Ready(sym, ty, copying, p, v);
    PlanIsForObjects(sym, ty, copying, p, v);
    forall j | 0 <= j < |v.slots| ensures SlotReady(sym, Through(p), v.slots[j]) {
      SlotsAreReady(sym, ty, copying, p, v, j);
    }
  }

  /** A plan made for a type that can be trusted runs to its end on a value of the type if and
      only if every copy function the run arrives at was generated. */
  lemma {:induction false} RunEndsExactly(sym: Symbols, fns: set<CopyFn>, p: CopyPlan, v: Val, next: nat)
    requires MadeFor(sym, p, v)
    ensures Run(sym, fns, p, v, next).Some? <==> AllThere(sym, fns, Calls(sym, p, v))
    decreases v, (if p.Recur? then 2 else 1), 0
  {
    if Shares(p) {
    } else if p.Recur? {
      var own := OwnPlan(sym, CopyFn(p.name, p.mutable));
      OwnPlanIsNotRecur(sym, OwnTy(p.name, p.mutable));
      OwnIsMadeFor(sym, p, v);
      RecurRunsOwn(sym, fns, p, v, next);
      RecurCalls(sym, p, v);
      if own.Some? { RunEndsExactly(sym, fns, own.value, v, next); }
    } else {
      SlotsAreMadeFor(sym, p, v);
      RunMakesObject(sym, fns, p, v, next);
      ObjectCalls(sym, p, v);
      SlotsEndExactly(sym, fns, Through(p), v, 0, next);
    }
  }

  lemma {:induction false} SlotsEndExactly(sym: Symbols, fns: set<CopyFn>, ps: SlotPlans, v: Val, i: nat, next: nat)
    requires v.Obj? && i <= |v.slots|
    requires forall j :: 0 <= j < |v.slots| ==> SlotReady(sym, ps, v.slots[j])
    ensures RunSlots(sym, fns, ps, v, i, next).Some? <==> AllThere(sym, fns, SlotsCall(sym, ps, v, i))
    decreases v, 0, |v.slots| - i
  {
    if i < |v.slots| {
      var s := v.slots[i];
      assert SlotReady(sym, ps, s);
      match SlotPlanOf(ps, s.tag) {
        case None =>
          SlotsEndExactly(sym, fns, ps, v, i + 1, next);
        case Some(q) =>
          RunEndsExactly(sym, fns, q, s.val, next);
          var head := Run(sym, fns, q, s.val, next);
          if head.Some? { SlotsEndExactly(sym, fns, ps, v, i + 1, head.value.next); }
      }
    }
  }

  // ---- what a plan needs, whatever the value

  /** The copy functions a plan names. */
  function Mentions(p: CopyPlan): set<CopyFn> {
    match p
    case Recur(name, isMut) => {CopyFn(name, isMut)}
    case Elements(_, _, elem) => Mentions(elem)
    case Keyed(value) => Mentions(value)
    case StructCopy(_, fields) => FieldsMention(fields)
    case _ => {}
  }

  function FieldsMention(fields: seq<FieldPlan>): set<CopyFn> {
    if fields == [] then {} else Mentions(fields[0].plan) + FieldsMention(fields[1..])
  }

  /** `f`'s own plan names `g`. */
  predicate Leads(sym: Symbols, f: CopyFn, g: CopyFn) {
    OwnPlan(sym, f).Some? && g in Mentions(OwnPlan(sym, f).value)
  }

  /** Each function of a chain is named by the plan of the one before. */
  ghost predicate Chain(sym: Symbols, p: CopyPlan, c: seq<CopyFn>) {
    c != [] && c[0] in Mentions(p) && forall i :: 0 <= i < |c| - 1 ==> Leads(sym, c[i], c[i + 1])
  }

  /** The copy functions that copies of some values by `p` may come to call. */
  ghost predicate Needed(sym: Symbols, p: CopyPlan, f: CopyFn) {
    exists c :: Chain(sym, p, c) && c[|c| - 1] == f
  }

  lemma NeededThrough(sym: Symbols, p: CopyPlan, q: CopyPlan, f: CopyFn)
    requires Mentions(q) <= Mentions(p) && Needed(sym, q, f)
    ensures Needed(sym, p, f)
  {
    var c :| Chain(sym, q, c) && c[|c| - 1] == f;
    assert Chain(sym, p, c);
  }

  lemma NeededByCall(sym: Symbols, p: CopyPlan, f: CopyFn)
    requires p.Recur?
    requires var own := OwnPlan(sym, CopyFn(p.name, p.mutable)); own.Some? && Needed(sym, own.value, f)
    ensures Needed(sym, p, f)
  {
    var g := CopyFn(p.name, p.mutable);
    var c :| Chain(sym, OwnPlan(sym, g).value, c) && c[|c| - 1] == f;
    var d := [g] + c;
    forall i | 0 <= i < |d| - 1
      ensures Leads(sym, d[i], d[i + 1])
    {
      assert d[i + 1] == c[i];
      if i > 0 { assert d[i] == c[i - 1] && Leads(sym, c[i - 1], c[i - 1 + 1]); }
    }
    assert Chain(sym, p, d);
  }

  lemma {:induction false} FieldMentions(fields: seq<FieldPlan>, field: string)
    ensures FieldPlanOf(fields, field).Some? ==> Mentions(FieldPlanOf(fields, field).value) <= FieldsMention(fields)
  {
    if fields != [] { FieldMentions(fields[1..], field); }
  }

  lemma SlotMentions(p: CopyPlan, tag: Tag)
    requires !Shares(p) && !p.Recur?
    ensures SlotPlanOf(Through(p), tag).Some? ==> Mentions(SlotPlanOf(Through(p), tag).value) <= Mentions(p)
  {
    if p.StructCopy? && tag.FieldOf? { FieldMentions(p.fields, tag.name); }
  }

  lemma {:induction false} CallsAreNeeded(sym: Symbols, p: CopyPlan, v: Val, f: CopyFn)
    requires f in Calls(sym, p, v)
    ensures Needed(sym, p, f)
    decreases v, (if p.Recur? then 2 else 1), 0
  {
    if p.Recur? {
      var g := CopyFn(p.name, p.mutable);
      OwnPlanIsNotRecur(sym, OwnTy(p.name, p.mutable));
      if f == g {
        assert Chain(sym, p, [g]);
      } else {
        CallsAreNeeded(sym, OwnPlan(sym, g).value, v, f);
        NeededByCall(sym, p, f);
      }
    } else {
      SlotCallsAreNeeded(sym, p, v, 0, f);
    }
  }

  lemma {:induction false} SlotCallsAreNeeded(sym: Symbols, p: CopyPlan, v: Val, i: nat, f: CopyFn)
    requires !Shares(p) && !p.Recur? && v.Obj? && i <= |v.slots| && f in SlotsCall(sym, Through(p), v, i)
    ensures Needed(sym, p, f)
    decreases v, 0, |v.slots| - i
  {
    var s := v.slots[i];
    if f in SlotsCall(sym, Through(p), v, i + 1) {
      SlotCallsAreNeeded(sym, p, v, i + 1, f);
    } else {
      var q := SlotPlanOf(Through(p), s.tag).value;
      CallsAreNeeded(sym, q, s.val, f);
      SlotMentions(p, s.tag);
      NeededThrough(sym, p, q, f);
    }
  }

  /** So a plan whose needed functions were all generated, each from a plan of its own, runs to its
      end on every value of its type. */
  lemma RunSucceeds(sym: Symbols, fns: set<CopyFn>, p: CopyPlan, v: Val, next: nat)
    requires MadeFor(sym, p, v)
    requires forall f :: Needed(sym, p, f) ==> f in fns && OwnPlan(sym, f).Some?
    ensures Run(sym, fns, p, v, next).Some?
  {
    forall f | f in Calls(sym, p, v) ensures f in fns && OwnPlan(sym, f).Some? { CallsAreNeeded(sym, p, v, f); }
    RunEndsExactly(sym, fns, p, v, next);
  }
}
