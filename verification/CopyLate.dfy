/** A copy function asked for too late: the struct's module is emitted before the only copy. */
module CopyLate {
  import opened Basics
  import opened SalvoTypes
  import opened Immutable
  import opened CopyValues
  import opened CopyPlans
  import opened CopySoundness
  import opened CopyTheorem
  import opened CopySafety
  import opened CopyFunctions
  import opened CopyEmission

  const NODE: TypeName := Key("Node", "a")
  const MUT_NODE: Ty := Qualified([Mut], Named(NODE, []))
  const BUFFER: Ty := Qualified([Mut], Named(Str, []))
  const KIDS: Ty := Named(List, [MUT_NODE])
  const NODE_DECL: StructDecl := StructDecl("Node", [], [Field("buffer", BUFFER, false), Field("kids", KIDS, false)])

  /** Module a's `struct Node canbe Mut { buffer: Mut Str, kids: List<Mut Node> }`. */
  function Table(): Symbols {
    Symbols(
      map[NODE := NODE_DECL],
      map[],
      map[List := IntrinsicDecl(true, false, true), Deque := IntrinsicDecl(true, false, true), Str := IntrinsicDecl(true, false, true)])
  }

  /** The copy function of a `Mut Node`. */
  const NODE_COPY: CopyFn := CopyFn(NODE, true)

  const KIDS_PLAN: CopyPlan := Elements(false, false, Recur(NODE, true))
  const NODE_PLAN: CopyPlan := StructCopy("Node", [FieldPlan("buffer", StrBuilder), FieldPlan("kids", KIDS_PLAN)])

  const DECLARES: Module := Module("a", [])
  const COPIES: Module := Module("z", [NODE_PLAN])

  /** Module a, which copies nothing, and a module z that copies a `Mut Node`. */
  function Build(modules: seq<Module>): Program {
    Program(Table(), map[NODE := "a"], modules)
  }

  function NodeOf(id: nat, buffer: nat, kids: Val): Val {
    Obj(id, true, 0, [Slot(FieldOf("buffer"), Obj(buffer, true, 0, [])), Slot(FieldOf("kids"), kids)])
  }

  function Leaf(): Val {
    NodeOf(3, 4, Obj(5, false, 0, []))
  }

  function Kids(): Val {
    Obj(2, false, 0, [Slot(Elem, Leaf())])
  }

  /** A node with one kid. */
  function Parent(): Val {
    NodeOf(0, 1, Kids())
  }

  lemma TableIsATable()
    ensures CopyTables(Table())
  {
    assert Table().structs.Keys == {NODE};
    assert NODE_DECL.fields[0].name[0] == 'b' && NODE_DECL.fields[1].name[0] == 'k';
  }

  lemma FieldTypes(args: seq<Ty>)
    ensures forall isMut :: FieldTy(NODE_DECL, args, isMut, 0) == BUFFER && FieldTy(NODE_DECL, args, isMut, 1) == KIDS
    ensures PlainFieldTy(NODE_DECL, args, 0) == BUFFER && PlainFieldTy(NODE_DECL, args, 1) == KIDS
  {
    assert Zip([], args) == map[];
    assert Approx(MUT_NODE, map[]) == MUT_NODE;
    assert Approx(KIDS, map[]).args == [MUT_NODE];
  }

  // ---- the value

  lemma NodeHasType(id: nat, buffer: nat, kids: Val)
    requires HasType(Table(), KIDS, false, kids, {})
    ensures HasType(Table(), Named(NODE, []), true, NodeOf(id, buffer, kids), {})
  {
    TableIsATable();
    FieldTypes([]);
    var v := NodeOf(id, buffer, kids);
    assert HasType(Table(), BUFFER, false, v.slots[0].val, {});
    assert FieldTyped(Table(), NODE_DECL, [], true, v, 0) && FieldTyped(Table(), NODE_DECL, [], true, v, 1);
    StructHasType(Table(), NODE, [], true, v);
  }

  lemma ParentHasType()
    ensures HasType(Table(), MUT_NODE, false, Parent(), {})
  {
    TableIsATable();
    ListHasType(Table(), MUT_NODE, Obj(5, false, 0, []));
    NodeHasType(3, 4, Obj(5, false, 0, []));
    StrippedType(Table(), MUT_NODE, Leaf());
    ListHasType(Table(), MUT_NODE, Kids());
    NodeHasType(0, 1, Kids());
    StrippedType(Table(), MUT_NODE, Parent());
  }

  // ---- the plan

  lemma NothingIsImmutable(visiting: seq<TypeName>)
    ensures !IsImmutable(Table(), BUFFER, visiting) && !IsImmutable(Table(), KIDS, visiting)
    ensures !IsImmutable(Table(), MUT_NODE, visiting)
  {
    TableIsATable();
    assert MUT_NODE in KIDS.args;
  }

  lemma KidsPlan()
    ensures Plan(Table(), KIDS, [NODE]) == Some(KIDS_PLAN)
  {
    NothingIsImmutable([]);
    assert Plan(Table(), MUT_NODE, [NODE]) == Some(Recur(NODE, true)) by {
      assert HasMut(MUT_NODE) && StripQuals(MUT_NODE) == Named(NODE, []);
    }
    ListPlanned(Table(), MUT_NODE, [NODE], Recur(NODE, true));
  }

  lemma KidsFieldPlan()
    ensures StructPlan(Table(), NODE_DECL, [], true, [NODE], 1) == Some(NODE_PLAN.fields[1..])
  {
    FieldTypes([]);
    NothingIsImmutable([PlainKey("Node")]);
    KidsPlan();
    FieldPlanned(Table(), NODE_DECL, [], true, [NODE], 1, KIDS_PLAN, []);
    assert [NODE_PLAN.fields[1]] + [] == NODE_PLAN.fields[1..];
  }

  lemma FieldPlans()
    ensures StructPlan(Table(), NODE_DECL, [], true, [NODE], 0) == Some(NODE_PLAN.fields)
  {
    FieldTypes([]);
    assert !IsImmutable(Table(), BUFFER, [PlainKey("Node")]);
    KidsFieldPlan();
    BuilderPlanned(Table(), [NODE]);
    FieldPlanned(Table(), NODE_DECL, [], true, [NODE], 0, StrBuilder, NODE_PLAN.fields[1..]);
    assert [NODE_PLAN.fields[0]] + NODE_PLAN.fields[1..] == NODE_PLAN.fields;
  }

  lemma NodePlan()
    ensures OwnPlan(Table(), NODE_COPY) == Some(NODE_PLAN) && CopyPlanOf(Table(), MUT_NODE) == Some(NODE_PLAN)
  {
    TableIsATable();
    NothingIsImmutable([]);
    FieldPlans();
    assert [] + [NODE] == [NODE];
    StructPlanned(Table(), NODE, [], true, []);
    assert MaybeMut(NODE, [], true) == MUT_NODE;
  }

  lemma NodeIsTame()
    ensures Tame(Table(), MUT_NODE)
  {
    TableIsATable();
    NonGenericIsRegular(Table(), MUT_NODE);
    assert DeclNames(Table()) == {NODE};
    OwnStructsCopySoundly(Table(), MUT_NODE);
  }

  lemma PlanMentions()
    ensures Mentions(NODE_PLAN) == {NODE_COPY}
  {
    var fs := NODE_PLAN.fields;
    assert FieldsMention(fs) == Mentions(fs[0].plan) + FieldsMention(fs[1..]);
    assert fs[1..][0] == fs[1] && fs[1..][1..] == [];
    assert FieldsMention(fs[1..]) == Mentions(fs[1].plan) + FieldsMention([]);
    assert Mentions(StrBuilder) == {} && Mentions(Recur(NODE, true)) == {NODE_COPY};
  }

  lemma KidsCall()
    ensures NODE_COPY in Calls(Table(), KIDS_PLAN, Kids())
  {
    assert NODE_COPY in Calls(Table(), Recur(NODE, true), Leaf());
    SlotCalls(Table(), AllSlots(Recur(NODE, true)), Kids(), 0, 0, Recur(NODE, true), NODE_COPY);
  }

  lemma KidsHaveAPlan()
    ensures FieldPlanOf(NODE_PLAN.fields, "kids") == Some(KIDS_PLAN)
  {
    var fs := NODE_PLAN.fields;
    assert fs[0].field[0] == 'b' && "kids"[0] == 'k';
    assert fs[1..][0] == fs[1] && fs[1].field == "kids";
  }

  /** The run arrives at the copy function with the kid. */
  lemma KidIsCopied()
    ensures NODE_COPY in Calls(Table(), NODE_PLAN, Parent())
  {
    KidsCall();
    KidsHaveAPlan();
    SlotCalls(Table(), Fields(NODE_PLAN.fields), Parent(), 0, 1, KIDS_PLAN, NODE_COPY);
    ObjectCalls(Table(), NODE_PLAN, Parent());
  }

  lemma ParentIsMadeFor()
    ensures MadeFor(Table(), NODE_PLAN, Parent())
  {
    TableIsATable();
    NodeIsTame();
    NodePlan();
    ParentHasType();
    assert Ready(Table(), MUT_NODE, [], NODE_PLAN, Parent());
  }

  // ---- the order of the modules

  lemma NotGeneratedFirst()
    ensures !Generated(Build([DECLARES, COPIES]), NODE_COPY)
  {
    var p := Build([DECLARES, COPIES]);
    NothingAskedBefore(p, 1, NODE_COPY);
    assert "a"[0] != "z"[0];
    forall k: nat ensures !GeneratedAt(p, k, NODE_COPY) {
      if k == 1 { assert !RenderedAt(p, p.modules[1].path, NODE_COPY); }
    }
  }

  /** Module a emitted first, the copy in module z calls a function nobody generated, though its
      struct has a plan and every condition of soundness holds. */
  lemma LateRequest(generated: set<Placed>, next: nat)
    requires Emitted(Build([DECLARES, COPIES]), generated)
    ensures var p := Build([DECLARES, COPIES]);
      && CopyTables(Table()) && Tame(Table(), MUT_NODE) && HasType(Table(), MUT_NODE, false, Parent(), {})
      && HomesKnown(p) && CopyPlanOf(Table(), MUT_NODE) == Some(NODE_PLAN) && NODE_PLAN in COPIES.copies
      && OwnPlan(Table(), NODE_COPY).Some? && NODE_COPY in Mentions(NODE_PLAN) && !Generated(p, NODE_COPY)
      && Run(Table(), Callable(p, generated), NODE_PLAN, Parent(), next) == None
  {
    var p := Build([DECLARES, COPIES]);
    TableIsATable();
    NodeIsTame();
    NodePlan();
    ParentHasType();
    PlanMentions();
    NotGeneratedFirst();
    ParentIsMadeFor();
    KidIsCopied();
    CopyEndsExactly(p, generated, NODE_PLAN, Parent(), next);
  }

  lemma OnlyNodeIsNeeded(f: CopyFn)
    requires Needed(Table(), NODE_PLAN, f)
    ensures f == NODE_COPY
  {
    var c :| Chain(Table(), NODE_PLAN, c) && c[|c| - 1] == f;
    PlanMentions();
    NodePlan();
    OnlyNodeInChain(c, |c| - 1);
  }

  lemma {:induction false} OnlyNodeInChain(c: seq<CopyFn>, i: nat)
    requires Chain(Table(), NODE_PLAN, c) && i < |c| && Mentions(NODE_PLAN) == {NODE_COPY}
    requires OwnPlan(Table(), NODE_COPY) == Some(NODE_PLAN)
    ensures c[i] == NODE_COPY
  {
    if i > 0 {
      OnlyNodeInChain(c, i - 1);
      assert Leads(Table(), c[i - 1], c[i - 1 + 1]);
    }
  }

  /** The other way round every copy of a node ends. */
  lemma EarlyRequest(generated: set<Placed>, v: Val, next: nat)
    requires Emitted(Build([COPIES, DECLARES]), generated) && HasType(Table(), MUT_NODE, false, v, {})
    ensures Run(Table(), Callable(Build([COPIES, DECLARES]), generated), NODE_PLAN, v, next).Some?
  {
    var p := Build([COPIES, DECLARES]);
    TableIsATable();
    NodeIsTame();
    NodePlan();
    assert Ready(Table(), MUT_NODE, [], NODE_PLAN, v);
    forall f | Needed(Table(), NODE_PLAN, f) ensures f == NODE_COPY { OnlyNodeIsNeeded(f); }
    OrderedCopyEnds(p, generated, 0, f => 1, NODE_PLAN, v, next);
  }
}
