/** Two modules' structs written alike, one inside the other: the plan calls the wrong struct's
    copy function. */
module CopyNamesakes {
  import opened Basics
  import opened SalvoTypes
  import opened Immutable
  import opened CopyValues
  import opened CopyPlans
  import opened CopySharing
  import opened CopySoundness
  import opened CopyTheorem
  import opened CopySafety

  const OUTER: TypeName := Key("Node", "a")
  const INNER: TypeName := Key("Node", "b")
  const TEXT: Ty := Qualified([Mut], Named(Str, []))
  const OTHERS: Ty := Named(List, [Named(INNER, [])])

  const OUTER_DECL: StructDecl := StructDecl("Node", [], [Field("buffer", TEXT, false), Field("other", OTHERS, false)])
  const INNER_DECL: StructDecl := StructDecl("Node", [], [Field("text", TEXT, false)])

  /** Module a's `struct Node { buffer: Mut Str, other: List<b.Node> }` and module b's
      `struct Node { text: Mut Str }`. */
  function Table(): Symbols {
    Symbols(
      map[OUTER := OUTER_DECL, INNER := INNER_DECL],
      map[],
      map[List := IntrinsicDecl(true, false, true), Deque := IntrinsicDecl(true, false, true), Str := IntrinsicDecl(true, false, true)])
  }

  function Text(id: nat): Val {
    Obj(id, true, 0, [])
  }

  function InnerNode(): Val {
    Obj(3, false, 0, [Slot(FieldOf("text"), Text(4))])
  }

  function Others(): Val {
    Obj(2, false, 0, [Slot(Elem, InnerNode())])
  }

  /** A node of module a over text 1, holding a node of module b over text 4. */
  function OuterNode(): Val {
    Obj(0, false, 0, [Slot(FieldOf("buffer"), Text(1)), Slot(FieldOf("other"), Others())])
  }

  lemma TableIsATable()
    ensures CopyTables(Table())
  {
    assert Table().structs.Keys == {OUTER, INNER};
    assert OUTER_DECL.fields[0].name[0] == 'b' && OUTER_DECL.fields[1].name[0] == 'o';
  }

  lemma FieldTypes(args: seq<Ty>)
    ensures PlainFieldTy(OUTER_DECL, args, 0) == TEXT && PlainFieldTy(OUTER_DECL, args, 1) == OTHERS
    ensures PlainFieldTy(INNER_DECL, args, 0) == TEXT
  {
    assert Zip([], args) == map[];
    assert Approx(Named(INNER, []), map[]) == Named(INNER, []);
    assert Approx(OTHERS, map[]).args == [Named(INNER, [])];
  }

  lemma InnerHasType()
    ensures HasType(Table(), Named(INNER, []), false, InnerNode(), {})
  {
    TableIsATable();
    FieldTypes([]);
    assert HasType(Table(), TEXT, false, Text(4), {});
    assert FieldTyped(Table(), INNER_DECL, [], false, InnerNode(), 0);
    StructHasType(Table(), INNER, [], false, InnerNode());
  }

  lemma OthersHaveType()
    ensures HasType(Table(), OTHERS, false, Others(), {})
  {
    TableIsATable();
    InnerHasType();
    ListHasType(Table(), Named(INNER, []), Others());
  }

  lemma OuterHasType()
    ensures HasType(Table(), Named(OUTER, []), false, OuterNode(), {})
  {
    TableIsATable();
    FieldTypes([]);
    OthersHaveType();
    assert HasType(Table(), TEXT, false, Text(1), {});
    assert FieldTyped(Table(), OUTER_DECL, [], false, OuterNode(), 0);
    assert FieldTyped(Table(), OUTER_DECL, [], false, OuterNode(), 1);
    StructHasType(Table(), OUTER, [], false, OuterNode());
  }

  lemma OuterIsAllocated()
    ensures IdsBelow(OuterNode(), 5)
  {
    assert IdsBelow(Text(4), 5) && IdsBelow(InnerNode(), 5) && IdsBelow(Others(), 5) && IdsBelow(Text(1), 5);
  }

  // ---- the plan

  lemma NothingIsImmutable(visiting: seq<TypeName>)
    ensures !IsImmutable(Table(), TEXT, visiting)
    ensures OUTER !in visiting ==> !IsImmutable(Table(), Named(OUTER, []), visiting)
    ensures INNER !in visiting ==> !IsImmutable(Table(), Named(INNER, []), visiting) && !IsImmutable(Table(), OTHERS, visiting)
  {
    TableIsATable();
    FieldTypes([]);
    assert Parts(Table(), Named(OUTER, []))[0] == TEXT && Parts(Table(), Named(INNER, []))[0] == TEXT;
    if OUTER !in visiting && IsImmutable(Table(), Named(OUTER, []), visiting) {
      ImmutablePart(Table(), Named(OUTER, []), visiting, TEXT);
      MutableLeafIsNotImmutable(Table(), TEXT, visiting + [OUTER]);
    }
    if INNER !in visiting && IsImmutable(Table(), Named(INNER, []), visiting) {
      ImmutablePart(Table(), Named(INNER, []), visiting, TEXT);
      MutableLeafIsNotImmutable(Table(), TEXT, visiting + [INNER]);
    }
  }

  /** Inside module a's node, module b's is taken for it. */
  lemma InnerIsMistaken()
    ensures Plan(Table(), Named(INNER, []), [OUTER]) == Some(Recur(OUTER, false))
  {
    NothingIsImmutable([]);
  }

  lemma OthersPlan()
    ensures Plan(Table(), OTHERS, [OUTER]) == Some(Elements(false, false, Recur(OUTER, false)))
  {
    NothingIsImmutable([]);
    InnerIsMistaken();
    ListPlanned(Table(), Named(INNER, []), [OUTER], Recur(OUTER, false));
  }

  function OuterFields(): seq<FieldPlan> {
    [FieldPlan("buffer", StrBuilder), FieldPlan("other", Elements(false, false, Recur(OUTER, false)))]
  }

  lemma OtherFieldPlan()
    ensures StructPlan(Table(), OUTER_DECL, [], false, [OUTER], 1) == Some(OuterFields()[1..])
  {
    FieldTypes([]);
    NothingIsImmutable([PlainKey("Node")]);
    OthersPlan();
    FieldPlanned(Table(), OUTER_DECL, [], false, [OUTER], 1, Elements(false, false, Recur(OUTER, false)), []);
    assert [OuterFields()[1]] + [] == OuterFields()[1..];
  }

  lemma OuterStructPlan()
    ensures StructPlan(Table(), OUTER_DECL, [], false, [OUTER], 0) == Some(OuterFields())
  {
    FieldTypes([]);
    OtherFieldPlan();
    BuilderPlanned(Table(), [OUTER]);
    assert !IsImmutable(Table(), TEXT, [PlainKey("Node")]);
    FieldPlanned(Table(), OUTER_DECL, [], false, [OUTER], 0, StrBuilder, OuterFields()[1..]);
    assert [OuterFields()[0]] + OuterFields()[1..] == OuterFields();
  }

  lemma OuterPlan()
    ensures CopyPlanOf(Table(), Named(OUTER, [])) == Some(StructCopy("Node", OuterFields()))
  {
    TableIsATable();
    NothingIsImmutable([]);
    OuterStructPlan();
    assert [] + [OUTER] == [OUTER];
    StructPlanned(Table(), OUTER, [], false, []);
  }

  // ---- the run

  lemma FieldNames()
    ensures FieldPlanOf(OuterFields(), "buffer") == Some(StrBuilder)
    ensures FieldPlanOf(OuterFields(), "other") == Some(Elements(false, false, Recur(OUTER, false)))
    ensures FieldPlanOf(OuterFields(), "text") == None
  {
    assert "buffer"[0] == 'b' && "other"[0] == 'o' && "text"[0] == 't';
    assert FieldPlanOf(OuterFields()[1..], "text") == FieldPlanOf(OuterFields()[1..][1..], "text");
  }

  /** Module a's copy function, called on module b's node, knows none of its fields. */
  lemma InnerRun(fns: set<CopyFn>, next: nat)
    requires CopyFn(OUTER, false) in fns
    ensures Run(Table(), fns, Recur(OUTER, false), InnerNode(), next).Some?
    ensures SharedCells(Table(), Recur(OUTER, false), InnerNode()) == {4}
  {
    var sym, p, v := Table(), StructCopy("Node", OuterFields()), InnerNode();
    OuterPlan();
    FieldNames();
    assert OwnTy(OUTER, false) == Named(OUTER, []);
    RecurRunsOwn(sym, fns, Recur(OUTER, false), v, next);
    RecurSharesOwn(sym, Recur(OUTER, false), v);
    assert SlotPlanOf(Through(p), v.slots[0].tag) == None;
    assert RunSlots(sym, fns, Through(p), v, 1, next) == Some(Copied([], next));
    assert RunSlots(sym, fns, Through(p), v, 0, next).Some?;
    RunMakesObject(sym, fns, p, v, next);
    SharedOfObject(sym, p, v);
    assert SharedInSlots(sym, Through(p), v, 0) == {};
    assert Cells(Text(4)) == {4};
  }

  lemma OthersRun(fns: set<CopyFn>, next: nat)
    requires CopyFn(OUTER, false) in fns
    ensures Run(Table(), fns, Elements(false, false, Recur(OUTER, false)), Others(), next).Some?
    ensures SharedCells(Table(), Elements(false, false, Recur(OUTER, false)), Others()) == {4}
  {
    var sym, p, v := Table(), Elements(false, false, Recur(OUTER, false)), Others();
    InnerRun(fns, next);
    assert Through(p) == AllSlots(Recur(OUTER, false));
    var head := Run(sym, fns, Recur(OUTER, false), InnerNode(), next).value;
    assert RunSlots(sym, fns, Through(p), v, 1, head.next) == Some(Copied([], head.next));
    assert RunSlots(sym, fns, Through(p), v, 0, next).Some?;
    RunMakesObject(sym, fns, p, v, next);
    SharedOfObject(sym, p, v);
    assert SharedInSlots(sym, Through(p), v, 0) == {};
  }

  lemma OuterRun(fns: set<CopyFn>, next: nat)
    requires CopyFn(OUTER, false) in fns
    ensures Run(Table(), fns, StructCopy("Node", OuterFields()), OuterNode(), next).Some?
    ensures 4 in SharedCells(Table(), StructCopy("Node", OuterFields()), OuterNode())
  {
    var sym, p, v := Table(), StructCopy("Node", OuterFields()), OuterNode();
    FieldNames();
    RunMakesObject(sym, fns, StrBuilder, Text(1), next);
    assert RunSlots(sym, fns, Fields([]), Text(1), 0, next) == Some(Copied([], next));
    var head := Run(sym, fns, StrBuilder, Text(1), next).value;
    OthersRun(fns, head.next);
    var other := Run(sym, fns, Elements(false, false, Recur(OUTER, false)), Others(), head.next).value;
    assert RunSlots(sym, fns, Through(p), v, 2, other.next) == Some(Copied([], other.next));
    assert RunSlots(sym, fns, Through(p), v, 1, head.next).Some?;
    assert RunSlots(sym, fns, Through(p), v, 0, next).Some?;
    RunMakesObject(sym, fns, p, v, next);
    SharedOfObject(sym, p, v);
    SharedSlotwise(sym, Through(p), v, 2, 4);
    assert 4 in SharedInSlot(sym, Through(p), v.slots[1]);
  }

  /** The copy of module a's node keeps the text of module b's: every condition of the theorem
      holds but that no struct below another is written like it. */
  lemma NamesakesAlias(fns: set<CopyFn>)
    requires CopyFn(OUTER, false) in fns
    ensures var sym, ty, v := Table(), Named(OUTER, []), OuterNode();
      && CopyTables(sym) && Honest(sym, ty) && SeedsHarmless(sym, ty) && !Unmistaken(sym, ty)
      && HasType(sym, ty, false, v, {}) && IdsBelow(v, 5)
      && CopyPlanOf(sym, ty).Some? && Run(sym, fns, CopyPlanOf(sym, ty).value, v, 5).Some?
      && 4 in Cells(v) * Cells(Run(sym, fns, CopyPlanOf(sym, ty).value, v, 5).value.val)
  {
    var sym, ty, v := Table(), Named(OUTER, []), OuterNode();
    TableIsATable();
    OuterHasType();
    OuterIsAllocated();
    OuterPlan();
    OuterRun(fns, 5);
    CopySharesExactly(sym, fns, StructCopy("Node", OuterFields()), v, 5);
    OuterIsHonest();
    if Unmistaken(sym, ty) { CopyIsSound(sym, fns, ty, v, 5); }
  }

  lemma OuterIsHonest()
    ensures Honest(Table(), Named(OUTER, [])) && SeedsHarmless(Table(), Named(OUTER, []))
  {
    var sym, ty := Table(), Named(OUTER, []);
    TableIsATable();
    NonGenericIsHonest(sym, ty);
    assert DeclNames(sym) == {OUTER, INNER};
    forall a | Reaches(sym, ty, a) && IsStruct(sym, a)
      ensures SeedHarmless(sym, sym.structs[a.name], a.args)
    {
      UnreachedSeedIsHarmless(sym, sym.structs[a.name], a.args);
    }
  }
}
