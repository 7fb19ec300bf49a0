/** Generic structs inside themselves: where the answer yes is wrong a copy is the value itself,
    and where nothing in them can be written they are copied soundly all the same. */
module CopyGenerics {
  import opened Basics
  import opened SalvoTypes
  import opened Immutable
  import opened CopyValues
  import opened CopyPlans
  import opened CopySoundness
  import opened CopySafety

  function BoxOf(id: nat, content: Val): Val {
    Obj(id, false, 0, [Slot(FieldOf("value"), content)])
  }

  lemma BoxTableIsATable()
    ensures CopyTables(BoxTable())
  {
    BoxTableIsWellFormed();
    assert BoxTable().structs.Keys == {BOX};
  }

  lemma BoxHasType(t: Ty, id: nat, content: Val)
    requires HasType(BoxTable(), t, false, content, {})
    ensures HasType(BoxTable(), Named(BOX, [t]), false, BoxOf(id, content), {})
  {
    BoxTableIsATable();
    BoxParts(t);
    var s := BoxTable().structs[BOX];
    assert Parts(BoxTable(), Named(BOX, [t]))[0] == PlainFieldTy(s, [t], 0);
    assert FieldTyped(BoxTable(), s, [t], false, BoxOf(id, content), 0);
    StructHasType(BoxTable(), BOX, [t], false, BoxOf(id, content));
  }

  function BoxedText(): Val {
    BoxOf(0, BoxOf(1, Obj(2, true, 0, [])))
  }

  lemma BoxedTextHasType()
    ensures HasType(BoxTable(), OUTER_BOX, false, BoxedText(), {})
  {
    var text := Obj(2, true, 0, []);
    assert HasType(BoxTable(), BOXED, false, text, {});
    BoxHasType(BOXED, 1, text);
    BoxHasType(INNER_BOX, 0, BoxOf(1, text));
  }

  lemma BoxCells(id: nat, content: Val)
    ensures Cells(content) <= Cells(BoxOf(id, content))
    ensures forall next :: id < next && IdsBelow(content, next) ==> IdsBelow(BoxOf(id, content), next)
  {
    SlotCellsIn(BoxOf(id, content), 0, 1);
  }

  lemma BoxedTextCells()
    ensures 2 in Cells(BoxedText()) && IdsBelow(BoxedText(), 3)
  {
    var text := Obj(2, true, 0, []);
    assert 2 in Cells(text) && IdsBelow(text, 3);
    BoxCells(1, text);
    BoxCells(0, BoxOf(1, text));
  }

  lemma OuterBoxIsNotHonest()
    ensures !Honest(BoxTable(), OUTER_BOX) && CopyPlanOf(BoxTable(), OUTER_BOX) == Some(Identity)
  {
    OuterBoxIsCalledImmutable();
    OuterBoxReachesMutable();
    ReachesSelf(BoxTable(), OUTER_BOX);
  }

  /** A copy of a `Box<Box<Mut Str>>` is the value itself, and the text is written through both. */
  lemma NestedBoxAliases(fns: set<CopyFn>)
    ensures var sym, v := BoxTable(), BoxedText();
      && CopyTables(sym) && !Honest(sym, OUTER_BOX)
      && HasType(sym, OUTER_BOX, false, v, {}) && IdsBelow(v, 3)
      && CopyPlanOf(sym, OUTER_BOX) == Some(Identity) && Run(sym, fns, Identity, v, 3) == Some(Copied(v, 3))
      && 2 in Cells(v)
  {
    BoxTableIsATable();
    OuterBoxIsNotHonest();
    BoxedTextHasType();
    BoxedTextCells();
  }

  // ---- a type nothing in which can be written

  lemma NothingToWriteBelow(sym: Symbols, ty: Ty, below: Ty)
    requires !ReachesMutable(sym, ty) && Reaches(sym, ty, below)
    ensures !ReachesMutable(sym, below)
  {
    if leaf :| Reaches(sym, below, leaf) && MutableLeaf(sym, leaf) { ReachesTransitive(sym, ty, below, leaf); }
  }

  /** However its generics recur, a type that reaches no mutable leaf is trusted. */
  lemma NothingToWriteIsTame(sym: Symbols, ty: Ty)
    requires WellFormed(sym) && !ReachesMutable(sym, ty) && Unmistaken(sym, ty)
    ensures Tame(sym, ty)
  {
    forall a | Reaches(sym, ty, a)
      ensures !ReachesMutable(sym, a)
    {
      NothingToWriteBelow(sym, ty, a);
    }
    forall a, i | Reaches(sym, ty, a) && IsStruct(sym, a) && 0 <= i < |sym.structs[a.name].fields|
      ensures IsImmutable(sym, PlainFieldTy(sym.structs[a.name], a.args, i), [])
    {
      var fty := PlainFieldTy(sym.structs[a.name], a.args, i);
      FieldReached(sym, a.name, a.args, i);
      NothingToWriteBelow(sym, a, fty);
      if !IsImmutable(sym, fty, []) { RefusalIsRight(sym, fty); }
    }
  }

  const INT: Ty := Named(Int, [])
  const INT_BOX: Ty := Named(BOX, [INT])
  const NESTED_INT: Ty := Named(BOX, [INT_BOX])

  lemma NestedIntReaches(b: Ty)
    requires Reaches(BoxTable(), NESTED_INT, b)
    ensures b == NESTED_INT || b == INT_BOX || b == INT
  {
    var sym := BoxTable();
    BoxParts(INT_BOX);
    BoxParts(INT);
    var p :| PathFrom(sym, NESTED_INT, b, p);
    assert |p| > 1 ==> StepAt(sym, p, 1);
    assert |p| > 2 ==> StepAt(sym, p, 2);
    assert |p| > 3 ==> StepAt(sym, p, 3);
  }

  lemma NestedIntIsNotRegular()
    ensures !Regular(BoxTable(), NESTED_INT)
  {
    BoxParts(INT_BOX);
    ReachesSelf(BoxTable(), NESTED_INT);
    ReachesPart(BoxTable(), NESTED_INT, INT_BOX);
    assert !SameExpansion(BoxTable(), NESTED_INT, INT_BOX);
  }

  lemma NestedIntIsTame()
    ensures Tame(BoxTable(), NESTED_INT)
  {
    BoxTableIsATable();
    forall b | Reaches(BoxTable(), NESTED_INT, b)
      ensures b == NESTED_INT || b == INT_BOX || b == INT
    {
      NestedIntReaches(b);
    }
    NothingToWriteIsTame(BoxTable(), NESTED_INT);
  }

  /** `Box<Box<Int>>` re-enters a generic struct at other arguments and is copied soundly. */
  lemma NestedIntCopiesSoundly()
    ensures !Regular(BoxTable(), NESTED_INT)
    ensures Tame(BoxTable(), NESTED_INT) && CopiesSoundly(BoxTable(), NESTED_INT)
  {
    BoxTableIsATable();
    NestedIntIsNotRegular();
    NestedIntIsTame();
    TameCopiesSoundly(BoxTable(), NESTED_INT);
  }
}
