/** The struct for which a copy plan shares a cell: keyed by its own written name, holding a
    mutable field, and holding itself through a plain list. */
module CopySeed {
  import opened Basics
  import opened SalvoTypes
  import opened Immutable
  import opened CopyValues
  import opened CopyPlans
  import opened CopySoundness
  import opened CopySharing
  import opened CopySafety

  const BUFFER: Ty := Qualified([Mut], Named(Str, []))

  function NodeList(key: TypeName): Ty {
    Named(List, [Named(key, [])])
  }

  function NodeDecl(key: TypeName): StructDecl
    requires key.Key?
  {
    StructDecl(key.written, [], [Field("buffer", BUFFER, false), Field("next", NodeList(key), false)])
  }

  /** `struct Node { buffer: Mut Str, next: List<Node> }`, keyed by `key`. */
  function NodeTable(key: TypeName): Symbols
    requires key.Key?
  {
    Symbols(
      map[key := NodeDecl(key)],
      map[],
      map[List := IntrinsicDecl(true, false, true), Deque := IntrinsicDecl(true, false, true), Str := IntrinsicDecl(true, false, true)])
  }

  function Buffer(id: nat): Val {
    Obj(id, true, 0, [])
  }

  function Node(id: nat, buffer: nat, next: Val): Val {
    Obj(id, false, 0, [Slot(FieldOf("buffer"), Buffer(buffer)), Slot(FieldOf("next"), next)])
  }

  /** A node over buffer 1 whose list holds a node over buffer 4. */
  function Chain(): Val {
    Node(0, 1, Obj(2, false, 0, [Slot(Elem, Node(3, 4, Obj(5, false, 0, [])))]))
  }

  lemma NodeFields(key: TypeName, args: seq<Ty>)
    requires key.Key?
    ensures var s := NodeDecl(key);
      PlainFieldTy(s, args, 0) == BUFFER && PlainFieldTy(s, args, 1) == NodeList(key)
  {
    var inner := Named(key, []);
    assert Zip([], args) == map[];
    assert Approx(inner, map[]) == Named(key, []);
    assert Approx(NodeList(key), map[]).args == [inner];
  }

  lemma NodeTablesAreTables(key: TypeName)
    requires key.Key?
    ensures CopyTables(NodeTable(key))
  {
    var sym := NodeTable(key);
    assert sym.structs.Keys == {key};
    assert sym.structs[key] == NodeDecl(key);
    var fs := NodeDecl(key).fields;
    assert fs[0].name[0] == 'b' && fs[1].name[0] == 'n';
  }

  lemma NodeHasType(key: TypeName, id: nat, buffer: nat, next: Val)
    requires key.Key?
    requires HasType(NodeTable(key), NodeList(key), false, next, {})
    ensures HasType(NodeTable(key), Named(key, []), false, Node(id, buffer, next), {})
  {
    var sym := NodeTable(key);
    NodeFields(key, []);
    NodeTablesAreTables(key);
    var v := Node(id, buffer, next);
    assert HasType(sym, BUFFER, false, v.slots[0].val, {});
    assert FieldTyped(sym, NodeDecl(key), [], false, v, 0) && FieldTyped(sym, NodeDecl(key), [], false, v, 1);
    StructHasType(sym, key, [], false, v);
  }

  lemma ChainHasType(key: TypeName)
    requires key.Key?
    ensures HasType(NodeTable(key), Named(key, []), false, Chain(), {}) && IdsBelow(Chain(), 6)
  {
    var sym, node := NodeTable(key), Named(key, []);
    NodeTablesAreTables(key);
    ListHasType(sym, node, Obj(5, false, 0, []));
    NodeHasType(key, 3, 4, Obj(5, false, 0, []));
    ListHasType(sym, node, Obj(2, false, 0, [Slot(Elem, Node(3, 4, Obj(5, false, 0, [])))]));
    NodeHasType(key, 0, 1, Obj(2, false, 0, [Slot(Elem, Node(3, 4, Obj(5, false, 0, [])))]));
    assert IdsBelow(Node(3, 4, Obj(5, false, 0, [])), 6);
  }

  lemma NodeParts(key: TypeName)
    requires key.Key?
    ensures Parts(NodeTable(key), Named(key, [])) == [BUFFER, NodeList(key)]
  {
    NodeFields(key, []);
  }

  lemma NodeIsMutable(key: TypeName)
    requires key.Key?
    ensures !IsImmutable(NodeTable(key), Named(key, []), [])
  {
    NodeTablesAreTables(key);
    NodeParts(key);
    MutableLeafIsNotImmutable(NodeTable(key), BUFFER, [] + [key]);
    if IsImmutable(NodeTable(key), Named(key, []), []) {
      ImmutablePart(NodeTable(key), Named(key, []), [], BUFFER);
    }
  }

  lemma ListIsCalledImmutable(key: TypeName)
    requires key.Key?
    ensures IsImmutable(NodeTable(key), NodeList(key), [key])
  {
    assert IsImmutable(NodeTable(key), Named(key, []), [key]);
  }

  lemma BufferPlan(key: TypeName)
    requires key.Key?
    ensures forall visiting :: !IsImmutable(NodeTable(key), BUFFER, visiting)
    ensures Plan(NodeTable(key), BUFFER, [key]) == Some(StrBuilder)
  {
    BuilderPlanned(NodeTable(key), [key]);
  }

  lemma NodeStructPlan(key: TypeName)
    requires key.Key? && key == PlainKey(key.written)
    ensures StructPlan(NodeTable(key), NodeDecl(key), [], false, [key], 0) == Some([FieldPlan("buffer", StrBuilder)])
  {
    var sym, s := NodeTable(key), NodeDecl(key);
    NodeFields(key, []);
    ListIsCalledImmutable(key);
    BufferPlan(key);
    assert StructPlan(sym, s, [], false, [key], 2) == Some([]);
    assert StructPlan(sym, s, [], false, [key], 1) == Some([]);
    assert [FieldPlan("buffer", StrBuilder)] + [] == [FieldPlan("buffer", StrBuilder)];
  }

  /** Keyed by its written name, the plan copies `buffer` and leaves `next` to be shared. */
  lemma NodePlan(written: string)
    ensures CopyPlanOf(NodeTable(PlainKey(written)), Named(PlainKey(written), [])) ==
      Some(StructCopy(written, [FieldPlan("buffer", StrBuilder)]))
  {
    var key := PlainKey(written);
    NodeTablesAreTables(key);
    NodeIsMutable(key);
    NodeStructPlan(key);
    assert [] + [key] == [key];
    StructPlanned(NodeTable(key), key, [], false, []);
  }

  lemma RunNode(sym: Symbols, fns: set<CopyFn>, written: string, id: nat, buffer: nat, next: Val, at: nat)
    ensures Run(sym, fns, StructCopy(written, [FieldPlan("buffer", StrBuilder)]), Node(id, buffer, next), at) ==
      Some(Copied(Node(at + 1, at, next), at + 2))
  {
    var v := Node(id, buffer, next);
    var fields := [FieldPlan("buffer", StrBuilder)];
    assert "next"[0] == 'n' && "buffer"[0] == 'b';
    assert FieldPlanOf(fields, "next") == None;
    assert FieldPlanOf(fields, "buffer") == Some(StrBuilder);
    assert RunSlots(sym, fns, Fields(fields), v, 2, at + 1) == Some(Copied([], at + 1));
    assert [v.slots[1]] + [] == [v.slots[1]];
    assert RunSlots(sym, fns, Fields(fields), v, 1, at + 1) == Some(Copied([v.slots[1]], at + 1));
    assert Run(sym, fns, StrBuilder, Buffer(buffer), at) == Some(Copied(Buffer(at), at + 1));
    assert RunSlots(sym, fns, Fields(fields), v, 0, at) == Some(Copied([Slot(FieldOf("buffer"), Buffer(at))] + [v.slots[1]], at + 1));
    assert Node(at + 1, at, next).slots == [Slot(FieldOf("buffer"), Buffer(at))] + [v.slots[1]];
  }

  lemma NextCellsIn(id: nat, buffer: nat, next: Val)
    ensures Cells(next) <= Cells(Node(id, buffer, next))
    ensures buffer in Cells(Node(id, buffer, next))
  {
    var v := Node(id, buffer, next);
    SlotCellsIn(v, 1, 2);
    SlotCellsIn(v, 0, 2);
    assert buffer in Cells(v.slots[0].val);
  }

  lemma ChainHoldsBuffer(id: nat, buffer: nat)
    ensures 4 in Cells(Node(id, buffer, Chain().slots[1].val))
  {
    var next := Chain().slots[1].val;
    NextCellsIn(3, 4, Obj(5, false, 0, []));
    SlotCellsIn(next, 0, 1);
    assert 4 in Cells(next);
    NextCellsIn(id, buffer, next);
  }

  lemma ChainRun(fns: set<CopyFn>, written: string)
    ensures var sym, ty := NodeTable(PlainKey(written)), Named(PlainKey(written), []);
      && CopyPlanOf(sym, ty).Some?
      && Run(sym, fns, CopyPlanOf(sym, ty).value, Chain(), 6) == Some(Copied(Node(7, 6, Chain().slots[1].val), 8))
  {
    NodePlan(written);
    RunNode(NodeTable(PlainKey(written)), fns, written, 0, 1, Chain().slots[1].val, 6);
  }

  /** The copy shares buffer 4 with the original: a write through either shows in both. */
  lemma PlainKeyedNodeAliases(fns: set<CopyFn>, written: string)
    ensures var sym, ty := NodeTable(PlainKey(written)), Named(PlainKey(written), []);
      && CopyTables(sym) && HasType(sym, ty, false, Chain(), {}) && IdsBelow(Chain(), 6)
      && CopyPlanOf(sym, ty).Some? && Run(sym, fns, CopyPlanOf(sym, ty).value, Chain(), 6).Some?
      && 4 in Cells(Chain()) * Cells(Run(sym, fns, CopyPlanOf(sym, ty).value, Chain(), 6).value.val)
      && !CopiesSoundly(sym, ty) && !Tame(sym, ty)
  {
    var key := PlainKey(written);
    NodeTablesAreTables(key);
    ChainHasType(key);
    ChainRun(fns, written);
    ChainHoldsBuffer(0, 1);
    ChainHoldsBuffer(7, 6);
    if Tame(NodeTable(key), Named(key, [])) { TameCopiesSoundly(NodeTable(key), Named(key, [])); }
  }

  /** The same struct declared by a program's own module is copied soundly, whatever the value. */
  lemma ModuleKeyedNodeCopiesSoundly(key: TypeName)
    requires key.Key? && key.mod != ""
    ensures Tame(NodeTable(key), Named(key, [])) && CopiesSoundly(NodeTable(key), Named(key, []))
  {
    var sym, ty := NodeTable(key), Named(key, []);
    NodeTablesAreTables(key);
    assert DeclNames(sym) == {key};
    NonGenericIsRegular(sym, ty);
    OwnStructsCopySoundly(sym, ty);
  }
}
