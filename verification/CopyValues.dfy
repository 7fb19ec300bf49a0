/** Values as the objects reached from them, each with its identity, and what it means for a
    value to have a type. */
module CopyValues {
  import opened Basics
  import opened SalvoTypes
  import opened Immutable

  /** An object's `id` is its identity in the heap; `mutable` says an operation can write it;
      `data` stands for whatever it holds beside references (characters, bytes, scalars). */
  datatype Val =
    | Atom(n: int)
    | Obj(id: nat, mutable: bool, data: int, slots: seq<Slot>)

  /** Where a slot is: a list's element, an entry's key or value, a struct's field. */
  datatype Tag = Elem | EntryKey | EntryValue | FieldOf(name: string)

  datatype Slot = Slot(tag: Tag, val: Val)

  // ---- cells

  /** The mutable cells of a value. */
  function Cells(v: Val): set<nat>
    decreases v, 1
  {
    if v.Atom? then {} else (if v.mutable then {v.id} else {}) + SlotCells(v, |v.slots|)
  }

  function SlotCells(v: Val, n: nat): set<nat>
    requires v.Obj? && n <= |v.slots|
    decreases v, 0, n
  {
    if n == 0 then {} else SlotCells(v, n - 1) + Cells(v.slots[n - 1].val)
  }

  ghost predicate NoCells(v: Val) {
    v.Obj? ==> !v.mutable && forall s :: s in v.slots ==> NoCells(s.val)
  }

  /** Every object was allocated before `next`. */
  ghost predicate IdsBelow(v: Val, next: nat) {
    v.Obj? ==> v.id < next && forall s :: s in v.slots ==> IdsBelow(s.val, next)
  }

  /** Equal but for identity. */
  ghost predicate SameShape(v: Val, w: Val) {
    match v
    case Atom(_) => v == w
    case Obj(_, m, d, slots) =>
      && w.Obj? && w.mutable == m && w.data == d && |w.slots| == |slots|
      && forall i :: 0 <= i < |slots| ==> slots[i].tag == w.slots[i].tag && SameShape(slots[i].val, w.slots[i].val)
  }

  /** The write of `x` into the cell `id`, wherever the value holds it. */
  function Write(v: Val, id: nat, x: Val): Val {
    match v
    case Atom(_) => v
    case Obj(i, m, d, slots) =>
      if m && i == id then x
      else Obj(i, m, d, seq(|slots|, k requires 0 <= k < |slots| => Slot(slots[k].tag, Write(slots[k].val, id, x))))
  }

  lemma IdsBelowUp(v: Val, next: nat, later: nat)
    requires IdsBelow(v, next) && next <= later
    ensures IdsBelow(v, later)
  {
    if v.Obj? {
      forall s | s in v.slots ensures IdsBelow(s.val, later) { IdsBelowUp(s.val, next, later); }
    }
  }

  lemma SameShapeSelf(v: Val)
    ensures SameShape(v, v)
  {
    if v.Obj? {
      forall s | s in v.slots ensures SameShape(s.val, s.val) { SameShapeSelf(s.val); }
    }
  }

  lemma CellsAreOld(v: Val, next: nat)
    requires IdsBelow(v, next)
    ensures forall id :: id in Cells(v) ==> id < next
  {
    if v.Obj? { SlotCellsAreOld(v, |v.slots|, next); }
  }

  lemma SlotCellsAreOld(v: Val, n: nat, next: nat)
    requires v.Obj? && n <= |v.slots| && IdsBelow(v, next)
    ensures forall id :: id in SlotCells(v, n) ==> id < next
    decreases v, 0, n
  {
    if n > 0 {
      SlotCellsAreOld(v, n - 1, next);
      assert v.slots[n - 1] in v.slots;
      CellsAreOld(v.slots[n - 1].val, next);
    }
  }

  lemma SlotCellsIn(v: Val, k: nat, n: nat)
    requires v.Obj? && k < n <= |v.slots|
    ensures Cells(v.slots[k].val) <= SlotCells(v, n)
    decreases n
  {
    if k < n - 1 { SlotCellsIn(v, k, n - 1); }
  }

  /** A write to a cell a value does not hold does not show in it. */
  lemma {:induction false} WriteElsewhere(v: Val, id: nat, x: Val)
    requires id !in Cells(v)
    ensures Write(v, id, x) == v
  {
    if v.Obj? {
      forall k | 0 <= k < |v.slots|
        ensures Write(v.slots[k].val, id, x) == v.slots[k].val
      {
        SlotCellsIn(v, k, |v.slots|);
        WriteElsewhere(v.slots[k].val, id, x);
      }
    }
  }

  // ---- typing

  /** The type arguments of a keyed collection that are types of values. */
  function TypesOf(args: seq<Ty>): (ts: seq<Ty>)
    ensures forall t :: t in ts ==> t in args
  {
    if args == [] then []
    else if args[0].FnName? || args[0].ValueRef? || args[0].ConstArg? then TypesOf(args[1..])
    else [args[0]] + TypesOf(args[1..])
  }

  lemma TypesOfSmaller(ty: Ty, t: Ty)
    requires ty.Named? && t in TypesOf(ty.args)
    ensures t < ty
  {
  }

  /** Whether `v` is a value of `ty`; `isMut` when the position makes it `Mut`. `seen` holds the
      aliases already unfolded at this value, so a cyclic alias has no values of its own.
      A plain value of a type is one nothing can write, a plain `Deque` excepted. */
  ghost predicate HasType(sym: Symbols, ty: Ty, isMut: bool, v: Val, seen: set<TypeName>)
    decreases v, 1, |sym.aliases.Keys - seen|, ty
  {
    match ty
    case Qualified(quals, base) => HasType(sym, base, isMut || Mut in quals, v, seen)
    case Union(arms) => exists a :: a in arms && HasType(sym, a, isMut, v, seen)
    case Tuple(elems) =>
      && v.Obj? && !v.mutable && |v.slots| == |elems|
      && forall i :: 0 <= i < |elems| ==> HasType(sym, elems[i], false, v.slots[i].val, {})
    case ArrayOf(elem) =>
      v.Obj? && forall s :: s in v.slots ==> HasType(sym, elem, false, s.val, {})
    case Named(n, args) =>
      if IsScalar(n) then
        if n == Str && isMut then v.Obj? && v.slots == [] else NoCells(v)
      else if IsPlatform(sym, n) then
        && v.Obj? && (v.mutable ==> isMut || n == Deque)
        && forall s :: s in v.slots ==> PlatformSlot(sym, ty, s, v)
      else if n in sym.aliases then
        n !in seen && AliasesLeft(sym, seen, n) && HasType(sym, AliasTarget(sym, n), isMut, v, seen + {n})
      else if n in sym.structs then
        var d := sym.structs[n];
        && v.Obj? && (v.mutable ==> isMut && d.fields != []) && |v.slots| == |d.fields|
        && forall i :: 0 <= i < |d.fields| ==> FieldTyped(sym, d, args, isMut, v, i)
      else true
    case Fn => NoCells(v)
    case FnName => NoCells(v)
    case ValueRef => NoCells(v)
    case ConstArg => NoCells(v)
    case Lit => NoCells(v)
    case _ => true
  }

  /** Unfolding an alias leaves fewer to unfold. */
  ghost predicate AliasesLeft(sym: Symbols, seen: set<TypeName>, n: TypeName)
    requires n in sym.aliases && n !in seen
    ensures AliasesLeft(sym, seen, n)
    ensures |sym.aliases.Keys - (seen + {n})| < |sym.aliases.Keys - seen|
  {
    assert sym.aliases.Keys - (seen + {n}) == (sym.aliases.Keys - seen) - {n};
    true
  }

  /** A slot of a platform collection: a key or a value of a keyed one, else an element. */
  ghost predicate PlatformSlot(sym: Symbols, ty: Ty, s: Slot, owner: Val)
    requires ty.Named? && s.val < owner
    decreases owner, 0
  {
    if IsKeyed(ty.name) then
      var ts := TypesOf(ty.args);
      || (s.tag == EntryKey && |ts| > 0 && HasType(sym, ts[0], false, s.val, {}))
      || (s.tag == EntryValue && IsMap(ty.name) && |ts| > 1 && HasType(sym, ts[1], false, s.val, {}))
    else
      exists a :: a in ty.args && HasType(sym, a, false, s.val, {})
  }

  ghost predicate FieldTyped(sym: Symbols, d: StructDecl, args: seq<Ty>, isMut: bool, v: Val, i: nat)
    requires v.Obj? && i < |v.slots| && |v.slots| == |d.fields|
    decreases v, 0
  {
    v.slots[i].tag == FieldOf(d.fields[i].name) && HasType(sym, FieldTy(d, args, isMut, i), false, v.slots[i].val, {})
  }

  /** A struct value: an object with a slot for each field, which nothing writes if it is plain. */
  lemma StructHasType(sym: Symbols, name: TypeName, args: seq<Ty>, isMut: bool, v: Val)
    requires WellFormed(sym) && name in sym.structs
    requires v.Obj? && (v.mutable ==> isMut && v.slots != []) && |v.slots| == |sym.structs[name].fields|
    requires forall i :: 0 <= i < |v.slots| ==> FieldTyped(sym, sym.structs[name], args, isMut, v, i)
    ensures HasType(sym, Named(name, args), isMut, v, {})
  {}

  /** A plain list value: an object nothing writes, each slot an element. */
  lemma ListHasType(sym: Symbols, elem: Ty, v: Val)
    requires StdTypes(sym) && v.Obj? && !v.mutable
    requires forall s :: s in v.slots ==> HasType(sym, elem, false, s.val, {})
    ensures HasType(sym, Named(List, [elem]), false, v, {})
  {
    forall s | s in v.slots ensures PlatformSlot(sym, Named(List, [elem]), s, v) {
      assert elem in [elem];
    }
  }

  /** The argument a platform slot's value is typed by. */
  ghost function SlotTy(sym: Symbols, ty: Ty, s: Slot, owner: Val): (a: Ty)
    requires ty.Named? && s.val < owner && PlatformSlot(sym, ty, s, owner)
    ensures a in ty.args && HasType(sym, a, false, s.val, {})
    ensures IsKeyed(ty.name) ==> TypesOf(ty.args) != [] && (s.tag == EntryKey || s.tag == EntryValue)
    ensures IsKeyed(ty.name) && s.tag == EntryKey ==> a == TypesOf(ty.args)[0]
    ensures IsKeyed(ty.name) && s.tag == EntryValue ==> IsMap(ty.name) && |TypesOf(ty.args)| > 1 && a == TypesOf(ty.args)[1]
  {
    if IsKeyed(ty.name) then
      if s.tag == EntryKey then TypesOf(ty.args)[0] else TypesOf(ty.args)[1]
    else
      var a :| a in ty.args && HasType(sym, a, false, s.val, {});
      a
  }

  /** A slot of the same tag whose value has the old one's type. */
  lemma SlotRetyped(sym: Symbols, ty: Ty, v: Val, s: Slot, w: Val, t: Slot)
    requires ty.Named? && s.val < v && PlatformSlot(sym, ty, s, v) && t.val < w && t.tag == s.tag
    requires HasType(sym, SlotTy(sym, ty, s, v), false, t.val, {})
    ensures PlatformSlot(sym, ty, t, w)
  {
    var a := SlotTy(sym, ty, s, v);
  }
}
