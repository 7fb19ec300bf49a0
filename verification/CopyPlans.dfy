/** Copy plans: the tree a backend renders for `copy(x)`, and what running it does to the heap. */
module CopyPlans {
  import opened Basics
  import opened SalvoTypes
  import opened Immutable
  import opened CopyValues

  datatype CopyPlan =
    | Identity
    | StrBuilder
    | Platform(name: TypeName)
    | Elements(deque: bool, mutable: bool, elem: CopyPlan)
    | StructCopy(written: string, fields: seq<FieldPlan>)
    | Keyed(value: CopyPlan)
    | ArrayCopy
    | Recur(name: TypeName, mutable: bool)

  datatype FieldPlan = FieldPlan(field: string, plan: CopyPlan)

  // ---- making a plan

  predicate MutPlatformValue(sym: Symbols, name: TypeName) {
    name in sym.intrinsics && sym.intrinsics[name].platform && !sym.intrinsics[name].linear && sym.intrinsics[name].canbeMut
  }

  /** The first struct being copied that is written as `name` is. */
  function FindOuter(copying: seq<TypeName>, name: TypeName): (r: Option<TypeName>)
    ensures r.Some? ==> r.value in copying && SamePlain(r.value, name)
    ensures r.None? ==> name !in copying
  {
    if copying == [] then None
    else if SamePlain(copying[0], name) then Some(copying[0])
    else FindOuter(copying[1..], name)
  }

  /** The plan for a value of `ty` inside the copies of the structs in `copying`. */
  function Plan(sym: Symbols, ty: Ty, copying: seq<TypeName>): Option<CopyPlan>
    decreases Unvisited(sym, copying), 0, ty
  {
    if IsImmutable(sym, ty, []) then Some(Identity)
    else
      var base := StripQuals(ty);
      match base
      case Named(name, args) =>
        if HasMut(ty) && name == Str then Some(StrBuilder)
        else if args == [] && MutPlatformValue(sym, name) then Some(Platform(name))
        else if (name == Deque || name == List) && |args| == 1 then
          var elem :- Plan(sym, args[0], copying);
          Some(Elements(name == Deque, HasMut(ty), elem))
        else if IsKeyed(name) && IsPlatform(sym, name) then
          var types := TypesOf(args);
          if types == [] || !IsImmutable(sym, types[0], []) then None
          else if |types| > 1 && IsMap(name) then
            TypesOfSmaller(base, types[1]);
            var value :- Plan(sym, types[1], copying);
            Some(Keyed(value))
          else Some(Keyed(Identity))
        else if name in sym.structs then
          var s := sym.structs[name];
          if s.fields == [] then Some(Identity)
          else
            var outer := FindOuter(copying, name);
            if outer.Some? then
              if s.generics == [] then Some(Recur(outer.value, HasMut(ty))) else None
            else
              EnteringShrinks(sym, copying, name);
              var fields :- StructPlan(sym, s, args, HasMut(ty), copying + [name], 0);
              Some(StructCopy(s.written, fields))
        else None
      case ArrayOf(elem) => if IsImmutable(sym, elem, []) then Some(ArrayCopy) else None
      case _ => None
  }

  /** The plans of the fields from `i` on that do not copy as themselves. A field is asked about
      with the struct's written name already on the stack. */
  function StructPlan(sym: Symbols, s: StructDecl, args: seq<Ty>, isMut: bool, copying: seq<TypeName>, i: nat): Option<seq<FieldPlan>>
    requires i <= |s.fields|
    decreases Unvisited(sym, copying), 1, |s.fields| - i
  {
    if i == |s.fields| then Some([])
    else
      var fty := FieldTy(s, args, isMut, i);
      if IsImmutable(sym, fty, [PlainKey(s.written)]) then StructPlan(sym, s, args, isMut, copying, i + 1)
      else
        var plan :- Plan(sym, fty, copying);
        var rest :- StructPlan(sym, s, args, isMut, copying, i + 1);
        Some([FieldPlan(s.fields[i].name, plan)] + rest)
  }

  function MaybeMut(name: TypeName, args: seq<Ty>, isMut: bool): Ty {
    Qualify(Named(name, args), if isMut then [Mut] else [])
  }

  /** The plan of a struct not being copied already: the plans of its fields. */
  lemma StructPlanned(sym: Symbols, name: TypeName, args: seq<Ty>, isMut: bool, copying: seq<TypeName>)
    requires name in sym.structs && name.Key? && name !in sym.intrinsics && sym.structs[name].fields != []
    requires !IsImmutable(sym, MaybeMut(name, args, isMut), []) && FindOuter(copying, name) == None
    ensures var fields := StructPlan(sym, sym.structs[name], args, isMut, copying + [name], 0);
      Plan(sym, MaybeMut(name, args, isMut), copying) ==
        if fields.None? then None else Some(StructCopy(sym.structs[name].written, fields.value))
  {
    var ty := MaybeMut(name, args, isMut);
    assert HasMut(ty) == isMut && StripQuals(ty) == Named(name, args);
    assert !MutPlatformValue(sym, name) && !IsPlatform(sym, name) && name != Str && name != List && name != Deque;
    EnteringShrinks(sym, copying, name);
  }

  lemma FieldPlanned(sym: Symbols, s: StructDecl, args: seq<Ty>, isMut: bool, copying: seq<TypeName>, i: nat, plan: CopyPlan, rest: seq<FieldPlan>)
    requires i < |s.fields| && !IsImmutable(sym, FieldTy(s, args, isMut, i), [PlainKey(s.written)])
    requires Plan(sym, FieldTy(s, args, isMut, i), copying) == Some(plan)
    requires StructPlan(sym, s, args, isMut, copying, i + 1) == Some(rest)
    ensures StructPlan(sym, s, args, isMut, copying, i) == Some([FieldPlan(s.fields[i].name, plan)] + rest)
  {}

  lemma BuilderPlanned(sym: Symbols, copying: seq<TypeName>)
    ensures Plan(sym, Qualified([Mut], Named(Str, [])), copying) == Some(StrBuilder)
  {
    assert !IsImmutable(sym, Qualified([Mut], Named(Str, [])), []);
  }

  lemma ListPlanned(sym: Symbols, elem: Ty, copying: seq<TypeName>, plan: CopyPlan)
    requires !IsImmutable(sym, Named(List, [elem]), []) && Plan(sym, elem, copying) == Some(plan)
    ensures Plan(sym, Named(List, [elem]), copying) == Some(Elements(false, false, plan))
  {}

  function CopyPlanOf(sym: Symbols, ty: Ty): Option<CopyPlan> {
    Plan(sym, ty, [])
  }

  /** What a struct's own copy function copies: the struct, plain or `Mut`. */
  function OwnTy(name: TypeName, isMut: bool): Ty {
    MaybeMut(name, [], isMut)
  }

  // ---- running a plan

  /** A plan whose rendering is the value itself. */
  predicate Shares(p: CopyPlan) {
    p.Identity? || (p.Elements? && !p.deque && !p.mutable && Shares(p.elem))
  }

  /** Which slots of a container a plan copies, and how. */
  datatype SlotPlans = AllSlots(p: CopyPlan) | Fields(fields: seq<FieldPlan>) | Values(p: CopyPlan)

  function FieldPlanOf(fields: seq<FieldPlan>, field: string): Option<CopyPlan> {
    if fields == [] then None
    else if fields[0].field == field then Some(fields[0].plan)
    else FieldPlanOf(fields[1..], field)
  }

  function SlotPlanOf(ps: SlotPlans, tag: Tag): Option<CopyPlan> {
    match ps
    case AllSlots(p) => Some(p)
    case Fields(fields) => if tag.FieldOf? then FieldPlanOf(fields, tag.name) else None
    case Values(p) => if tag == EntryValue then Some(p) else None
  }

  datatype Copied<T> = Copied(val: T, next: nat)

  /** The slots a plan's rendering copies: none where it only makes a new object over the old ones. */
  function Through(p: CopyPlan): SlotPlans {
    match p
    case Elements(_, _, elem) => if Shares(elem) then Fields([]) else AllSlots(elem)
    case StructCopy(_, fields) => Fields(fields)
    case Keyed(value) => if Shares(value) then Fields([]) else Values(value)
    case _ => Fields([])
  }

  /** An object like `v` over copied slots, allocated after them. */
  function NewObject(v: Val, c: Copied<seq<Slot>>): Copied<Val>
    requires v.Obj?
  {
    Copied(Obj(c.next, v.mutable, v.data, c.val), c.next + 1)
  }

  /** A struct's own copy function, of its plain or its `Mut` values. */
  datatype CopyFn = CopyFn(name: TypeName, mutable: bool)

  /** What the function renders: the plan of the struct. */
  function OwnPlan(sym: Symbols, f: CopyFn): Option<CopyPlan> {
    CopyPlanOf(sym, OwnTy(f.name, f.mutable))
  }

  /** Runs `p` on `v`, allocating from `next`, where the copy functions `fns` were generated. `None`
      when the value is not what the plan is for, or when a function called was not generated. */
  function Run(sym: Symbols, fns: set<CopyFn>, p: CopyPlan, v: Val, next: nat): Option<Copied<Val>>
    decreases v, (if p.Recur? then 2 else 1), 0
  {
    if Shares(p) then Some(Copied(v, next))
    else if p.Recur? then
      if CopyFn(p.name, p.mutable) !in fns then None
      else
        var own :- OwnPlan(sym, CopyFn(p.name, p.mutable));
        OwnPlanIsNotRecur(sym, OwnTy(p.name, p.mutable));
        Run(sym, fns, own, v, next)
    else if v.Atom? then None
    else
      var c :- RunSlots(sym, fns, Through(p), v, 0, next);
      Some(NewObject(v, c))
  }

  /** Copies the slots from `i` on, those without a plan being the old ones. */
  function RunSlots(sym: Symbols, fns: set<CopyFn>, ps: SlotPlans, v: Val, i: nat, next: nat): Option<Copied<seq<Slot>>>
    requires v.Obj? && i <= |v.slots|
    decreases v, 0, |v.slots| - i
  {
    if i == |v.slots| then Some(Copied([], next))
    else
      var s := v.slots[i];
      var head :- match SlotPlanOf(ps, s.tag)
        case None => Some(Copied(s.val, next))
        case Some(p) => Run(sym, fns, p, s.val, next);
      var rest :- RunSlots(sym, fns, ps, v, i + 1, head.next);
      Some(Copied([Slot(s.tag, head.val)] + rest.val, rest.next))
  }

  lemma OwnPlanIsNotRecur(sym: Symbols, ty: Ty)
    ensures CopyPlanOf(sym, ty).Some? ==> !CopyPlanOf(sym, ty).value.Recur?
  {
  }
}
