/** The analysis as it runs: one stack of visited declarations and one of structs being copied,
    pushed and popped in place. */
module CopyPlanner {
  import opened Basics
  import opened SalvoTypes
  import opened Immutable
  import opened CopyValues
  import opened CopyPlans

  class Planner {
    const symbols: Symbols
    var visiting: seq<TypeName>
    var copying: seq<TypeName>

    constructor (symbols: Symbols)
      ensures this.symbols == symbols && visiting == [] && copying == []
    {
      this.symbols := symbols;
      visiting, copying := [], [];
    }

    /** Asks whether `ty` is immutable and leaves the stack as it was. */
    method Immutable(ty: Ty) returns (r: bool)
      modifies this`visiting
      ensures visiting == old(visiting)
      ensures r == IsImmutable(symbols, ty, visiting)
      decreases Unvisited(symbols, visiting), 0, ty, 1
    {
      match ty
      case Qualified(quals, base) =>
        if Mut in quals { return false; }
        r := Immutable(base);
      case Named(name, args) =>
        if IsScalar(name) { return true; }
        if IsPlatform(symbols, name) {
          if name == Deque { return false; }
          r := AllImmutable(args, ty);
        } else if name in symbols.aliases {
          if name in visiting { return true; }
          EnteringShrinks(symbols, visiting, name);
          visiting := visiting + [name];
          r := Immutable(AliasTarget(symbols, name));
          visiting := visiting[..|visiting| - 1];
        } else if name in symbols.structs {
          if name in visiting { return true; }
          EnteringShrinks(symbols, visiting, name);
          visiting := visiting + [name];
          r := FieldsImmutable(symbols.structs[name], args);
          visiting := visiting[..|visiting| - 1];
        } else {
          r := false;
        }
      case Union(arms) => r := AllImmutable(arms, ty);
      case Tuple(elems) => r := AllImmutable(elems, ty);
      case ValueRef => r := true;
      case ConstArg => r := true;
      case Lit => r := true;
      case Fn => r := true;
      case FnName => r := true;
      case _ => r := false;
    }

    method FieldsImmutable(s: StructDecl, args: seq<Ty>) returns (r: bool)
      modifies this`visiting
      ensures visiting == old(visiting)
      ensures r <==> forall j :: 0 <= j < |s.fields| ==> IsImmutable(symbols, PlainFieldTy(s, args, j), visiting)
      decreases Unvisited(symbols, visiting), 1
    {
      r := true;
      var i := 0;
      while i < |s.fields| && r
        invariant 0 <= i <= |s.fields| && visiting == old(visiting)
        invariant r <==> forall j :: 0 <= j < i ==> IsImmutable(symbols, PlainFieldTy(s, args, j), visiting)
      {
        r := Immutable(PlainFieldTy(s, args, i));
        i := i + 1;
      }
    }

    method AllImmutable(tys: seq<Ty>, ghost owner: Ty) returns (r: bool)
      requires forall t :: t in tys ==> t < owner
      modifies this`visiting
      ensures visiting == old(visiting)
      ensures r <==> forall t :: t in tys ==> IsImmutable(symbols, t, visiting)
      decreases Unvisited(symbols, visiting), 0, owner, 0
    {
      r := true;
      var i := 0;
      while i < |tys| && r
        invariant 0 <= i <= |tys| && visiting == old(visiting)
        invariant r <==> forall j :: 0 <= j < i ==> IsImmutable(symbols, tys[j], visiting)
      {
        assert tys[i] in tys;
        r := Immutable(tys[i]);
        i := i + 1;
      }
    }

    /** `immutable` with a stack of its own. */
    method ImmutableFrom(ty: Ty, stack: seq<TypeName>) returns (r: bool)
      modifies this`visiting
      ensures visiting == stack
      ensures r == IsImmutable(symbols, ty, stack)
    {
      visiting := stack;
      r := Immutable(ty);
    }

    /** The plan for a value of `ty`, leaving the stack of structs as it was. */
    method Plan(ty: Ty) returns (r: Option<CopyPlan>)
      modifies this
      ensures copying == old(copying)
      ensures r == CopyPlans.Plan(symbols, ty, copying)
      decreases Unvisited(symbols, copying), 1, ty, 1
    {
      var shared := ImmutableFrom(ty, []);
      if shared { return Some(Identity); }
      var base := StripQuals(ty);
      match base
      case Named(name, args) =>
        if HasMut(ty) && name == Str {
          r := Some(StrBuilder);
        } else if args == [] && MutPlatformValue(symbols, name) {
          r := Some(Platform(name));
        } else if (name == Deque || name == List) && |args| == 1 {
          var elem := Plan(args[0]);
          r := if elem.None? then None else Some(Elements(name == Deque, HasMut(ty), elem.value));
        } else if IsKeyed(name) && IsPlatform(symbols, name) {
          r := KeyedValue(base, ty);
        } else if name in symbols.structs {
          r := StructValue(name, args, HasMut(ty), ty);
        } else {
          r := None;
        }
      case ArrayOf(elem) =>
        var elemShared := ImmutableFrom(elem, []);
        r := if elemShared then Some(ArrayCopy) else None;
      case _ => r := None;
    }

    /** The branch of keyed collections, none of the branches before it being taken. */
    method KeyedValue(base: Ty, ghost ty: Ty) returns (r: Option<CopyPlan>)
      requires base.Named? && base == StripQuals(ty) && !IsImmutable(symbols, ty, [])
      requires IsKeyed(base.name) && IsPlatform(symbols, base.name)
      requires !(base.args == [] && MutPlatformValue(symbols, base.name))
      modifies this
      ensures copying == old(copying)
      ensures r == CopyPlans.Plan(symbols, ty, copying)
      decreases Unvisited(symbols, copying), 1, base, 0
    {
      var types := TypesOf(base.args);
      if types == [] { return None; }
      var keyShared := ImmutableFrom(types[0], []);
      if !keyShared { return None; }
      if |types| > 1 && IsMap(base.name) {
        TypesOfSmaller(base, types[1]);
        var value := Plan(types[1]);
        r := if value.None? then None else Some(Keyed(value.value));
      } else {
        r := Some(Keyed(Identity));
      }
    }

    /** The branch of structs, none of the branches before it being taken. */
    method StructValue(name: TypeName, args: seq<Ty>, isMut: bool, ghost ty: Ty) returns (r: Option<CopyPlan>)
      requires StripQuals(ty) == Named(name, args) && isMut == HasMut(ty) && !IsImmutable(symbols, ty, [])
      requires name in symbols.structs && !(isMut && name == Str) && !(args == [] && MutPlatformValue(symbols, name))
      requires !((name == Deque || name == List) && |args| == 1) && !(IsKeyed(name) && IsPlatform(symbols, name))
      modifies this
      ensures copying == old(copying)
      ensures r == CopyPlans.Plan(symbols, ty, copying)
      decreases Unvisited(symbols, copying), 0
    {
      var s := symbols.structs[name];
      if s.fields == [] { return Some(Identity); }
      var outer := FindOuter(copying, name);
      if outer.Some? {
        return if s.generics == [] then Some(Recur(outer.value, isMut)) else None;
      }
      EnteringShrinks(symbols, copying, name);
      copying := copying + [name];
      var fields := StructFields(s, args, isMut);
      copying := copying[..|copying| - 1];
      r := if fields.None? then None else Some(StructCopy(s.written, fields.value));
    }

    /** The plans of a struct's fields, appended one by one. */
    method StructFields(s: StructDecl, args: seq<Ty>, isMut: bool) returns (r: Option<seq<FieldPlan>>)
      modifies this
      ensures copying == old(copying)
      ensures r == StructPlan(symbols, s, args, isMut, copying, 0)
      decreases Unvisited(symbols, copying), 2
    {
      var fields: seq<FieldPlan> := [];
      var i := 0;
      assert forall rest: seq<FieldPlan> :: [] + rest == rest;
      while i < |s.fields|
        invariant 0 <= i <= |s.fields| && copying == old(copying)
        invariant StructPlan(symbols, s, args, isMut, copying, 0) ==
          (var rest := StructPlan(symbols, s, args, isMut, copying, i);
           if rest.None? then None else Some(fields + rest.value))
      {
        var fty := FieldTy(s, args, isMut, i);
        var skip := ImmutableFrom(fty, [PlainKey(s.written)]);
        if !skip {
          var plan := Plan(fty);
          if plan.None? { return None; }
          AppendField(fields, FieldPlan(s.fields[i].name, plan.value), StructPlan(symbols, s, args, isMut, copying, i + 1));
          fields := fields + [FieldPlan(s.fields[i].name, plan.value)];
        }
        i := i + 1;
      }
      assert fields + [] == fields;
      return Some(fields);
    }
  }

  lemma AppendField(fields: seq<FieldPlan>, f: FieldPlan, rest: Option<seq<FieldPlan>>)
    ensures rest.Some? ==> fields + ([f] + rest.value) == fields + [f] + rest.value
  {
  }
}
