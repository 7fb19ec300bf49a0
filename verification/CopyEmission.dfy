/** Which copy functions a compilation generates. Modules are emitted one after another over one set
    of requests, and a struct's copy function only at the end of the struct's own module. */
module CopyEmission {
  import opened Basics
  import opened SalvoTypes
  import opened Immutable
  import opened CopyValues
  import opened CopyPlans
  import opened CopyTheorem
  import opened CopyFunctions

  /** A module to emit: its path, and the plans that its declarations' copies render. */
  datatype Module = Module(path: string, copies: seq<CopyPlan>)

  /** A copy function in a module's file. */
  datatype Placed = Placed(path: string, fn: CopyFn)

  /** The tables, and the module each key is declared in. */
  datatype Program = Program(symbols: Symbols, homes: map<TypeName, string>, modules: seq<Module>)

  /** Every struct has a home, and calls of its copy functions go there. */
  predicate HomesKnown(p: Program) {
    p.symbols.structs.Keys <= p.homes.Keys
  }

  /** The end of the module at `path` renders this function once it is asked for. */
  predicate RenderedAt(p: Program, path: string, f: CopyFn) {
    (f.name in p.homes ==> p.homes[f.name] == path) && OwnPlan(p.symbols, f).Some?
  }

  function AllMentions(copies: seq<CopyPlan>): set<CopyFn> {
    if copies == [] then {} else AllMentions(copies[..|copies| - 1]) + Mentions(copies[|copies| - 1])
  }

  // ---- what is asked for, and when

  /** `fn` is asked for while the module `at` is emitted. */
  datatype Ask = Ask(fn: CopyFn, at: nat)

  /** `a`'s function, generated at the end of the module `b.at`, calls `b`'s. */
  predicate Prompts(p: Program, a: Ask, b: Ask) {
    && a.at <= b.at < |p.modules|
    && RenderedAt(p, p.modules[b.at].path, a.fn) && b.fn in Mentions(OwnPlan(p.symbols, a.fn).value)
  }

  /** A copy in a module asks for the first; each other is asked for by the one before it,
      generated at the end of a module emitted no earlier than it was asked for itself. */
  ghost predicate Asks(p: Program, c: seq<Ask>) {
    && c != [] && c[0].at < |p.modules| && c[0].fn in AllMentions(p.modules[c[0].at].copies)
    && forall i :: 0 <= i < |c| - 1 ==> Prompts(p, c[i], c[i + 1])
  }

  ghost predicate EndsIn(p: Program, c: seq<Ask>, n: nat, f: CopyFn) {
    Asks(p, c) && c[|c| - 1].fn == f && c[|c| - 1].at < n
  }

  /** Asked for by the end of the first `n` modules. */
  ghost predicate Asked(p: Program, n: nat, f: CopyFn) {
    exists c :: EndsIn(p, c, n, f)
  }

  /** Generated at the end of the module `k`: of that module, with a plan, asked for by then. */
  ghost predicate GeneratedAt(p: Program, k: nat, f: CopyFn) {
    k < |p.modules| && RenderedAt(p, p.modules[k].path, f) && Asked(p, k + 1, f)
  }

  /** Generated where its calls go. */
  ghost predicate Generated(p: Program, f: CopyFn) {
    f.name in p.homes && exists k :: GeneratedAt(p, k, f)
  }

  lemma AskedLater(p: Program, n: nat, m: nat, f: CopyFn)
    requires Asked(p, n, f) && n <= m
    ensures Asked(p, m, f)
  {
    var c: seq<Ask> :| EndsIn(p, c, n, f);
    assert EndsIn(p, c, m, f);
  }

  lemma AskedByCopy(p: Program, k: nat, f: CopyFn)
    requires k < |p.modules| && f in AllMentions(p.modules[k].copies)
    ensures Asked(p, k + 1, f)
  {
    assert EndsIn(p, [Ask(f, k)], k + 1, f);
  }

  lemma AskedByFunction(p: Program, k: nat, f: CopyFn, g: CopyFn)
    requires GeneratedAt(p, k, f) && g in Mentions(OwnPlan(p.symbols, f).value)
    ensures Asked(p, k + 1, g)
  {
    var c: seq<Ask> :| EndsIn(p, c, k + 1, f);
    var d := c + [Ask(g, k)];
    forall i | 0 <= i < |d| - 1
      ensures Prompts(p, d[i], d[i + 1])
    {
      if i < |c| - 1 { assert Prompts(p, c[i], c[i + 1]); }
    }
    assert EndsIn(p, d, k + 1, g);
  }

  ghost predicate AskedByACopy(p: Program, n: nat, f: CopyFn) {
    exists k :: 0 <= k < n && k < |p.modules| && f in AllMentions(p.modules[k].copies)
  }

  ghost predicate AskedByAFunction(p: Program, n: nat, f: CopyFn) {
    exists k, g :: 0 <= k < n && GeneratedAt(p, k, g) && f in Mentions(OwnPlan(p.symbols, g).value)
  }

  lemma AskedBySome(p: Program, c: seq<Ask>, n: nat, f: CopyFn)
    requires EndsIn(p, c, n, f)
    ensures AskedByACopy(p, n, f) || AskedByAFunction(p, n, f)
  {
    if |c| == 1 {
      assert f in AllMentions(p.modules[c[0].at].copies);
    } else {
      BeforeLast(p, c, n, f);
      assert GeneratedAt(p, c[|c| - 1].at, c[|c| - 2].fn);
    }
  }

  /** A function is asked for by a copy in a module emitted by then, or by a function generated by
      then, and not otherwise. */
  lemma AskedExactly(p: Program, n: nat, f: CopyFn)
    ensures Asked(p, n, f) <==> AskedByACopy(p, n, f) || AskedByAFunction(p, n, f)
  {
    if Asked(p, n, f) {
      var c: seq<Ask> :| EndsIn(p, c, n, f);
      AskedBySome(p, c, n, f);
    }
    if AskedByACopy(p, n, f) {
      var k: nat :| k < n && k < |p.modules| && f in AllMentions(p.modules[k].copies);
      AskedByCopy(p, k, f);
      AskedLater(p, k + 1, n, f);
    }
    if AskedByAFunction(p, n, f) {
      var k: nat, g: CopyFn :| k < n && GeneratedAt(p, k, g) && f in Mentions(OwnPlan(p.symbols, g).value);
      AskedByFunction(p, k, g, f);
      AskedLater(p, k + 1, n, f);
    }
  }

  /** The last but one of a chain was asked for by the module that generates it. */
  lemma BeforeLast(p: Program, c: seq<Ask>, n: nat, f: CopyFn)
    requires EndsIn(p, c, n, f) && |c| > 1
    ensures Prompts(p, c[|c| - 2], c[|c| - 1])
    ensures EndsIn(p, c[..|c| - 1], c[|c| - 1].at + 1, c[|c| - 2].fn)
  {
    var init := c[..|c| - 1];
    assert Prompts(p, c[|c| - 2], c[|c| - 2 + 1]);
    forall i | 0 <= i < |init| - 1
      ensures Prompts(p, init[i], init[i + 1])
    {
      assert Prompts(p, c[i], c[i + 1]);
    }
  }

  /** What is closed under a module's own functions and holds all that was asked for before, and by
      the module's copies, holds all that is asked for by its end. */
  lemma {:induction false} ClosedHoldsAsked(p: Program, k: nat, requested: set<CopyFn>, c: seq<Ask>, f: CopyFn)
    requires k < |p.modules| && EndsIn(p, c, k + 1, f)
    requires forall g :: Asked(p, k, g) ==> g in requested
    requires AllMentions(p.modules[k].copies) <= requested
    requires forall g :: g in requested && RenderedAt(p, p.modules[k].path, g) ==> Mentions(OwnPlan(p.symbols, g).value) <= requested
    ensures f in requested
    decreases |c|
  {
    if c[|c| - 1].at < k {
      assert EndsIn(p, c, k, f);
    } else if |c| > 1 {
      BeforeLast(p, c, k + 1, f);
      ClosedHoldsAsked(p, k, requested, c[..|c| - 1], c[|c| - 2].fn);
    }
  }

  lemma {:induction false} AsksInOrder(p: Program, c: seq<Ask>)
    requires Asks(p, c)
    ensures c[0].at <= c[|c| - 1].at
    decreases |c|
  {
    if |c| > 1 {
      BeforeLast(p, c, c[|c| - 1].at + 1, c[|c| - 1].fn);
      AsksInOrder(p, c[..|c| - 1]);
    }
  }

  /** Until a module copies, nothing is asked for. */
  lemma NothingAskedBefore(p: Program, n: nat, f: CopyFn)
    requires n <= |p.modules| && forall k :: 0 <= k < n ==> p.modules[k].copies == []
    ensures !Asked(p, n, f)
  {
    if c: seq<Ask> :| EndsIn(p, c, n, f) { AsksInOrder(p, c); }
  }

  // ---- the loop ends: plans name only structs

  function StructFns(sym: Symbols): set<CopyFn> {
    set n, b | n in sym.structs.Keys && b in {false, true} :: CopyFn(n, b)
  }

  /** The plan of an element or a value that `p` is made of, if it is made of one. */
  lemma InnerPlanIs(sym: Symbols, ty: Ty, copying: seq<TypeName>, p: CopyPlan)
    requires Plan(sym, ty, copying) == Some(p)
    ensures p.Elements? ==>
      StripQuals(ty).Named? && |StripQuals(ty).args| == 1 && Plan(sym, StripQuals(ty).args[0], copying) == Some(p.elem)
    ensures p.Keyed? ==> StripQuals(ty).Named?
    ensures p.Keyed? && p.value != Identity ==>
      |TypesOf(StripQuals(ty).args)| > 1 && Plan(sym, TypesOf(StripQuals(ty).args)[1], copying) == Some(p.value)
  {}

  lemma RecurNamesOuter(sym: Symbols, ty: Ty, copying: seq<TypeName>, p: CopyPlan)
    requires Plan(sym, ty, copying) == Some(p) && p.Recur?
    ensures p.name in copying
  {}

  lemma {:induction false} PlanNamesStructs(sym: Symbols, ty: Ty, copying: seq<TypeName>, p: CopyPlan, f: CopyFn)
    requires (forall n :: n in copying ==> n in sym.structs) && Plan(sym, ty, copying) == Some(p)
    requires f in Mentions(p)
    ensures f.name in sym.structs
    decreases Unvisited(sym, copying), 0, ty
  {
    var base := StripQuals(ty);
    InnerPlanIs(sym, ty, copying, p);
    match p {
      case Elements(_, _, elem) => PlanNamesStructs(sym, base.args[0], copying, elem, f);
      case Keyed(value) =>
        TypesOfSmaller(base, TypesOf(base.args)[1]);
        PlanNamesStructs(sym, TypesOf(base.args)[1], copying, value, f);
      case StructCopy(_, fields) => StructNamesStructs(sym, ty, copying, p, f);
      case _ => RecurNamesOuter(sym, ty, copying, p);
    }
  }

  lemma {:induction false} StructNamesStructs(sym: Symbols, ty: Ty, copying: seq<TypeName>, p: CopyPlan, f: CopyFn)
    requires (forall n :: n in copying ==> n in sym.structs) && Plan(sym, ty, copying) == Some(p)
    requires p.StructCopy? && f in FieldsMention(p.fields)
    ensures f.name in sym.structs
    decreases Unvisited(sym, copying), 0, ty, 0
  {
    var base := StripQuals(ty);
    StructPlanIs(sym, ty, copying, p);
    StructIsNotOuter(sym, ty, copying, p);
    EnteringShrinks(sym, copying, base.name);
    FieldsNameStructs(sym, sym.structs[base.name], base.args, HasMut(ty), copying + [base.name], 0, p.fields, f);
  }

  lemma StructIsNotOuter(sym: Symbols, ty: Ty, copying: seq<TypeName>, p: CopyPlan)
    requires Plan(sym, ty, copying) == Some(p) && p.StructCopy?
    ensures StripQuals(ty).Named? && StripQuals(ty).name !in copying
  {}

  lemma {:induction false} FieldsNameStructs(
    sym: Symbols, s: StructDecl, args: seq<Ty>, isMut: bool, copying: seq<TypeName>, i: nat, fields: seq<FieldPlan>, f: CopyFn)
    requires (forall n :: n in copying ==> n in sym.structs) && i <= |s.fields|
    requires StructPlan(sym, s, args, isMut, copying, i) == Some(fields) && f in FieldsMention(fields)
    ensures f.name in sym.structs
    decreases Unvisited(sym, copying), 1, |s.fields| - i
  {
    var fty := FieldTy(s, args, isMut, i);
    var rest := StructPlan(sym, s, args, isMut, copying, i + 1).value;
    if IsImmutable(sym, fty, [PlainKey(s.written)]) {
      FieldsNameStructs(sym, s, args, isMut, copying, i + 1, rest, f);
    } else {
      assert fields[1..] == rest;
      if f in FieldsMention(rest) {
        FieldsNameStructs(sym, s, args, isMut, copying, i + 1, rest, f);
      } else {
        PlanNamesStructs(sym, fty, copying, fields[0].plan, f);
      }
    }
  }

  lemma OwnNamesStructs(sym: Symbols, f: CopyFn)
    ensures OwnPlan(sym, f).Some? ==> Mentions(OwnPlan(sym, f).value) <= StructFns(sym)
  {
    if OwnPlan(sym, f).Some? {
      forall g | g in Mentions(OwnPlan(sym, f).value)
        ensures g in StructFns(sym)
      {
        PlanNamesStructs(sym, OwnTy(f.name, f.mutable), [], OwnPlan(sym, f).value, g);
        assert g == CopyFn(g.name, g.mutable);
      }
    }
  }

  // ---- the emitter

  /** What the module emitters share. */
  class Emitter {
    const program: Program
    var requested: set<CopyFn>
    var generated: set<Placed>

    constructor (program: Program)
      ensures this.program == program && requested == {} && generated == {}
    {
      this.program, requested, generated := program, {}, {};
    }

    /** Rendering a plan asks for the copy functions it calls. */
    method Render(p: CopyPlan)
      modifies this`requested
      ensures requested == old(requested) + Mentions(p)
      decreases p
    {
      match p {
        case Recur(name, isMut) => requested := requested + {CopyFn(name, isMut)};
        case Elements(_, _, elem) => Render(elem);
        case Keyed(value) => Render(value);
        case StructCopy(_, fields) =>
          assert fields[..0] == [];
          for i := 0 to |fields|
            invariant requested == old(requested) + FieldsMention(fields[..i])
          {
            Render(fields[i].plan);
            FieldsMentionOne(fields, i);
          }
          assert fields[..|fields|] == fields;
        case _ =>
      }
    }

    /** Everything asked for by the end of the first `n` modules is requested, and nothing else. */
    ghost predicate RequestsRight(n: nat)
      reads this
    {
      forall f :: f in requested <==> Asked(program, n, f)
    }

    /** The file of a module holds a function exactly where one of the first `n` modules is it and
        generates the function. */
    ghost predicate GeneratedRight(n: nat)
      reads this
      requires n <= |program.modules|
    {
      forall path, f :: Placed(path, f) in generated <==>
        exists k :: 0 <= k < n && program.modules[k].path == path && GeneratedAt(program, k, f)
    }

    /** A module's declarations: each copy is rendered. */
    method EmitDeclarations(k: nat)
      requires k < |program.modules|
      modifies this`requested
      ensures requested == old(requested) + AllMentions(program.modules[k].copies)
    {
      var copies := program.modules[k].copies;
      for i := 0 to |copies|
        invariant requested == old(requested) + AllMentions(copies[..i])
      {
        Render(copies[i]);
        assert copies[..i + 1][..i] == copies[..i];
      }
      assert copies[..|copies|] == copies;
    }

    /** What the end of a module keeps: only what is asked for is requested, and what is done of the
        module's own is generated, and has asked for what it calls. */
    ghost predicate EndInv(k: nat, before: set<Placed>, done: set<CopyFn>)
      reads this
      requires k < |program.modules|
    {
      && done <= requested
      && (forall f :: f in requested ==> Asked(program, k + 1, f))
      && (forall f :: f in done && RenderedAt(program, program.modules[k].path, f) ==>
           Mentions(OwnPlan(program.symbols, f).value) <= requested)
      && (forall x :: x in generated <==> (x in before || DoneAt(k, done, x)))
    }

    predicate DoneAt(k: nat, done: set<CopyFn>, x: Placed)
      requires k < |program.modules|
    {
      x.path == program.modules[k].path && x.fn in done && RenderedAt(program, x.path, x.fn)
    }

    /** A requested function, at the end of a module: passed over unless it is the module's own and
        has a plan, else rendered, which may ask for others. */
    method EmitFunction(k: nat, f: CopyFn, ghost before: set<Placed>, ghost done: set<CopyFn>)
      requires k < |program.modules| && f in requested && EndInv(k, before, done)
      modifies this
      ensures EndInv(k, before, done + {f})
      ensures old(requested) <= requested <= old(requested) + StructFns(program.symbols)
    {
      var path := program.modules[k].path;
      if f.name in program.homes && program.homes[f.name] != path { return; }
      var plan := OwnPlan(program.symbols, f);
      if plan.None? { return; }
      OwnNamesStructs(program.symbols, f);
      forall g | g in Mentions(plan.value) ensures Asked(program, k + 1, g) { AskedByFunction(program, k, f, g); }
      Render(plan.value);
      generated := generated + {Placed(path, f)};
    }

    /** The end of a module: the requests, in whatever order, those the rendering adds included. */
    method EmitFunctions(k: nat)
      requires k < |program.modules| && (forall f :: f in requested ==> Asked(program, k + 1, f))
      modifies this
      ensures EndInv(k, old(generated), requested) && old(requested) <= requested
    {
      ghost var all := requested + StructFns(program.symbols);
      var done: set<CopyFn> := {};
      while requested - done != {}
        invariant EndInv(k, old(generated), done) && old(requested) <= requested <= all
        decreases all - done
      {
        var f :| f in requested - done;
        EmitFunction(k, f, old(generated), done);
        done := done + {f};
      }
      assert done + (requested - done) == requested;
      assert done + {} == done;
    }

    method EmitModule(k: nat)
      requires k < |program.modules| && RequestsRight(k) && GeneratedRight(k)
      modifies this
      ensures RequestsRight(k + 1) && GeneratedRight(k + 1)
    {
      EmitDeclarations(k);
      forall f | f in requested
        ensures Asked(program, k + 1, f)
      {
        if f in old(requested) { AskedLater(program, k, k + 1, f); } else { AskedByCopy(program, k, f); }
      }
      EmitFunctions(k);
      forall f | Asked(program, k + 1, f)
        ensures f in requested
      {
        var c: seq<Ask> :| EndsIn(program, c, k + 1, f);
        ClosedHoldsAsked(program, k, requested, c, f);
      }
      forall path, f
        ensures Placed(path, f) in generated <==>
          exists j :: 0 <= j < k + 1 && program.modules[j].path == path && GeneratedAt(program, j, f)
      {
        assert Placed(path, f) in generated <==> Placed(path, f) in old(generated) || (program.modules[k].path == path && GeneratedAt(program, k, f));
      }
    }
  }

  lemma {:induction false} FieldsMentionOne(fields: seq<FieldPlan>, i: nat)
    requires i < |fields|
    ensures FieldsMention(fields[..i + 1]) == FieldsMention(fields[..i]) + Mentions(fields[i].plan)
    decreases i
  {
    if i == 0 {
      var one := fields[..1];
      assert one[1..] == fields[..0] && fields[..0] == [];
    } else {
      FieldsMentionOne(fields[1..], i - 1);
      assert fields[..i + 1][1..] == fields[1..][..i] && fields[..i][1..] == fields[1..][..i - 1];
    }
  }

  /** A module's file holds a copy function if and only if it is the module's own, has a plan, and
      is asked for by the end of the module. */
  ghost predicate Emitted(program: Program, generated: set<Placed>) {
    forall path, f :: Placed(path, f) in generated <==>
      exists k :: 0 <= k < |program.modules| && program.modules[k].path == path && GeneratedAt(program, k, f)
  }

  /** A compilation, module by module. */
  method Emit(program: Program) returns (generated: set<Placed>)
    ensures Emitted(program, generated)
  {
    var emitter := new Emitter(program);
    for k := 0 to |program.modules|
      invariant fresh(emitter) && emitter.program == program
      invariant emitter.RequestsRight(k) && emitter.GeneratedRight(k)
    {
      emitter.EmitModule(k);
    }
    return emitter.generated;
  }

  // ---- copies in what was emitted

  /** The functions that are where their calls go: in the file of the struct's module. */
  function Callable(program: Program, generated: set<Placed>): set<CopyFn> {
    set x | x in generated && x.fn.name in program.homes && program.homes[x.fn.name] == x.path :: x.fn
  }

  lemma CallableExactly(program: Program, generated: set<Placed>, f: CopyFn)
    requires Emitted(program, generated)
    ensures f in Callable(program, generated) <==> Generated(program, f)
  {
    if f.name in program.homes {
      var x := Placed(program.homes[f.name], f);
      assert f in Callable(program, generated) <==> x in generated;
      assert x in generated <==>
        exists k :: 0 <= k < |program.modules| && program.modules[k].path == x.path && GeneratedAt(program, k, f);
      if k: nat :| GeneratedAt(program, k, f) { assert program.modules[k].path == x.path; }
    }
  }

  /** Asked for, by a copy or by a function generated by then, no later than the end of a module at
      the path of the struct's home. */
  ghost predicate AskedInTime(program: Program, f: CopyFn)
    requires f.name in program.homes
  {
    exists k: nat :: k < |program.modules| && program.modules[k].path == program.homes[f.name] && Asked(program, k + 1, f)
  }

  /** A struct's function is generated if and only if it has a plan and is asked for, by a copy or
      by a function generated by then, no later than the end of the struct's own module. */
  lemma GeneratedExactly(program: Program, f: CopyFn)
    requires HomesKnown(program) && f.name in program.symbols.structs
    ensures Generated(program, f) <==> OwnPlan(program.symbols, f).Some? && AskedInTime(program, f)
  {
    if k: nat :| GeneratedAt(program, k, f) {
      assert program.modules[k].path == program.homes[f.name] && Asked(program, k + 1, f);
    }
    if k: nat :| k < |program.modules| && program.modules[k].path == program.homes[f.name] && Asked(program, k + 1, f) {
      assert OwnPlan(program.symbols, f).Some? ==> GeneratedAt(program, k, f);
    }
  }

  /** In an emitted program, a plan made for a type that can be trusted runs to its end on a value
      of the type if and only if every copy function the run arrives at was generated. */
  lemma CopyEndsExactly(program: Program, generated: set<Placed>, p: CopyPlan, v: Val, next: nat)
    requires Emitted(program, generated) && MadeFor(program.symbols, p, v)
    ensures Run(program.symbols, Callable(program, generated), p, v, next).Some? <==>
      forall f :: f in Calls(program.symbols, p, v) ==> Generated(program, f)
  {
    RunEndsExactly(program.symbols, Callable(program, generated), p, v, next);
    forall f | f in Calls(program.symbols, p, v)
      ensures f in Callable(program, generated) <==> Generated(program, f)
    {
      CallableExactly(program, generated, f);
    }
  }

  /** The home of each function a plan needs is emitted at `at`, no earlier than the module `z` of
      the copy, and no earlier than that of a function calling it. */
  ghost predicate InOrder(program: Program, z: nat, at: CopyFn -> nat, p: CopyPlan) {
    && z < |program.modules| && p in program.modules[z].copies
    && (forall f :: Needed(program.symbols, p, f) ==>
         && z <= at(f) < |program.modules| && f.name in program.homes
         && RenderedAt(program, program.modules[at(f)].path, f))
    && (forall f, g :: Needed(program.symbols, p, f) && Needed(program.symbols, p, g) && Leads(program.symbols, f, g) ==> at(f) <= at(g))
  }

  lemma {:induction false} CopiesMention(copies: seq<CopyPlan>, p: CopyPlan)
    requires p in copies
    ensures Mentions(p) <= AllMentions(copies)
  {
    if p != copies[|copies| - 1] {
      assert copies == copies[..|copies| - 1] + [copies[|copies| - 1]];
      CopiesMention(copies[..|copies| - 1], p);
    }
  }

  lemma FirstIsGenerated(program: Program, z: nat, at: CopyFn -> nat, p: CopyPlan, f: CopyFn)
    requires InOrder(program, z, at, p) && Needed(program.symbols, p, f) && f in Mentions(p)
    ensures GeneratedAt(program, at(f), f)
  {
    CopiesMention(program.modules[z].copies, p);
    AskedByCopy(program, z, f);
    AskedLater(program, z + 1, at(f) + 1, f);
  }

  lemma NextIsGenerated(program: Program, z: nat, at: CopyFn -> nat, p: CopyPlan, g: CopyFn, f: CopyFn)
    requires InOrder(program, z, at, p) && Needed(program.symbols, p, g) && Needed(program.symbols, p, f)
    requires Leads(program.symbols, g, f) && GeneratedAt(program, at(g), g)
    ensures GeneratedAt(program, at(f), f)
  {
    AskedByFunction(program, at(g), g, f);
    AskedLater(program, at(g) + 1, at(f) + 1, f);
  }

  lemma {:induction false} ChainIsGenerated(program: Program, z: nat, at: CopyFn -> nat, p: CopyPlan, c: seq<CopyFn>)
    requires InOrder(program, z, at, p) && Chain(program.symbols, p, c)
    ensures Needed(program.symbols, p, c[|c| - 1]) && GeneratedAt(program, at(c[|c| - 1]), c[|c| - 1])
    decreases |c|
  {
    if |c| == 1 {
      FirstIsGenerated(program, z, at, p, c[0]);
    } else {
      assert Leads(program.symbols, c[|c| - 2], c[|c| - 2 + 1]);
      ShorterChain(program.symbols, p, c);
      ChainIsGenerated(program, z, at, p, c[..|c| - 1]);
      NextIsGenerated(program, z, at, p, c[|c| - 2], c[|c| - 1]);
    }
  }

  lemma ShorterChain(sym: Symbols, p: CopyPlan, c: seq<CopyFn>)
    requires Chain(sym, p, c) && |c| > 1
    ensures Chain(sym, p, c[..|c| - 1])
  {
    var init := c[..|c| - 1];
    forall i | 0 <= i < |init| - 1 ensures Leads(sym, init[i], init[i + 1]) { assert Leads(sym, c[i], c[i + 1]); }
  }

  /** A copy whose needed functions were all generated ends on every value of its type. */
  lemma NeededCopyEnds(program: Program, generated: set<Placed>, p: CopyPlan, v: Val, next: nat)
    requires Emitted(program, generated) && MadeFor(program.symbols, p, v)
    requires forall f :: Needed(program.symbols, p, f) ==> Generated(program, f)
    ensures Run(program.symbols, Callable(program, generated), p, v, next).Some?
  {
    forall f | f in Calls(program.symbols, p, v) ensures Generated(program, f) { CallsAreNeeded(program.symbols, p, v, f); }
    CopyEndsExactly(program, generated, p, v, next);
  }

  /** As they are where homes are emitted in order. */
  lemma OrderedCopyEnds(program: Program, generated: set<Placed>, z: nat, at: CopyFn -> nat, p: CopyPlan, v: Val, next: nat)
    requires Emitted(program, generated) && MadeFor(program.symbols, p, v) && InOrder(program, z, at, p)
    ensures Run(program.symbols, Callable(program, generated), p, v, next).Some?
  {
    forall f | Needed(program.symbols, p, f)
      ensures Generated(program, f)
    {
      var c :| Chain(program.symbols, p, c) && c[|c| - 1] == f;
      ChainIsGenerated(program, z, at, p, c);
    }
    NeededCopyEnds(program, generated, p, v, next);
  }

  /** So a copy ends, wherever its module stands, if all the structs it needs functions of are the
      module's own and have plans. */
  lemma OwnCopyEnds(program: Program, generated: set<Placed>, z: nat, p: CopyPlan, v: Val, next: nat)
    requires Emitted(program, generated) && MadeFor(program.symbols, p, v)
    requires z < |program.modules| && p in program.modules[z].copies
    requires forall f :: Needed(program.symbols, p, f) ==>
      f.name in program.homes && program.homes[f.name] == program.modules[z].path && OwnPlan(program.symbols, f).Some?
    ensures Run(program.symbols, Callable(program, generated), p, v, next).Some?
  {
    OrderedCopyEnds(program, generated, z, f => z, p, v, next);
  }
}
