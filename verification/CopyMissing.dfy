/** A plan that calls a copy function no backend generates: the struct's `Mut` values have no plan. */
module CopyMissing {
  import opened Basics
  import opened SalvoTypes
  import opened Immutable
  import opened CopyValues
  import opened CopyPlans
  import opened CopySoundness
  import opened CopyTheorem
  import opened CopySafety
  import opened CopyFunctions

  const NAMES: TypeName := Key("Names", "m")
  const TEAM: TypeName := Key("Team", "m")
  const LIST_OF_STR: Ty := Named(List, [Named(Str, [])])
  const MUT_TEAM: Ty := Qualified([Mut], Named(TEAM, []))
  const KIDS: Ty := Named(List, [MUT_TEAM])
  const TEAM_DECL: StructDecl :=
    StructDecl("Team", [], [Field("names", Named(NAMES, []), true), Field("kids", KIDS, false)])

  /** `type Names = List<Str>` and `struct Team canbe Mut { names: Names canbe Mut, kids: List<Mut Team> }`. */
  function TeamTable(): Symbols {
    Symbols(
      map[TEAM := TEAM_DECL],
      map[NAMES := LIST_OF_STR],
      map[List := IntrinsicDecl(true, false, true), Deque := IntrinsicDecl(true, false, true)])
  }

  function NameList(id: nat, isMut: bool): Val {
    Obj(id, isMut, 0, [])
  }

  /** A team of `isMut` with no names over the given kids. */
  function TeamOf(id: nat, isMut: bool, names: nat, kids: Val): Val {
    Obj(id, isMut, 0, [Slot(FieldOf("names"), NameList(names, isMut)), Slot(FieldOf("kids"), kids)])
  }

  function Kid(): Val {
    TeamOf(3, true, 4, Obj(5, false, 0, []))
  }

  function Kids(): Val {
    Obj(2, false, 0, [Slot(Elem, Kid())])
  }

  /** A team with no names and one nameless kid. */
  function Team(): Val {
    TeamOf(0, false, 1, Kids())
  }

  lemma TeamTableIsATable()
    ensures CopyTables(TeamTable())
  {
    assert TeamTable().structs.Keys == {TEAM} && TeamTable().aliases.Keys == {NAMES};
    assert TEAM_DECL.fields[0].name[0] == 'n' && TEAM_DECL.fields[1].name[0] == 'k';
  }

  lemma TeamFields(args: seq<Ty>)
    ensures PlainFieldTy(TEAM_DECL, args, 0) == Named(NAMES, []) && PlainFieldTy(TEAM_DECL, args, 1) == KIDS
    ensures AliasTarget(TeamTable(), NAMES) == LIST_OF_STR
  {
    assert Zip([], args) == map[];
    assert Approx(MUT_TEAM, map[]) == MUT_TEAM;
    assert Approx(KIDS, map[]).args == [MUT_TEAM];
    assert Approx(LIST_OF_STR, map[]).args == [Named(Str, [])];
  }

  /** Every condition of the theorem holds of `Team`. */
  lemma TeamIsTame()
    ensures Tame(TeamTable(), Named(TEAM, []))
  {
    var sym, ty := TeamTable(), Named(TEAM, []);
    TeamTableIsATable();
    NonGenericIsRegular(sym, ty);
    assert DeclNames(sym) == {TEAM, NAMES};
    assert "Team"[0] == 'T' && "Names"[0] == 'N';
    OwnStructsCopySoundly(sym, ty);
  }

  lemma NamesAreImmutable(visiting: seq<TypeName>)
    ensures IsImmutable(TeamTable(), Named(NAMES, []), visiting)
  {
    TeamFields([]);
    TeamTableIsATable();
    if NAMES !in visiting { EnteringShrinks(TeamTable(), visiting, NAMES); }
    assert IsImmutable(TeamTable(), Named(Str, []), visiting + [NAMES]);
  }

  lemma KidsAreMutable(visiting: seq<TypeName>)
    ensures !IsImmutable(TeamTable(), MUT_TEAM, visiting) && !IsImmutable(TeamTable(), KIDS, visiting)
    ensures TEAM !in visiting ==> !IsImmutable(TeamTable(), Named(TEAM, []), visiting)
  {
    TeamTableIsATable();
    TeamFields([]);
    assert MUT_TEAM in KIDS.args;
    assert Parts(TeamTable(), Named(TEAM, []))[1] == KIDS;
    if TEAM !in visiting && IsImmutable(TeamTable(), Named(TEAM, []), visiting) {
      ImmutablePart(TeamTable(), Named(TEAM, []), visiting, KIDS);
      ImmutablePart(TeamTable(), KIDS, visiting + [TEAM], MUT_TEAM);
    }
  }

  lemma KidsPlan()
    ensures Plan(TeamTable(), KIDS, [TEAM]) == Some(Elements(false, false, Recur(TEAM, true)))
  {
    KidsAreMutable([]);
    assert Plan(TeamTable(), MUT_TEAM, [TEAM]) == Some(Recur(TEAM, true)) by {
      assert HasMut(MUT_TEAM) && StripQuals(MUT_TEAM) == Named(TEAM, []);
    }
    ListPlanned(TeamTable(), MUT_TEAM, [TEAM], Recur(TEAM, true));
  }

  const KIDS_PLAN: FieldPlan := FieldPlan("kids", Elements(false, false, Recur(TEAM, true)))

  lemma TeamStructPlan()
    ensures StructPlan(TeamTable(), TEAM_DECL, [], false, [TEAM], 0) == Some([KIDS_PLAN])
  {
    TeamFields([]);
    KidsAreMutable([PlainKey("Team")]);
    NamesAreImmutable([PlainKey("Team")]);
    KidsPlan();
    FieldPlanned(TeamTable(), TEAM_DECL, [], false, [TEAM], 1, KIDS_PLAN.plan, []);
    assert [KIDS_PLAN] + [] == [KIDS_PLAN];
  }

  lemma TeamPlan()
    ensures CopyPlanOf(TeamTable(), Named(TEAM, [])) == Some(StructCopy("Team", [KIDS_PLAN]))
  {
    TeamTableIsATable();
    KidsAreMutable([]);
    TeamStructPlan();
    assert [] + [TEAM] == [TEAM];
    StructPlanned(TeamTable(), TEAM, [], false, []);
  }

  /** `Mut Names` is no struct, so nothing copies it, nor a `Mut Team`. */
  lemma MutNamesHaveNoPlan(copying: seq<TypeName>)
    ensures Plan(TeamTable(), Qualified([Mut], Named(NAMES, [])), copying) == None
  {
    TeamTableIsATable();
    var ty := Qualified([Mut], Named(NAMES, []));
    assert HasMut(ty) && StripQuals(ty) == Named(NAMES, []);
  }

  lemma MutTeamHasNoPlan()
    ensures CopyPlanOf(TeamTable(), OwnTy(TEAM, true)) == None
  {
    var sym, names := TeamTable(), Qualified([Mut], Named(NAMES, []));
    TeamTableIsATable();
    TeamFields([]);
    KidsAreMutable([]);
    MutNamesHaveNoPlan([TEAM]);
    assert FieldTy(TEAM_DECL, [], true, 0) == names && !IsImmutable(sym, names, [PlainKey("Team")]);
    assert StructPlan(sym, TEAM_DECL, [], true, [TEAM], 0) == None;
    assert [] + [TEAM] == [TEAM];
    StructPlanned(sym, TEAM, [], true, []);
  }

  lemma NamesHaveType(id: nat, isMut: bool)
    ensures HasType(TeamTable(), Named(NAMES, []), isMut, NameList(id, isMut), {})
  {
    TeamTableIsATable();
    TeamFields([]);
    assert AliasesLeft(TeamTable(), {}, NAMES);
    assert HasType(TeamTable(), LIST_OF_STR, isMut, NameList(id, isMut), {} + {NAMES});
  }

  lemma NamesFieldTyped(id: nat, isMut: bool, names: nat, kids: Val)
    ensures FieldTyped(TeamTable(), TEAM_DECL, [], isMut, TeamOf(id, isMut, names, kids), 0)
  {
    TeamFields([]);
    NamesHaveType(names, isMut);
    StrippedType(TeamTable(), FieldTy(TEAM_DECL, [], isMut, 0), NameList(names, isMut));
  }

  lemma TeamOfHasType(id: nat, isMut: bool, names: nat, kids: Val)
    requires HasType(TeamTable(), KIDS, false, kids, {})
    ensures HasType(TeamTable(), Named(TEAM, []), isMut, TeamOf(id, isMut, names, kids), {})
  {
    TeamTableIsATable();
    TeamFields([]);
    NamesFieldTyped(id, isMut, names, kids);
    assert FieldTyped(TeamTable(), TEAM_DECL, [], isMut, TeamOf(id, isMut, names, kids), 1);
    StructHasType(TeamTable(), TEAM, [], isMut, TeamOf(id, isMut, names, kids));
  }

  lemma TeamHasType()
    ensures HasType(TeamTable(), Named(TEAM, []), false, Team(), {})
  {
    TeamTableIsATable();
    ListHasType(TeamTable(), MUT_TEAM, Obj(5, false, 0, []));
    TeamOfHasType(3, true, 4, Obj(5, false, 0, []));
    StrippedType(TeamTable(), MUT_TEAM, Kid());
    ListHasType(TeamTable(), MUT_TEAM, Kids());
    TeamOfHasType(0, false, 1, Kids());
  }

  lemma TeamIsAllocated()
    ensures IdsBelow(Team(), 6)
  {
    assert IdsBelow(NameList(4, true), 6) && IdsBelow(Obj(5, false, 0, []), 6) && IdsBelow(Kid(), 6) && IdsBelow(Kids(), 6);
  }

  lemma KidsCall()
    ensures CopyFn(TEAM, true) in Calls(TeamTable(), KIDS_PLAN.plan, Kids())
  {
    assert CopyFn(TEAM, true) in Calls(TeamTable(), Recur(TEAM, true), Kid());
    SlotCalls(TeamTable(), AllSlots(Recur(TEAM, true)), Kids(), 0, 0, Recur(TEAM, true), CopyFn(TEAM, true));
  }

  lemma KidIsCalled()
    ensures CopyFn(TEAM, true) in Calls(TeamTable(), StructCopy("Team", [KIDS_PLAN]), Team())
  {
    KidsCall();
    assert [KIDS_PLAN][0].field == "kids";
    SlotCalls(TeamTable(), Fields([KIDS_PLAN]), Team(), 0, 1, KIDS_PLAN.plan, CopyFn(TEAM, true));
  }

  /** `Team` has a plan that calls the copy function of `Mut Team`, which has none: whatever
      functions were generated, a copy of a team with a kid has nothing to call. */
  lemma MissingCopyFunction(fns: set<CopyFn>)
    ensures var sym, ty := TeamTable(), Named(TEAM, []);
      && CopyTables(sym) && Tame(sym, ty) && HasType(sym, ty, false, Team(), {}) && IdsBelow(Team(), 6)
      && CopyPlanOf(sym, ty).Some? && Run(sym, fns, CopyPlanOf(sym, ty).value, Team(), 6) == None
      && CopyFn(TEAM, true) in Calls(sym, CopyPlanOf(sym, ty).value, Team()) && OwnPlan(sym, CopyFn(TEAM, true)) == None
  {
    var sym, ty := TeamTable(), Named(TEAM, []);
    TeamTableIsATable();
    TeamIsTame();
    TeamHasType();
    TeamIsAllocated();
    TeamPlan();
    MutTeamHasNoPlan();
    KidIsCalled();
    assert Ready(sym, ty, [], CopyPlanOf(sym, ty).value, Team());
    RunEndsExactly(sym, fns, CopyPlanOf(sym, ty).value, Team(), 6);
  }
}
