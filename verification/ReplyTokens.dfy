/** One-shot reply tokens: minted, taken out, sent, handed to the host and exported, in any order
    and on any threads, each step atomic under the token's mutex. */
module ReplyTokens {
  import opened Basics

  type Id = nat
  type Token = nat

  /** What a reply's mutex guards. */
  datatype Cell = Here(token: Token) | Taken | Elsewhere

  /** Who has a reply. `Sending` and `Ending` are the host's send before and after the answer;
      the last two are sends that panicked with the outside source open. */
  datatype Phase = Owned | Hosted | Sending | Ending | Gone | StuckElsewhere | StuckTaken

  datatype Reply = Reply(cell: Cell, checked: bool, phase: Phase)

  /** `inHand` are tokens taken out and not yet answered; `open` counts the outside sources. */
  datatype State = State(replies: map<Id, Reply>, inHand: multiset<Token>, answered: multiset<Token>, exported: multiset<Token>, open: int)

  datatype Step =
    | Mint(id: Id, token: Token, checked: bool)
    | ImportElsewhere(id: Id, checked: bool)
    | TakeLocal(id: Id)
    | AnswerInHand(token: Token)
    | Send(id: Id, refused: bool)
    | HandOver(id: Id)
    | Export(id: Id)
    | HostRefused(id: Id)
    | HostTakes(id: Id)
    | HostAnswers(id: Id)
    | HostEnds(id: Id)
    | HostDrops(id: Id)

  const START := State(map[], multiset{}, multiset{}, multiset{}, 0)

  function Put(s: State, id: Id, r: Reply): State {
    s.(replies := s.replies[id := r])
  }

  ghost predicate In(s: State, id: Id, phase: Phase) {
    id in s.replies && s.replies[id].phase == phase
  }

  /** Every token there is: in a reply, in hand, answered or exported. */
  ghost predicate Known(s: State, t: Token) {
    t in s.inHand || t in s.answered || t in s.exported || exists id :: id in s.replies && s.replies[id].cell == Here(t)
  }

  ghost predicate Enabled(s: State, step: Step) {
    match step
    case Mint(id, t, _) => id !in s.replies && !Known(s, t)
    case ImportElsewhere(id, _) => id !in s.replies
    case TakeLocal(id) => In(s, id, Owned)
    case AnswerInHand(t) => t in s.inHand
    case Send(id, refused) => In(s, id, Owned) && (refused ==> s.replies[id].checked)
    case HandOver(id) => In(s, id, Owned)
    case Export(id) => In(s, id, Owned)
    case HostRefused(id) => In(s, id, Hosted) && s.replies[id].checked
    case HostTakes(id) => In(s, id, Hosted)
    case HostAnswers(id) => In(s, id, Sending)
    case HostEnds(id) => In(s, id, Ending)
    case HostDrops(id) => In(s, id, Hosted)
  }

  /** Where a reply's token goes when a step takes it out. */
  datatype Destination = Stays | ToHand | ToAnswered | ToExported

  /** What a step does to one reply, to its token, and to the outside sources. */
  datatype Change = Change(reply: Reply, to: Destination, sources: int)

  /** The step of a reply that exists. */
  function Effect(r: Reply, step: Step): Change {
    match step
    case TakeLocal(_) => if r.cell.Here? then Change(r.(cell := Taken), ToHand, 0) else Change(r, Stays, 0)
    case Send(_, refused) =>
      // A refused value and a token not here both panic, and the reply is gone unanswered.
      if !refused && r.cell.Here? then Change(r.(cell := Taken, phase := Gone), ToAnswered, 0)
      else Change(r.(phase := Gone), Stays, 0)
    case HandOver(_) => Change(r.(phase := Hosted), Stays, 1)
    case Export(_) => if r.cell.Here? then Change(r.(cell := Taken), ToExported, 0) else Change(r, Stays, 0)
    case HostRefused(_) =>
      // The check panics before the reply is taken out: dropping it closes the source.
      Change(r.(phase := Gone), Stays, -1)
    case HostTakes(_) => Change(r.(phase := Sending), Stays, 0)
    case HostAnswers(_) =>
      // Past this point a panic finds the host reply already empty, and closes nothing.
      if r.cell.Here? then Change(r.(cell := Taken, phase := Ending), ToAnswered, 0)
      else Change(r.(phase := if r.cell.Elsewhere? then StuckElsewhere else StuckTaken), Stays, 0)
    case HostEnds(_) => Change(r.(phase := Gone), Stays, -1)
    case HostDrops(_) => Change(r.(phase := Gone), Stays, -1)
    case _ => Change(r, Stays, 0)
  }

  function One(cell: Cell, wanted: bool): multiset<Token> {
    if wanted && cell.Here? then multiset{cell.token} else multiset{}
  }

  function Do(s: State, id: Id, c: Change): State
    requires id in s.replies
  {
    var cell := s.replies[id].cell;
    State(s.replies[id := c.reply], s.inHand + One(cell, c.to.ToHand?), s.answered + One(cell, c.to.ToAnswered?),
      s.exported + One(cell, c.to.ToExported?), s.open + c.sources)
  }

  ghost function Next(s: State, step: Step): State
    requires Enabled(s, step)
  {
    match step
    case Mint(id, t, checked) => Put(s, id, Reply(Here(t), checked, Owned))
    case ImportElsewhere(id, checked) => Put(s, id, Reply(Elsewhere, checked, Owned))
    case AnswerInHand(t) => s.(inHand := s.inHand - multiset{t}, answered := s.answered + multiset{t})
    case _ => Do(s, step.id, Effect(s.replies[step.id], step))
  }

  // ---- counting phases

  ghost function At(s: State, phase: Phase): set<Id> {
    set id | id in s.replies && s.replies[id].phase == phase
  }

  /** Replies with an outside source: with the host, in the middle of its send, or stuck there. */
  ghost function Sources(s: State): int {
    |At(s, Hosted)| + |At(s, Sending)| + |At(s, Ending)| + |At(s, StuckElsewhere)| + |At(s, StuckTaken)|
  }

  predicate HasSource(phase: Phase) {
    phase.Hosted? || phase.Sending? || phase.Ending? || phase.StuckElsewhere? || phase.StuckTaken?
  }

  lemma MovedOut(s: State, id: Id, r: Reply, phase: Phase)
    requires id in s.replies
    ensures |At(Put(s, id, r), phase)| ==
      |At(s, phase)| + (if r.phase == phase then 1 else 0) - (if s.replies[id].phase == phase then 1 else 0)
  {
    var before, after := At(s, phase), At(Put(s, id, r), phase);
    AtAfterPut(s, id, r, phase);
    OneMore(before, id);
    OneLess(before, id);
  }

  lemma AtAfterPut(s: State, id: Id, r: Reply, phase: Phase)
    requires id in s.replies
    ensures id in At(s, phase) <==> s.replies[id].phase == phase
    ensures At(Put(s, id, r), phase) == if r.phase == phase then At(s, phase) + {id} else At(s, phase) - {id}
  {}

  lemma OneMore(ids: set<Id>, id: Id)
    ensures id in ids ==> ids + {id} == ids
    ensures id !in ids ==> |ids + {id}| == |ids| + 1
  {}

  lemma OneLess(ids: set<Id>, id: Id)
    ensures id !in ids ==> ids - {id} == ids
    ensures id in ids ==> |ids - {id}| == |ids| - 1
  {}

  lemma MovedIn(s: State, id: Id, r: Reply, phase: Phase)
    requires id !in s.replies && r.phase == Owned && phase != Owned
    ensures At(Put(s, id, r), phase) == At(s, phase)
  {}

  lemma SourcesMove(s: State, id: Id, r: Reply)
    requires id in s.replies
    ensures Sources(Put(s, id, r)) == Sources(s) + (if HasSource(r.phase) then 1 else 0) - (if HasSource(s.replies[id].phase) then 1 else 0)
  {
    MovedOut(s, id, r, Hosted);
    MovedOut(s, id, r, Sending);
    MovedOut(s, id, r, Ending);
    MovedOut(s, id, r, StuckElsewhere);
    MovedOut(s, id, r, StuckTaken);
  }

  lemma SourcesStart(s: State, id: Id, r: Reply)
    requires id !in s.replies && r.phase == Owned
    ensures Sources(Put(s, id, r)) == Sources(s)
  {
    MovedIn(s, id, r, Hosted);
    MovedIn(s, id, r, Sending);
    MovedIn(s, id, r, Ending);
    MovedIn(s, id, r, StuckElsewhere);
    MovedIn(s, id, r, StuckTaken);
  }

  // ---- one place for every token

  ghost function Spent(s: State): multiset<Token> {
    s.inHand + s.answered + s.exported
  }

  ghost predicate OnePlace(s: State) {
    && (forall t :: Spent(s)[t] <= 1)
    && (forall id :: id in s.replies && s.replies[id].cell.Here? ==> Spent(s)[s.replies[id].cell.token] == 0)
    && (forall a, b :: a in s.replies && b in s.replies && s.replies[a].cell.Here? && s.replies[a].cell == s.replies[b].cell ==> a == b)
  }

  /** A step accounts for what it does: a token goes where its reply lets go of it, and a source
      is counted when a reply comes to have one. */
  lemma EffectsAddUp(s: State, step: Step)
    requires Enabled(s, step) && !step.Mint? && !step.ImportElsewhere? && !step.AnswerInHand?
    ensures step.id in s.replies
    ensures var r := s.replies[step.id];
      var c := Effect(r, step);
      && (if c.to.Stays? then c.reply.cell == r.cell else r.cell.Here? && c.reply.cell == Taken)
      && c.sources == (if HasSource(c.reply.phase) then 1 else 0) - (if HasSource(r.phase) then 1 else 0)
  {}

  lemma DoKeepsOnePlace(s: State, id: Id, c: Change)
    requires OnePlace(s) && id in s.replies
    requires if c.to.Stays? then c.reply.cell == s.replies[id].cell else s.replies[id].cell.Here? && c.reply.cell == Taken
    ensures OnePlace(Do(s, id, c))
  {
    var s2 := Do(s, id, c);
    assert Spent(s2) == Spent(s) + One(s.replies[id].cell, !c.to.Stays?);
  }

  lemma KeepsOnePlace(s: State, step: Step)
    requires OnePlace(s) && Enabled(s, step)
    ensures OnePlace(Next(s, step))
  {
    if step.Mint? || step.ImportElsewhere? {
      assert Spent(Next(s, step)) == Spent(s);
    } else if step.AnswerInHand? {
      assert Spent(Next(s, step)) == Spent(s);
    } else {
      EffectsAddUp(s, step);
      DoKeepsOnePlace(s, step.id, Effect(s.replies[step.id], step));
    }
  }

  lemma DoKeepsSources(s: State, id: Id, c: Change)
    requires s.open == Sources(s) && id in s.replies
    requires c.sources == (if HasSource(c.reply.phase) then 1 else 0) - (if HasSource(s.replies[id].phase) then 1 else 0)
    ensures Do(s, id, c).open == Sources(Do(s, id, c))
  {
    SourcesMove(s, id, c.reply);
    SameSources(Put(s, id, c.reply), Do(s, id, c));
  }

  lemma SameSources(s: State, s2: State)
    requires s.replies == s2.replies
    ensures Sources(s) == Sources(s2)
  {
    assert forall phase :: At(s, phase) == At(s2, phase);
  }

  lemma KeepsSources(s: State, step: Step)
    requires s.open == Sources(s) && Enabled(s, step)
    ensures Next(s, step).open == Sources(Next(s, step))
  {
    if step.Mint? || step.ImportElsewhere? {
      SourcesStart(s, step.id, Next(s, step).replies[step.id]);
    } else if step.AnswerInHand? {
      SameSources(s, Next(s, step));
    } else {
      EffectsAddUp(s, step);
      DoKeepsSources(s, step.id, Effect(s.replies[step.id], step));
    }
  }

  // ---- runs

  /** The state after a run, if every step could be taken. */
  ghost function After(steps: seq<Step>): Option<State> {
    if steps == [] then Some(START)
    else
      var before := After(steps[..|steps| - 1]);
      if before.None? || !Enabled(before.value, steps[|steps| - 1]) then None
      else Some(Next(before.value, steps[|steps| - 1]))
  }

  lemma {:induction false} RunKeeps(steps: seq<Step>)
    requires After(steps).Some?
    ensures OnePlace(After(steps).value) && After(steps).value.open == Sources(After(steps).value)
  {
    if steps == [] {
      assert forall phase :: At(START, phase) == {};
    } else {
      RunKeeps(steps[..|steps| - 1]);
      var before := After(steps[..|steps| - 1]).value;
      KeepsOnePlace(before, steps[|steps| - 1]);
      KeepsSources(before, steps[|steps| - 1]);
    }
  }

  /** In every run each token is answered or exported at most once, and never both. */
  lemma TokensAreOneShot(steps: seq<Step>, t: Token)
    requires After(steps).Some?
    ensures var s := After(steps).value; s.answered[t] + s.exported[t] <= 1
  {
    RunKeeps(steps);
    var s := After(steps).value;
    assert Spent(s)[t] == s.inHand[t] + s.answered[t] + s.exported[t];
  }

  /** Between host sends, the open outside sources are the replies the host still has, those it
      was refused as another node's, and those whose token had been taken before they reached it. */
  lemma SourcesAtRest(steps: seq<Step>)
    requires After(steps).Some?
    requires var s := After(steps).value; At(s, Sending) == {} && At(s, Ending) == {}
    ensures var s := After(steps).value; s.open == |At(s, Hosted)| + |At(s, StuckElsewhere)| + |At(s, StuckTaken)|
  {
    RunKeeps(steps);
  }

  // ---- the source that stays open

  /** Some step of the run handed over a reply with no token left in it. */
  ghost predicate HandedOverEmpty(steps: seq<Step>, id: Id) {
    exists n :: 0 <= n < |steps| && steps[n] == HandOver(id) && After(steps[..n]).Some? &&
      id in After(steps[..n]).value.replies && After(steps[..n]).value.replies[id].cell == Taken
  }

  lemma HandedOverBefore(steps: seq<Step>, id: Id)
    requires steps != [] && HandedOverEmpty(steps[..|steps| - 1], id)
    ensures HandedOverEmpty(steps, id)
  {
    var init := steps[..|steps| - 1];
    var n :| 0 <= n < |init| && init[n] == HandOver(id) && After(init[..n]).Some? &&
      id in After(init[..n]).value.replies && After(init[..n]).value.replies[id].cell == Taken;
    assert steps[..n] == init[..n] && steps[n] == init[n];
  }

  predicate BeforeItsEnd(phase: Phase) {
    phase.Hosted? || phase.Sending? || phase.StuckTaken?
  }

  lemma TakenBefore(s: State, step: Step, id: Id)
    requires Enabled(s, step) && step != HandOver(id)
    requires id in Next(s, step).replies
    requires Next(s, step).replies[id].cell == Taken && BeforeItsEnd(Next(s, step).replies[id].phase)
    ensures id in s.replies && s.replies[id].cell == Taken && BeforeItsEnd(s.replies[id].phase)
  {
    match step
    case Mint(_, _, _) =>
    case ImportElsewhere(_, _) =>
    case AnswerInHand(_) =>
    case _ => if step.id != id { assert Next(s, step).replies[id] == s.replies[id]; }
  }

  /** The host gets stuck on a taken token only with a reply that was handed over empty: no
      outside source is lost by a program that hands over replies it has not taken or exported. */
  lemma {:induction false} StuckWasHandedOverEmpty(steps: seq<Step>, id: Id)
    requires After(steps).Some?
    requires var s := After(steps).value;
      id in s.replies && s.replies[id].cell == Taken && BeforeItsEnd(s.replies[id].phase)
    ensures HandedOverEmpty(steps, id)
  {
    var init, step := steps[..|steps| - 1], steps[|steps| - 1];
    var before := After(init).value;
    if step == HandOver(id) {
      assert steps[|init|] == step;
    } else {
      TakenBefore(before, step, id);
      StuckWasHandedOverEmpty(init, id);
      HandedOverBefore(steps, id);
    }
  }

  /** And with such a reply it does get stuck: exported first, a reply that the host then takes on
      and sends leaves a source open. */
  lemma ExportedThenHosted(s: State, id: Id)
    requires In(s, id, Owned) && !s.replies[id].cell.Elsewhere?
    ensures var s1 := Next(s, Export(id));
      && Enabled(s1, HandOver(id))
      && var s2 := Next(s1, HandOver(id));
      && Enabled(s2, HostTakes(id))
      && var s3 := Next(s2, HostTakes(id));
      && Enabled(s3, HostAnswers(id))
      && var s4 := Next(s3, HostAnswers(id));
      In(s4, id, StuckTaken) && s4.open == s.open + 1
  {
  }

  /** A stuck reply stays stuck, and its source open. */
  lemma StuckForever(s: State, step: Step, id: Id)
    requires Enabled(s, step) && (In(s, id, StuckTaken) || In(s, id, StuckElsewhere))
    ensures id in Next(s, step).replies && Next(s, step).replies[id] == s.replies[id]
  {}
}
