/** Where every token is in every run: none is lost but by a refused or a dropped reply. */
module ReplyAccounts {
  import opened Basics
  import opened ReplyTokens

  /** A reply that can still be answered. */
  predicate CanAnswer(r: Reply) {
    r.cell.Here? && (r.phase.Owned? || r.phase.Hosted? || r.phase.Sending?)
  }

  ghost predicate Live(s: State, t: Token) {
    exists id :: id in s.replies && s.replies[id].cell == Here(t) && CanAnswer(s.replies[id])
  }

  ghost predicate Minted(steps: seq<Step>, t: Token) {
    exists n :: 0 <= n < |steps| && steps[n].Mint? && steps[n].token == t
  }

  /** A send whose value was refused, by the program or by the host, or a reply the host dropped. */
  predicate Loses(step: Step, id: Id) {
    step == Send(id, true) || step == HostRefused(id) || step == HostDrops(id)
  }

  /** Step `n` lost the token of reply `id`. */
  ghost predicate LostAt(steps: seq<Step>, n: nat, id: Id, t: Token) {
    && n < |steps| && Loses(steps[n], id) && After(steps[..n]).Some?
    && id in After(steps[..n]).value.replies && After(steps[..n]).value.replies[id].cell == Here(t)
  }

  ghost predicate LostBy(steps: seq<Step>, id: Id, t: Token) {
    exists n: nat :: LostAt(steps, n, id, t)
  }

  ghost predicate Lost(steps: seq<Step>, t: Token) {
    exists id :: LostBy(steps, id, t)
  }

  /** A token unspent in a reply that is gone. */
  ghost predicate LeftIn(s: State, id: Id, t: Token) {
    id in s.replies && s.replies[id].cell == Here(t) && s.replies[id].phase == Gone
  }

  // ---- one step

  /** Only a step that loses leaves a token in a reply it ends; a reply that cannot be answered any
      more and is not gone has no token. */
  predicate NoneLeft(r: Reply) {
    r.cell.Here? ==> CanAnswer(r) || r.phase.Gone?
  }

  lemma EffectLeaves(s: State, step: Step, t: Token)
    requires Enabled(s, step) && !step.Mint? && !step.ImportElsewhere? && !step.AnswerInHand?
    requires step.id in s.replies ==> NoneLeft(s.replies[step.id])
    ensures step.id in s.replies
    ensures var r := s.replies[step.id];
      var r2 := Effect(r, step).reply;
      && NoneLeft(r2)
      && (r2.cell == Here(t) && r2.phase.Gone? <==> r.cell == Here(t) && (r.phase.Gone? || Loses(step, step.id)))
  {}

  lemma StepLeaves(s: State, step: Step, id: Id, t: Token)
    requires Enabled(s, step) && (id in s.replies ==> NoneLeft(s.replies[id]))
    ensures id in s.replies ==> id in Next(s, step).replies
    ensures id in Next(s, step).replies ==> NoneLeft(Next(s, step).replies[id])
    ensures LeftIn(Next(s, step), id, t) <==> LeftIn(s, id, t) || (Loses(step, id) && id in s.replies && s.replies[id].cell == Here(t))
  {
    if step.Mint? || step.ImportElsewhere? || step.AnswerInHand? {
      OthersLeave(s, step, id, t);
    } else {
      if step.id == id { EffectLeaves(s, step, t); }
    }
  }

  lemma OthersLeave(s: State, step: Step, id: Id, t: Token)
    requires Enabled(s, step) && (step.Mint? || step.ImportElsewhere? || step.AnswerInHand?)
    ensures id in s.replies ==> id in Next(s, step).replies && Next(s, step).replies[id] == s.replies[id]
    ensures id in Next(s, step).replies && id !in s.replies ==> NoneLeft(Next(s, step).replies[id]) && Next(s, step).replies[id].phase == Owned
    ensures !Loses(step, id)
  {}

  /** A step makes no token known but the one it mints, and none unknown. */
  lemma StepKeepsKnown(s: State, step: Step, t: Token)
    requires OnePlace(s) && Enabled(s, step)
    ensures Known(Next(s, step), t) <==> Known(s, t) || (step.Mint? && step.token == t)
  {
    if step.Mint? || step.ImportElsewhere? {
      PutKeepsKnown(s, step.id, Next(s, step).replies[step.id], t);
    } else if !step.AnswerInHand? {
      EffectsAddUp(s, step);
      DoKeepsKnown(s, step.id, Effect(s.replies[step.id], step), t);
    }
  }

  lemma PutKeepsKnown(s: State, id: Id, r: Reply, t: Token)
    requires id !in s.replies
    ensures Known(Put(s, id, r), t) <==> Known(s, t) || r.cell == Here(t)
  {
    var s2 := Put(s, id, r);
    if i :| i in s.replies && s.replies[i].cell == Here(t) { assert s2.replies[i] == s.replies[i]; }
    if r.cell == Here(t) { assert s2.replies[id] == r; }
    if i :| i in s2.replies && s2.replies[i].cell == Here(t) { assert i == id || s.replies[i] == s2.replies[i]; }
  }

  lemma DoKeepsKnown(s: State, id: Id, c: Change, t: Token)
    requires id in s.replies
    requires if c.to.Stays? then c.reply.cell == s.replies[id].cell else s.replies[id].cell.Here? && c.reply.cell == Taken
    ensures Known(Do(s, id, c), t) <==> Known(s, t)
  {
    var s2 := Do(s, id, c);
    if i :| i in s.replies && s.replies[i].cell == Here(t) { assert i == id || s2.replies[i] == s.replies[i]; }
    if i :| i in s2.replies && s2.replies[i].cell == Here(t) { assert i == id || s.replies[i] == s2.replies[i]; }
    if c.to.Stays? && s.replies[id].cell == Here(t) { assert s2.replies[id].cell == Here(t); }
  }

  // ---- runs

  /** The accounts of a run: the known tokens are the minted ones, and a token left in a reply that
      is gone was lost there. */
  ghost predicate Accounts(steps: seq<Step>) {
    After(steps).Some? &&
    var s := After(steps).value;
    && (forall t :: Known(s, t) <==> Minted(steps, t))
    && (forall id :: id in s.replies ==> NoneLeft(s.replies[id]))
    && (forall id, t :: LeftIn(s, id, t) <==> LostBy(steps, id, t))
  }

  lemma MintedByLast(steps: seq<Step>, t: Token)
    requires steps != []
    ensures var last := steps[|steps| - 1];
      Minted(steps, t) <==> Minted(steps[..|steps| - 1], t) || (last.Mint? && last.token == t)
  {
    var init := steps[..|steps| - 1];
    if n :| 0 <= n < |init| && init[n].Mint? && init[n].token == t { assert steps[n] == init[n]; }
    if n :| 0 <= n < |steps| && steps[n].Mint? && steps[n].token == t && n < |init| { assert init[n] == steps[n]; }
  }

  lemma LostByLast(steps: seq<Step>, id: Id, t: Token)
    requires steps != []
    ensures LostBy(steps, id, t) <==> LostBy(steps[..|steps| - 1], id, t) || LostAt(steps, |steps| - 1, id, t)
  {
    var init := steps[..|steps| - 1];
    if n: nat :| LostAt(init, n, id, t) {
      LostEarlier(steps, n, id, t);
    }
    if n: nat :| LostAt(steps, n, id, t) && n < |init| {
      LostEarlier(steps, n, id, t);
    }
  }

  lemma LostEarlier(steps: seq<Step>, n: nat, id: Id, t: Token)
    requires steps != [] && n < |steps| - 1
    ensures LostAt(steps, n, id, t) <==> LostAt(steps[..|steps| - 1], n, id, t)
  {
    assert steps[..|steps| - 1][..n] == steps[..n];
  }

  lemma {:induction false} RunAccounts(steps: seq<Step>)
    requires After(steps).Some?
    ensures Accounts(steps)
  {
    var s := After(steps).value;
    if steps != [] {
      var init, last := steps[..|steps| - 1], steps[|steps| - 1];
      var before := After(init).value;
      RunAccounts(init);
      RunKeeps(init);
      forall t ensures Known(s, t) <==> Minted(steps, t) {
        StepKeepsKnown(before, last, t);
        MintedByLast(steps, t);
      }
      forall id | id in s.replies ensures NoneLeft(s.replies[id]) { StepLeaves(before, last, id, 0); }
      forall id, t ensures LeftIn(s, id, t) <==> LostBy(steps, id, t) {
        StepLeaves(before, last, id, t);
        LostByLast(steps, id, t);
      }
    }
  }

  /** In every run every minted token is in exactly one place: in a reply that can be answered, in
      hand, answered, exported, or lost by a refused or dropped reply; and no other token is. */
  lemma TokensAreConserved(steps: seq<Step>, t: Token)
    requires After(steps).Some?
    ensures var s := After(steps).value;
      (if Live(s, t) then 1 else 0) + s.inHand[t] + s.answered[t] + s.exported[t] + (if Lost(steps, t) then 1 else 0)
        == if Minted(steps, t) then 1 else 0
  {
    var s := After(steps).value;
    RunAccounts(steps);
    RunKeeps(steps);
    assert Spent(s)[t] == s.inHand[t] + s.answered[t] + s.exported[t];
    assert Known(s, t) <==> Spent(s)[t] > 0 || exists id :: id in s.replies && s.replies[id].cell == Here(t);
    if id :| id in s.replies && s.replies[id].cell == Here(t) {
      assert NoneLeft(s.replies[id]);
      if LeftIn(s, id, t) { assert LostBy(steps, id, t); }
    }
    if id :| LostBy(steps, id, t) { assert LeftIn(s, id, t); }
  }

  // ---- sends answer

  /** A send that is not refused, of a reply that holds its token, answers exactly it. */
  lemma SendAnswers(s: State, id: Id)
    requires In(s, id, Owned) && s.replies[id].cell.Here?
    ensures var s2 := Next(s, Send(id, false));
      s2.answered == s.answered + multiset{s.replies[id].cell.token} && s2.inHand == s.inHand && s2.exported == s.exported && s2.open == s.open
  {}

  /** So does a reply the host takes on and sends, its source closed at the end. */
  lemma HostedSendAnswers(s: State, id: Id)
    requires In(s, id, Owned) && s.replies[id].cell.Here?
    ensures var s1 := Next(s, HandOver(id));
      && Enabled(s1, HostTakes(id))
      && var s2 := Next(s1, HostTakes(id));
      && Enabled(s2, HostAnswers(id))
      && var s3 := Next(s2, HostAnswers(id));
      && Enabled(s3, HostEnds(id))
      && var s4 := Next(s3, HostEnds(id));
      s4.answered == s.answered + multiset{s.replies[id].cell.token} && s4.open == s.open && In(s4, id, Gone)
  {}

  /** And a token taken out first. */
  lemma TakenThenAnswered(s: State, id: Id)
    requires In(s, id, Owned) && s.replies[id].cell.Here?
    ensures var t := s.replies[id].cell.token;
      var s1 := Next(s, TakeLocal(id));
      && Enabled(s1, AnswerInHand(t))
      && Next(s1, AnswerInHand(t)).answered == s.answered + multiset{t} && Next(s1, AnswerInHand(t)).inHand == s.inHand
  {}
}
