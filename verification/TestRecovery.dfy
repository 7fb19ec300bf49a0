/** Running a group of tests in as many passes as deaths require. */
module TestRecovery {
  import opened Basics

  type Id(==, !new)

  datatype Verdict = Passed | Failed

  /** One line of the harness's output: the protocol, or the test's own text. */
  datatype Line = Begin(id: Id) | Verdict(verdict: Verdict) | Text

  datatype Summary = Summary(passed: nat, failed: nat, unfinished: seq<Id>)

  // ---- reading one pass

  datatype Reading = Reading(summary: Summary, running: Option<Id>)

  function Close(r: Reading): seq<Id> {
    if r.running.Some? then r.summary.unfinished + [r.running.value] else r.summary.unfinished
  }

  function ReadLine(r: Reading, line: Line): Reading {
    match line
    case Begin(id) => Reading(r.summary.(unfinished := Close(r)), Some(id))
    case Verdict(v) =>
      Reading(if v.Passed? then r.summary.(passed := r.summary.passed + 1) else r.summary.(failed := r.summary.failed + 1), None)
    case Text => r
  }

  function ReadAll(lines: seq<Line>): Reading {
    if lines == [] then Reading(Summary(0, 0, []), None) else ReadLine(ReadAll(lines[..|lines| - 1]), lines[|lines| - 1])
  }

  /** `render_stream`: the counts of a pass, a test still running at the end being unfinished. */
  method Render(lines: seq<Line>) returns (summary: Summary)
    ensures summary == ReadAll(lines).summary.(unfinished := Close(ReadAll(lines)))
  {
    var r := Reading(Summary(0, 0, []), None);
    var i := 0;
    while i < |lines|
      invariant 0 <= i <= |lines| && r == ReadAll(lines[..i])
    {
      assert lines[..i + 1][..i] == lines[..i];
      r := ReadLine(r, lines[i]);
      i := i + 1;
    }
    assert lines[..|lines|] == lines;
    return r.summary.(unfinished := Close(r));
  }

  // ---- what a process can do

  /** A process runs its tests in order until it dies or ends: with the verdicts of the first
      tests, and the next one in flight or not. */
  datatype Pass = Pass(verdicts: seq<Verdict>, inFlight: bool)

  predicate Possible(p: Pass, n: nat) {
    |p.verdicts| <= n && (p.inFlight ==> |p.verdicts| < n)
  }

  /** The protocol lines of a pass. */
  function LinesOf(p: Pass, tests: seq<Id>): seq<Line>
    requires Possible(p, |tests|)
  {
    FinishedLines(p.verdicts, tests) + (if p.inFlight then [Begin(tests[|p.verdicts|])] else [])
  }

  function FinishedLines(vs: seq<Verdict>, tests: seq<Id>): seq<Line>
    requires |vs| <= |tests|
  {
    if vs == [] then []
    else FinishedLines(vs[..|vs| - 1], tests) + [Begin(tests[|vs| - 1]), Line.Verdict(vs[|vs| - 1])]
  }

  /** The lines of a pass among whatever its tests print. */
  function Protocol(lines: seq<Line>): seq<Line> {
    if lines == [] then []
    else Protocol(lines[..|lines| - 1]) + (if lines[|lines| - 1].Text? then [] else [lines[|lines| - 1]])
  }

  lemma {:induction false} TextIsNotRead(lines: seq<Line>)
    ensures ReadAll(lines) == ReadAll(Protocol(lines))
  {
    if lines != [] {
      var init, last := lines[..|lines| - 1], lines[|lines| - 1];
      TextIsNotRead(init);
      if last.Text? {
        assert Protocol(lines) == Protocol(init);
      } else {
        assert (Protocol(init) + [last])[..|Protocol(init)|] == Protocol(init);
      }
    }
  }

  function Count(vs: seq<Verdict>, v: Verdict): nat {
    if vs == [] then 0 else Count(vs[..|vs| - 1], v) + if vs[|vs| - 1] == v then 1 else 0
  }

  lemma ReadTwo(lines: seq<Line>, a: Line, b: Line)
    ensures ReadAll(lines + [a, b]) == ReadLine(ReadLine(ReadAll(lines), a), b)
  {
    assert (lines + [a, b])[..|lines| + 1] == lines + [a];
    assert (lines + [a])[..|lines|] == lines;
  }

  lemma {:induction false} ReadFinished(vs: seq<Verdict>, tests: seq<Id>)
    requires |vs| <= |tests|
    ensures ReadAll(FinishedLines(vs, tests)) == Reading(Summary(Count(vs, Passed), Count(vs, Failed), []), None)
  {
    if vs != [] {
      var init := vs[..|vs| - 1];
      ReadFinished(init, tests);
      ReadTwo(FinishedLines(init, tests), Begin(tests[|vs| - 1]), Line.Verdict(vs[|vs| - 1]));
    }
  }

  /** What the report makes of a pass: its verdicts, and the test it died in. */
  lemma ReadPass(p: Pass, tests: seq<Id>, lines: seq<Line>)
    requires Possible(p, |tests|) && Protocol(lines) == LinesOf(p, tests)
    ensures var r := ReadAll(lines);
      && r.summary == Summary(Count(p.verdicts, Passed), Count(p.verdicts, Failed), [])
      && Close(r) == if p.inFlight then [tests[|p.verdicts|]] else []
  {
    TextIsNotRead(lines);
    ReadFinished(p.verdicts, tests);
    var finished := FinishedLines(p.verdicts, tests);
    if p.inFlight {
      assert LinesOf(p, tests)[..|finished|] == finished;
    } else {
      assert LinesOf(p, tests) == finished;
    }
  }

  // ---- the group

  /** What running a pass answers: nothing, where building or starting it fails. */
  datatype Answer = Ran(lines: seq<Line>, exitOk: bool) | Broken

  /** A test's end: a verdict, or the death of its process. */
  datatype End = Finished(verdict: Verdict) | Died

  function Ends(p: Pass): seq<End> {
    seq(|p.verdicts|, i requires 0 <= i < |p.verdicts| => Finished(p.verdicts[i])) + if p.inFlight then [Died] else []
  }

  function CountEnds(ends: seq<End>, e: End): nat {
    if ends == [] then 0 else CountEnds(ends[..|ends| - 1], e) + if ends[|ends| - 1] == e then 1 else 0
  }

  /** The tests of `ids` that died, in order. */
  function DiedOf(ids: seq<Id>, ends: seq<End>): seq<Id>
    requires |ends| <= |ids|
  {
    if ends == [] then []
    else DiedOf(ids, ends[..|ends| - 1]) + if ends[|ends| - 1].Died? then [ids[|ends| - 1]] else []
  }

  /** The totals are those of the tests' ends, each counted once. */
  ghost predicate Accounts(total: Summary, ids: seq<Id>, ends: seq<End>) {
    && |ends| <= |ids|
    && total.passed == CountEnds(ends, Finished(Passed))
    && total.failed == CountEnds(ends, Finished(Failed))
    && total.unfinished == DiedOf(ids, ends)
  }

  /** The tests a pass begins. */
  function Begun(p: Pass, tests: seq<Id>): seq<Id>
    requires Possible(p, |tests|)
  {
    tests[..|Ends(p)|]
  }

  lemma {:induction false} EndsOfVerdicts(ids: seq<Id>, ends: seq<End>, p: Pass, k: nat)
    requires k <= |p.verdicts| && |ends| + k <= |ids|
    ensures var more := ends + Ends(p)[..k];
      && CountEnds(more, Finished(Passed)) == CountEnds(ends, Finished(Passed)) + Count(p.verdicts[..k], Passed)
      && CountEnds(more, Finished(Failed)) == CountEnds(ends, Finished(Failed)) + Count(p.verdicts[..k], Failed)
      && DiedOf(ids, more) == DiedOf(ids, ends)
    decreases k
  {
    if k == 0 {
      assert ends + Ends(p)[..0] == ends;
    } else {
      EndsOfVerdicts(ids, ends, p, k - 1);
      var more := ends + Ends(p)[..k];
      assert more[..|more| - 1] == ends + Ends(p)[..k - 1];
      assert p.verdicts[..k][..k - 1] == p.verdicts[..k - 1];
      assert more[|more| - 1] == Finished(p.verdicts[k - 1]);
    }
  }

  /** What the report makes of a pass. */
  function PassSummary(p: Pass, tests: seq<Id>): Summary
    requires Possible(p, |tests|)
  {
    Summary(Count(p.verdicts, Passed), Count(p.verdicts, Failed), if p.inFlight then [tests[|p.verdicts|]] else [])
  }

  /** Merging a pass into the totals accounts for its tests. */
  lemma PassAccounts(total: Summary, ids: seq<Id>, ends: seq<End>, p: Pass, pass: Summary)
    requires Accounts(total, ids, ends) && Possible(p, |ids| - |ends|)
    requires pass == PassSummary(p, ids[|ends|..])
    ensures Accounts(Merge(total, pass), ids, ends + Ends(p))
  {
    var k := |p.verdicts|;
    EndsOfVerdicts(ids, ends, p, k);
    assert p.verdicts[..k] == p.verdicts;
    var more := ends + Ends(p);
    if p.inFlight {
      assert more[..|more| - 1] == ends + Ends(p)[..k];
    } else {
      assert more == ends + Ends(p)[..k];
    }
  }

  function Merge(a: Summary, b: Summary): Summary {
    Summary(a.passed + b.passed, a.failed + b.failed, a.unfinished + b.unfinished)
  }

  ghost predicate Distinct(ids: seq<Id>) {
    forall i, j :: 0 <= i < j < |ids| ==> ids[i] != ids[j]
  }

  method Position(ids: seq<Id>, id: Id) returns (at: Option<nat>)
    ensures at.Some? ==> at.value < |ids| && ids[at.value] == id
    ensures at.None? ==> id !in ids
  {
    for i := 0 to |ids|
      invariant id !in ids[..i]
    {
      if ids[i] == id { return Some(i); }
    }
    return None;
  }

  /** A pass whose process ended with tests left and none of them running. It goes unreported when
      the process exits as if all were well, or a test of it has failed. */
  ghost predicate Quit(p: Pass, exitOk: bool, n: nat) {
    !p.inFlight && |p.verdicts| < n && (exitOk || Failed in p.verdicts)
  }

  /** Every process runs the tests it is given as one can, and prints their protocol. */
  ghost predicate Harness(run: (nat, seq<Id>) -> Answer, process: (nat, seq<Id>) -> Pass) {
    forall k, tests {:trigger Printed(run, process, k, tests)} :: Printed(run, process, k, tests)
  }

  ghost predicate Printed(run: (nat, seq<Id>) -> Answer, process: (nat, seq<Id>) -> Pass, k: nat, tests: seq<Id>) {
    run(k, tests).Ran? ==>
      Possible(process(k, tests), |tests|) && Protocol(run(k, tests).lines) == LinesOf(process(k, tests), tests)
  }

  lemma {:induction false} NoneFailed(vs: seq<Verdict>)
    requires Failed in vs
    ensures Count(vs, Failed) > 0
  {
    if vs[|vs| - 1] != Failed {
      assert Failed in vs[..|vs| - 1];
      NoneFailed(vs[..|vs| - 1]);
    }
  }

  lemma {:induction false} SomeFailed(vs: seq<Verdict>)
    requires Count(vs, Failed) > 0
    ensures Failed in vs
  {
    if vs[|vs| - 1] != Failed {
      SomeFailed(vs[..|vs| - 1]);
      var i :| 0 <= i < |vs| - 1 && vs[..|vs| - 1][i] == Failed;
      assert vs[i] == Failed;
    }
  }

  /** One pass over what is left. */
  method RunPass(k: nat, tests: seq<Id>, run: (nat, seq<Id>) -> Answer, ghost process: (nat, seq<Id>) -> Pass)
    returns (broken: bool, exitOk: bool, summary: Summary)
    requires Harness(run, process)
    ensures broken == run(k, tests).Broken?
    ensures !broken ==> exitOk == run(k, tests).exitOk
    ensures !broken ==> Possible(process(k, tests), |tests|) && summary == PassSummary(process(k, tests), tests)
  {
    var answer := run(k, tests);
    assert Printed(run, process, k, tests);
    match answer {
      case Broken => return true, false, Summary(0, 0, []);
      case Ran(lines, ok) =>
        summary := Render(lines);
        ReadPass(process(k, tests), tests, lines);
        return false, ok, summary;
    }
  }

  /** The tests after the one that died. */
  method AfterDeath(tests: seq<Id>, ghost p: Pass, died: Id) returns (rest: seq<Id>)
    requires Distinct(tests) && Possible(p, |tests|) && p.inFlight && died == tests[|p.verdicts|]
    ensures rest == tests[|p.verdicts| + 1..]
  {
    var at := Position(tests, died);
    match at {
      case Some(i) => rest := tests[i + 1..];
      case None => rest := [];
    }
  }

  /** Where the loop stands: the tests ended so far, each begun once and in order, and the rest. */
  ghost predicate Standing(ids: seq<Id>, total: Summary, ends: seq<End>, begun: seq<Id>, remaining: seq<Id>) {
    Accounts(total, ids, ends) && begun == ids[..|ends|] && remaining == ids[|ends|..]
  }

  lemma PassStands(ids: seq<Id>, total: Summary, ends: seq<End>, begun: seq<Id>, remaining: seq<Id>, p: Pass)
    requires Standing(ids, total, ends, begun, remaining) && Possible(p, |remaining|)
    ensures Standing(ids, Merge(total, PassSummary(p, remaining)), ends + Ends(p), begun + Begun(p, remaining), remaining[|Ends(p)|..])
  {
    PassAccounts(total, ids, ends, p, PassSummary(p, remaining));
  }

  lemma RestIsDistinct(ids: seq<Id>, n: nat)
    requires Distinct(ids) && n <= |ids|
    ensures Distinct(ids[n..])
  {}

  /** How the tests end that pass `k` and those after it are given: as the processes end them, a
      death leaving the tests behind it to the next pass. */
  ghost function EndsFrom(run: (nat, seq<Id>) -> Answer, process: (nat, seq<Id>) -> Pass, k: nat, tests: seq<Id>): seq<End>
    decreases |tests|
  {
    var p := process(k, tests);
    if tests == [] || run(k, tests).Broken? then []
    else if p.inFlight && |p.verdicts| < |tests| then Ends(p) + EndsFrom(run, process, k + 1, tests[|p.verdicts| + 1..])
    else Ends(p)
  }

  /** The tests of a group end as `ends` and then as those left to pass `k` do. */
  ghost predicate EndsSoFar(run: (nat, seq<Id>) -> Answer, process: (nat, seq<Id>) -> Pass, ids: seq<Id>, ends: seq<End>, k: nat, rest: seq<Id>) {
    EndsFrom(run, process, 0, ids) == ends + EndsFrom(run, process, k, rest)
  }

  /** Nothing more comes after `ends`. */
  ghost predicate EndsAs(run: (nat, seq<Id>) -> Answer, process: (nat, seq<Id>) -> Pass, ids: seq<Id>, ends: seq<End>) {
    ends == EndsFrom(run, process, 0, ids)
  }

  lemma EndsAtFirst(run: (nat, seq<Id>) -> Answer, process: (nat, seq<Id>) -> Pass, ids: seq<Id>)
    ensures EndsSoFar(run, process, ids, [], 0, ids)
  {}

  lemma EndsAtDeath(run: (nat, seq<Id>) -> Answer, process: (nat, seq<Id>) -> Pass, ids: seq<Id>, ends: seq<End>, k: nat, tests: seq<Id>)
    requires EndsSoFar(run, process, ids, ends, k, tests) && tests != [] && run(k, tests).Ran?
    requires Possible(process(k, tests), |tests|) && process(k, tests).inFlight
    ensures EndsSoFar(run, process, ids, ends + Ends(process(k, tests)), k + 1, tests[|process(k, tests).verdicts| + 1..])
  {
    Concat(ends, Ends(process(k, tests)), EndsFrom(run, process, k + 1, tests[|process(k, tests).verdicts| + 1..]));
  }

  lemma EndsAtLast(run: (nat, seq<Id>) -> Answer, process: (nat, seq<Id>) -> Pass, ids: seq<Id>, ends: seq<End>, k: nat, tests: seq<Id>)
    requires EndsSoFar(run, process, ids, ends, k, tests)
    ensures tests == [] || run(k, tests).Broken? ==> EndsAs(run, process, ids, ends)
    ensures tests != [] && run(k, tests).Ran? && !process(k, tests).inFlight ==> EndsAs(run, process, ids, ends + Ends(process(k, tests)))
  {
    assert ends + [] == ends;
  }

  lemma Concat<T>(a: seq<T>, b: seq<T>, c: seq<T>)
    ensures a + (b + c) == (a + b) + c
  {}

  /** Whether a pass leaves the run all right: it could be run, and if it ended without a death,
      its process exited well or one of its tests has failed. */
  ghost predicate PassOk(answer: Answer, p: Pass) {
    answer.Ran? && (p.inFlight || answer.exitOk || Failed in p.verdicts)
  }

  /** The last pass over a group, which was given the tests from `from` on: the run is all right
      exactly where that pass is, and then all tests have ended unless its process quit. */
  ghost predicate LastPass(ids: seq<Id>, run: (nat, seq<Id>) -> Answer, process: (nat, seq<Id>) -> Pass, k: nat, from: nat, ok: bool, ended: nat)
    requires from <= |ids|
  {
    var answer, p := run(k, ids[from..]), process(k, ids[from..]);
    (ok <==> PassOk(answer, p)) && (ok ==> (ended == |ids| <==> !Quit(p, answer.exitOk, |ids| - from)))
  }

  /** A group without tests is all right, and any other as its last pass is. */
  ghost predicate RightlyOk(ids: seq<Id>, run: (nat, seq<Id>) -> Answer, process: (nat, seq<Id>) -> Pass, passes: nat, from: nat, ok: bool, ended: nat) {
    if ids == [] then ok && passes == 0 else passes > 0 && from < |ids| && LastPass(ids, run, process, passes - 1, from, ok, ended)
  }

  /** One pass and what it leaves: the tests after the one that died, or, without a death, nothing
      to run again. */
  method Turn(
    ghost ids: seq<Id>, k: nat, tests: seq<Id>, before: Summary, run: (nat, seq<Id>) -> Answer, ghost process: (nat, seq<Id>) -> Pass,
    ghost ends0: seq<End>, ghost begun0: seq<Id>)
    returns (broken: bool, exitOk: bool, died: bool, failed: bool, total: Summary, rest: seq<Id>, ghost ends: seq<End>, ghost begun: seq<Id>)
    requires Distinct(ids) && Harness(run, process) && tests != []
    requires Standing(ids, before, ends0, begun0, tests) && EndsSoFar(run, process, ids, ends0, k, tests)
    ensures Accounts(total, ids, ends) && begun == ids[..|ends|]
    ensures |total.unfinished| == |before.unfinished| + (if died then 1 else 0)
    ensures broken == run(k, tests).Broken? && (broken ==> !died)
    ensures !broken ==> exitOk == run(k, tests).exitOk && died == process(k, tests).inFlight && (failed <==> Failed in process(k, tests).verdicts)
    ensures died ==> Standing(ids, total, ends, begun, rest) && EndsSoFar(run, process, ids, ends, k + 1, rest) && |rest| < |tests|
    ensures died ==> RightlyOk(ids, run, process, k + 1, |ends0|, true, |ids|)
    ensures !died ==> EndsAs(run, process, ids, ends) && RightlyOk(ids, run, process, k + 1, |ends0|, !broken && (exitOk || failed), |ends|)
  {
    ghost var p := process(k, tests);
    var summary;
    broken, exitOk, summary := RunPass(k, tests, run, process);
    EndsAtLast(run, process, ids, ends0, k, tests);
    total, died, rest, failed, ends, begun := before, false, [], false, ends0, begun0;
    if broken { return; }
    PassStands(ids, before, ends0, begun0, tests, p);
    total, ends, begun := Merge(before, summary), ends0 + Ends(p), begun0 + Begun(p, tests);
    died := summary.unfinished != [];
    failed := summary.failed > 0;
    if Failed in p.verdicts { NoneFailed(p.verdicts); }
    if failed { SomeFailed(p.verdicts); }
    if died {
      RestIsDistinct(ids, |ends0|);
      EndsAtDeath(run, process, ids, ends0, k, tests);
      rest := AfterDeath(tests, p, summary.unfinished[|summary.unfinished| - 1]);
    }
  }

  /** Runs a group. Each test is begun once and ends once, in order: with a verdict in one pass, or
      as the death of one. All of them are, unless some process quits between two tests. The run is
      all right exactly where its last pass is. The budget of passes is never what stops it: one is
      used per death, and one more. */
  method RunGroup(ids: seq<Id>, run: (nat, seq<Id>) -> Answer, ghost process: (nat, seq<Id>) -> Pass)
    returns (ok: bool, total: Summary, passes: nat, ghost ends: seq<End>, ghost begun: seq<Id>, ghost from: nat)
    requires Distinct(ids) && Harness(run, process)
    ensures Accounts(total, ids, ends) && begun == ids[..|ends|] && EndsAs(run, process, ids, ends)
    ensures RightlyOk(ids, run, process, passes, from, ok, |ends|)
    ensures passes <= |ids| && |total.unfinished| <= passes <= |total.unfinished| + 1
  {
    total, passes, ends, begun, from, ok := Summary(0, 0, []), 0, [], [], 0, true;
    var remaining := ids;
    var passesLeft := |ids| + 1;
    EndsAtFirst(run, process, ids);
    while remaining != [] && passesLeft > 0
      invariant Standing(ids, total, ends, begun, remaining) && EndsSoFar(run, process, ids, ends, passes, remaining)
      invariant passes + passesLeft == |ids| + 1 && passes + |remaining| <= |ids| && |total.unfinished| == passes && ok
      invariant if passes == 0 then remaining == ids else RightlyOk(ids, run, process, passes, from, true, |ids|)
      decreases passesLeft
    {
      passesLeft := passesLeft - 1;
      from := |ends|;
      var broken, exitOk, died, failed, rest;
      broken, exitOk, died, failed, total, rest, ends, begun := Turn(ids, passes, remaining, total, run, process, ends, begun);
      passes := passes + 1;
      if broken || !died {
        ok := !broken && (exitOk || failed);
        return;
      }
      remaining := rest;
    }
    EndsAtLast(run, process, ids, ends, passes, remaining);
  }
}
