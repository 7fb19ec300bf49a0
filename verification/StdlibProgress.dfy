/** A builder that nothing goes wrong for gets its library, from any state of the cache. */
module StdlibProgress {
  import opened Basics
  import opened CacheKeys
  import opened StdlibCache

  /** States one step apart, without I/O errors in renames. */
  ghost predicate Steps(path: seq<State>) {
    path != [] && forall k {:trigger StepAt(path, false, k)} :: StepAt(path, false, k)
  }

  /** How far a builder is from answering. */
  function Distance(b: Builder): nat {
    match b.phase
    case Checking => |b.files| + 10
    case Writing(k) => (if k <= |b.files| then |b.files| - k else 0) + 9
    case Compiling => 8
    case Sealing => 7
    case Renaming => 6
    case Discarding => 5
    case Rechecking => 4
    case _ => 0
  }

  /** The builder still means to answer with its library. */
  predicate OnItsWay(phase: Phase) {
    phase.Checking? || phase.Writing? || phase.Compiling? || phase.Sealing? || phase.Renaming?
  }

  /** The builder has lost the rename. */
  predicate Lost(phase: Phase) {
    phase.Discarding? || phase.Rechecking?
  }

  /** What the builder `i` does next when nothing fails. */
  ghost function Onward(s: State, i: nat): State
    requires i < |s.builders|
  {
    var b := s.builders[i];
    var d := StagedAt(s, b.staging);
    match b.phase
    case Checking => if HasDone(s, NameOf(b)) then Moved(s, i, Answered(Ok)) else Moved(s, i, Writing(0))
    case Writing(k) =>
      if k < |b.files| then Staged(s, i, d.(src := d.src[b.files[k].path := b.files[k].content]), Writing(k + 1))
      else Moved(s, i, Compiling)
    case Compiling => Staged(s, i, d.(classes := ClassesOf(b.identity, d.src)), Sealing)
    case Sealing => Staged(s, i, d.(done := true), Renaming)
    case Renaming =>
      var name := NameOf(b);
      if name !in s.entries || s.entries[name] == EMPTY then
        Moved(s, i, Answered(Ok)).(entries := s.entries[name := d], staging := s.staging - {b.staging})
      else Moved(s, i, Discarding)
    case Discarding => Moved(s, i, Rechecking)
    case Rechecking => Moved(s, i, Answered(if HasDone(s, NameOf(b)) then Ok else NotInstalled))
    case _ => s
  }

  lemma OnwardIsAStep(s: State, i: nat)
    requires i < |s.builders| && (OnItsWay(s.builders[i].phase) || Lost(s.builders[i].phase))
    ensures Next(s, Onward(s, i), false)
    ensures |Onward(s, i).builders| == |s.builders| && NameOf(Onward(s, i).builders[i]) == NameOf(s.builders[i])
    ensures Distance(Onward(s, i).builders[i]) < Distance(s.builders[i])
  {
    assert BuilderStep(s, Onward(s, i), i, false);
  }

  lemma Prepend(s: State, path: seq<State>)
    requires Steps(path) && Next(s, path[0], false)
    ensures Steps([s] + path)
  {
    var all := [s] + path;
    forall k: nat {:trigger StepAt(all, false, k)}
      ensures StepAt(all, false, k)
    {
      if 1 < k < |all| {
        assert StepAt(path, false, k - 1);
        assert all[k] == path[k - 1] && all[k - 1] == path[k - 2];
      }
    }
  }

  /** From any state of the cache in which no half entry stands in its way, a builder can be taken to
      Ok by its own steps alone, whatever the others have left half done. */
  lemma {:induction false} CanFinish(s: State, i: nat) returns (path: seq<State>)
    requires i < |s.builders| && !HalfEntry(s, NameOf(s.builders[i]))
    requires OnItsWay(s.builders[i].phase)
      || (Lost(s.builders[i].phase) && HasDone(s, NameOf(s.builders[i])))
    ensures Steps(path) && path[0] == s
    ensures var last := path[|path| - 1]; i < |last.builders| && last.builders[i].phase == Answered(Ok)
    decreases Distance(s.builders[i])
  {
    var t := Onward(s, i);
    OnwardIsAStep(s, i);
    if t.builders[i].phase == Answered(Ok) {
      path := [t];
    } else {
      path := CanFinish(t, i);
    }
    Prepend(s, path);
    path := [s] + path;
  }
}
