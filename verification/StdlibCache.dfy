/** Concurrent `prepare`: builders that stage privately, write `done` last and rename into place,
    interleaved in any way, with I/O failures and crashes at every step. */
module StdlibCache {
  import opened Basics
  import opened CacheKeys

  /** What a compiler leaves: nothing, part of its output, or its classes of exactly these sources. */
  datatype Classes = NoClasses | Partial | ClassesOf(compiler: string, sources: map<string, string>)

  datatype Dir = Dir(src: map<string, string>, classes: Classes, done: bool)

  /** How `prepare` answered: the library, an error before installing, or a failed install. */
  datatype Answer = Ok | Failed | NotInstalled

  datatype Phase =
    | Checking
    | Writing(written: nat)
    | Compiling
    | Sealing
    | Renaming
    | Discarding
    | Rechecking
    | Cleaning
    | Answered(answer: Answer)
    | Crashed

  /** One call of `prepare`: the compiler it finds, its files in path order and its private staging name. */
  datatype Builder = Builder(identity: string, files: seq<File>, staging: nat, phase: Phase)

  /** The cache root: installed entries by name, staging directories by name; and the compilers
      that have ever built into it. */
  datatype State = State(compilers: set<string>, entries: map<string, Dir>, staging: map<nat, Dir>, builders: seq<Builder>)

  const EMPTY: Dir := Dir(map[], NoClasses, false)

  function SourcesOf(files: seq<File>): map<string, string> {
    if files == [] then map[]
    else
      var last := files[|files| - 1];
      SourcesOf(files[..|files| - 1])[last.path := last.content]
  }

  /** A directory that holds a compiler's library of `files`, whole. */
  predicate IsLibrary(d: Dir, identity: string, files: seq<File>) {
    d == Dir(SourcesOf(files), ClassesOf(identity, SourcesOf(files)), true)
  }

  function NameOf(b: Builder): string {
    EntryName(b.identity, b.files)
  }

  predicate HasDone(s: State, name: string) {
    name in s.entries && s.entries[name].done
  }

  /** The staging directory, or nothing yet. */
  function StagedAt(s: State, id: nat): Dir {
    if id in s.staging then s.staging[id] else EMPTY
  }

  // ---- steps

  function Moved(s: State, i: nat, phase: Phase): State
    requires i < |s.builders|
  {
    s.(builders := s.builders[i := s.builders[i].(phase := phase)])
  }

  function Staged(s: State, i: nat, d: Dir, phase: Phase): State
    requires i < |s.builders|
  {
    Moved(s, i, phase).(staging := s.staging[s.builders[i].staging := d])
  }

  /** Whatever is left of a directory being written or removed when it is left. */
  ghost predicate StagedSomehow(s: State, t: State, i: nat, phase: Phase)
    requires i < |s.builders|
  {
    || t == Moved(s, i, phase)
    || t == Moved(s, i, phase).(staging := s.staging - {s.builders[i].staging})
    || exists d :: t == Staged(s, i, d, phase)
  }

  predicate CheckStep(s: State, t: State, i: nat)
    requires i < |s.builders|
  {
    if HasDone(s, NameOf(s.builders[i])) then t == Moved(s, i, Answered(Ok))
    else t == Moved(s, i, Writing(0)) || t == Moved(s, i, Answered(Failed))
  }

  ghost predicate WriteStep(s: State, t: State, i: nat, k: nat)
    requires i < |s.builders|
  {
    var b := s.builders[i];
    var d := StagedAt(s, b.staging);
    || StagedSomehow(s, t, i, Answered(Failed))
    || (k < |b.files| && t == Staged(s, i, d.(src := d.src[b.files[k].path := b.files[k].content]), Writing(k + 1)))
    || (k >= |b.files| && t == Moved(s, i, Compiling))
  }

  predicate CompileStep(s: State, t: State, i: nat)
    requires i < |s.builders|
  {
    var d := StagedAt(s, s.builders[i].staging);
    || t == Staged(s, i, d.(classes := Partial), Compiling)
    || t == Staged(s, i, d.(classes := ClassesOf(s.builders[i].identity, d.src)), Sealing)
    || t == Moved(s, i, Cleaning)
    || t == Moved(s, i, Answered(Failed))
  }

  predicate SealStep(s: State, t: State, i: nat)
    requires i < |s.builders|
  {
    var d := StagedAt(s, s.builders[i].staging);
    t == Staged(s, i, d.(done := true), Renaming) || t == Moved(s, i, Answered(Failed))
  }

  /** Renaming a directory fails over one that is not empty; `ioErrors` lets it fail regardless. */
  predicate RenameStep(s: State, t: State, i: nat, ioErrors: bool)
    requires i < |s.builders|
  {
    var b := s.builders[i];
    var name := NameOf(b);
    var free := name !in s.entries || s.entries[name] == EMPTY;
    || (free && t == Moved(s, i, Answered(Ok)).(entries := s.entries[name := StagedAt(s, b.staging)], staging := s.staging - {b.staging}))
    || ((!free || ioErrors) && t == Moved(s, i, Discarding))
  }

  predicate RecheckStep(s: State, t: State, i: nat)
    requires i < |s.builders|
  {
    t == Moved(s, i, Answered(if HasDone(s, NameOf(s.builders[i])) then Ok else NotInstalled))
  }

  ghost predicate BuilderStep(s: State, t: State, i: nat, ioErrors: bool)
    requires i < |s.builders|
  {
    match s.builders[i].phase
    case Checking => CheckStep(s, t, i)
    case Writing(k) => WriteStep(s, t, i, k)
    case Compiling => CompileStep(s, t, i)
    case Sealing => SealStep(s, t, i)
    case Renaming => RenameStep(s, t, i, ioErrors)
    case Discarding => StagedSomehow(s, t, i, Discarding) || StagedSomehow(s, t, i, Rechecking)
    case Rechecking => RecheckStep(s, t, i)
    case Cleaning => StagedSomehow(s, t, i, Cleaning) || StagedSomehow(s, t, i, Answered(Failed))
    case _ => false
  }

  predicate Stopped(phase: Phase) {
    phase.Answered? || phase.Crashed?
  }

  /** One builder takes a step, or dies where it stands, leaving a file half written perhaps. */
  ghost predicate Next(s: State, t: State, ioErrors: bool) {
    exists i :: 0 <= i < |s.builders| && !Stopped(s.builders[i].phase) &&
      (BuilderStep(s, t, i, ioErrors) || StagedSomehow(s, t, i, Crashed))
  }

  ghost predicate StepAt(run: seq<State>, ioErrors: bool, k: nat) {
    0 < k < |run| ==> Next(run[k - 1], run[k], ioErrors)
  }

  ghost predicate IsRun(run: seq<State>, ioErrors: bool) {
    |run| > 0 && Initial(run[0]) && forall k {:trigger StepAt(run, ioErrors, k)} :: StepAt(run, ioErrors, k)
  }

  // ---- what holds

  /** The directory is a whole library, of files named `name` for one of the compilers. */
  ghost predicate LibraryNamed(compilers: set<string>, d: Dir, name: string) {
    exists identity, files ::
      identity in compilers && AllNulFree(files) && EntryName(identity, files) == name && IsLibrary(d, identity, files)
  }

  ghost predicate SomeLibrary(s: State, name: string) {
    name in s.entries && LibraryNamed(s.compilers, s.entries[name], name)
  }

  /** A builder whose compiler is one of those that build into the root. */
  ghost predicate Fits(s: State, b: Builder) {
    b.identity in s.compilers && AllNulFree(b.files)
  }

  ghost predicate Compilers(s: State) {
    forall identity :: identity in s.compilers ==> NulFree(identity)
  }

  /** A cache root as earlier runs of any compilers may have left it, and builders with compilers
      and staging names of their own. */
  ghost predicate Initial(s: State) {
    && Compilers(s)
    && (forall name :: HasDone(s, name) ==> SomeLibrary(s, name))
    && (forall i :: 0 <= i < |s.builders| ==>
         s.builders[i].phase == Checking && Fits(s, s.builders[i]) && s.builders[i].staging !in s.staging)
    && forall i, j :: 0 <= i < j < |s.builders| ==> s.builders[i].staging != s.builders[j].staging
  }

  /** What a builder may rely on, phase by phase. */
  ghost predicate PhaseHolds(s: State, b: Builder) {
    var d := StagedAt(s, b.staging);
    match b.phase
    case Checking => d == EMPTY
    case Writing(k) => k <= |b.files| && d == Dir(SourcesOf(b.files[..k]), NoClasses, false)
    case Compiling => d.src == SourcesOf(b.files) && !d.done
    case Sealing => d.src == SourcesOf(b.files) && d.classes == ClassesOf(b.identity, d.src)
    case Renaming => IsLibrary(d, b.identity, b.files)
    case Answered(answer) => answer == Ok ==> HasDone(s, NameOf(b))
    case _ => true
  }

  ghost predicate Inv(s: State) {
    && Compilers(s)
    && (forall name :: HasDone(s, name) ==> SomeLibrary(s, name))
    && (forall i :: 0 <= i < |s.builders| ==> Fits(s, s.builders[i]) && PhaseHolds(s, s.builders[i]))
    && forall i, j :: 0 <= i < j < |s.builders| ==> s.builders[i].staging != s.builders[j].staging
  }

  /** The directory is a whole library of what the builder asked for, or of what the entry's name
      cannot tell from it. */
  ghost predicate LibraryFor(compilers: set<string>, d: Dir, b: Builder) {
    exists identity, files ::
      identity in compilers && AllNulFree(files) && Alike(identity, files, b.identity, b.files) && IsLibrary(d, identity, files)
  }

  /** An entry that says it is done is whole, and `prepare` answers Ok only for a whole entry of
      what it was given, as far as a name tells. */
  ghost predicate Safe(s: State) {
    && (forall name :: HasDone(s, name) ==> SomeLibrary(s, name))
    && forall i :: 0 <= i < |s.builders| && s.builders[i].phase == Answered(Ok) ==>
         var b := s.builders[i];
         NameOf(b) in s.entries && LibraryFor(s.compilers, s.entries[NameOf(b)], b)
  }

  lemma NamedIsFor(compilers: set<string>, d: Dir, b: Builder)
    requires forall identity :: identity in compilers ==> NulFree(identity)
    requires b.identity in compilers && AllNulFree(b.files)
    ensures LibraryNamed(compilers, d, NameOf(b)) <==> LibraryFor(compilers, d, b)
  {
    if LibraryNamed(compilers, d, NameOf(b)) {
      var identity, files :|
        identity in compilers && AllNulFree(files) && EntryName(identity, files) == NameOf(b) && IsLibrary(d, identity, files);
      EntryNamesExactly(identity, files, b.identity, b.files);
    }
    if LibraryFor(compilers, d, b) {
      var identity, files :|
        identity in compilers && AllNulFree(files) && Alike(identity, files, b.identity, b.files) && IsLibrary(d, identity, files);
      EntryNamesExactly(identity, files, b.identity, b.files);
    }
  }

  lemma InvIsSafe(s: State)
    requires Inv(s)
    ensures Safe(s)
  {
    forall i | 0 <= i < |s.builders| && s.builders[i].phase == Answered(Ok)
      ensures var b := s.builders[i]; NameOf(b) in s.entries && LibraryFor(s.compilers, s.entries[NameOf(b)], b)
    {
      var b := s.builders[i];
      assert PhaseHolds(s, b) && Fits(s, b);
      NamedIsFor(s.compilers, s.entries[NameOf(b)], b);
    }
  }

  /** No compiler's identity begins with another's. */
  predicate PrefixFree(compilers: set<string>) {
    forall i, j :: i in compilers && j in compilers && i <= j ==> i == j
  }

  /** Then an entry a builder is answered Ok for is its own compiler's library of its own files. */
  lemma PrefixFreeIsExact(compilers: set<string>, d: Dir, b: Builder)
    requires PrefixFree(compilers) && LibraryFor(compilers, d, b)
    requires forall identity :: identity in compilers ==> NulFree(identity)
    requires b.identity in compilers && AllNulFree(b.files)
    ensures IsLibrary(d, b.identity, b.files)
  {
    var identity, files :|
      identity in compilers && AllNulFree(files) && Alike(identity, files, b.identity, b.files) && IsLibrary(d, identity, files);
    EntryNamesExactly(identity, files, b.identity, b.files);
    ConfusedExactly(identity, b.identity);
    EntryNameIsInjective(b.identity, files, b.files);
  }

  /** Entries only appear, and one that is not an empty directory never changes. */
  ghost predicate EntriesKept(s: State, t: State) {
    && t.compilers == s.compilers
    && forall name :: name in s.entries && s.entries[name] != EMPTY ==> name in t.entries && t.entries[name] == s.entries[name]
  }

  /** A step changes its own builder, its own staging directory and, renaming, its own entry. */
  ghost predicate OwnOnly(s: State, t: State, i: nat)
    requires i < |s.builders|
  {
    var b := s.builders[i];
    && |t.builders| == |s.builders|
    && (forall j :: 0 <= j < |s.builders| && j != i ==> t.builders[j] == s.builders[j])
    && t.builders[i].identity == b.identity && t.builders[i].files == b.files && t.builders[i].staging == b.staging
    && (forall id :: id != b.staging ==> StagedAt(t, id) == StagedAt(s, id))
    && EntriesKept(s, t)
  }

  lemma MovesAreOwn(s: State, i: nat)
    requires i < |s.builders|
    ensures forall phase :: OwnOnly(s, Moved(s, i, phase), i)
  {
  }

  lemma StagingIsOwn(s: State, i: nat)
    requires i < |s.builders|
    ensures forall d, phase :: OwnOnly(s, Staged(s, i, d, phase), i)
  {
  }

  lemma LeavingIsOwn(s: State, t: State, i: nat, phase: Phase)
    requires i < |s.builders| && StagedSomehow(s, t, i, phase)
    ensures OwnOnly(s, t, i)
  {
    MovesAreOwn(s, i);
    StagingIsOwn(s, i);
  }

  lemma RenamingIsOwn(s: State, t: State, i: nat, ioErrors: bool)
    requires i < |s.builders| && RenameStep(s, t, i, ioErrors)
    ensures OwnOnly(s, t, i)
  {
    MovesAreOwn(s, i);
  }

  lemma StepsAreOwn(s: State, t: State, i: nat, ioErrors: bool)
    requires i < |s.builders| && (BuilderStep(s, t, i, ioErrors) || StagedSomehow(s, t, i, Crashed))
    ensures OwnOnly(s, t, i)
  {
    if StagedSomehow(s, t, i, Crashed) {
      LeavingIsOwn(s, t, i, Crashed);
    } else {
      MovesAreOwn(s, i);
      StagingIsOwn(s, i);
      match s.builders[i].phase
      case Checking =>
      case Writing(k) => if StagedSomehow(s, t, i, Answered(Failed)) { LeavingIsOwn(s, t, i, Answered(Failed)); }
      case Compiling =>
      case Sealing =>
      case Renaming => RenamingIsOwn(s, t, i, ioErrors);
      case Discarding =>
        if StagedSomehow(s, t, i, Discarding) { LeavingIsOwn(s, t, i, Discarding); } else { LeavingIsOwn(s, t, i, Rechecking); }
      case Rechecking =>
      case Cleaning =>
        if StagedSomehow(s, t, i, Cleaning) { LeavingIsOwn(s, t, i, Cleaning); } else { LeavingIsOwn(s, t, i, Answered(Failed)); }
    }
  }

  /** The builder that takes a step, given that one does. */
  lemma Actor(s: State, t: State, ioErrors: bool) returns (i: nat)
    requires Next(s, t, ioErrors)
    ensures i < |s.builders| && (BuilderStep(s, t, i, ioErrors) || StagedSomehow(s, t, i, Crashed))
    ensures OwnOnly(s, t, i)
  {
    i :| 0 <= i < |s.builders| && !Stopped(s.builders[i].phase) &&
      (BuilderStep(s, t, i, ioErrors) || StagedSomehow(s, t, i, Crashed));
    StepsAreOwn(s, t, i, ioErrors);
  }

  lemma SourcesGrow(files: seq<File>, k: nat)
    requires k < |files|
    ensures SourcesOf(files[..k + 1]) == SourcesOf(files[..k])[files[k].path := files[k].content]
  {
    assert files[..k + 1][..k] == files[..k];
  }

  /** A step that is not a rename leaves the entries as they are. */
  lemma OnlyRenamesInstall(s: State, t: State, i: nat, ioErrors: bool)
    requires i < |s.builders| && !s.builders[i].phase.Renaming?
    requires BuilderStep(s, t, i, ioErrors) || StagedSomehow(s, t, i, Crashed)
    ensures t.entries == s.entries
  {
  }

  lemma WriterKeeps(s: State, t: State, i: nat, k: nat)
    requires i < |s.builders| && s.builders[i].phase == Writing(k)
    requires PhaseHolds(s, s.builders[i]) && WriteStep(s, t, i, k)
    ensures |t.builders| == |s.builders| && PhaseHolds(t, t.builders[i])
  {
    var b := s.builders[i];
    if k < |b.files| { SourcesGrow(b.files, k); } else { assert b.files[..k] == b.files; }
  }

  lemma CompilerKeeps(s: State, t: State, i: nat)
    requires i < |s.builders| && (s.builders[i].phase.Compiling? || s.builders[i].phase.Sealing?)
    requires PhaseHolds(s, s.builders[i])
    requires if s.builders[i].phase.Compiling? then CompileStep(s, t, i) else SealStep(s, t, i)
    ensures |t.builders| == |s.builders| && PhaseHolds(t, t.builders[i])
  {
  }

  lemma RenamerKeeps(s: State, t: State, i: nat, ioErrors: bool)
    requires i < |s.builders| && s.builders[i].phase.Renaming?
    requires PhaseHolds(s, s.builders[i]) && RenameStep(s, t, i, ioErrors)
    ensures |t.builders| == |s.builders| && PhaseHolds(t, t.builders[i])
    ensures forall name :: HasDone(t, name) && !HasDone(s, name) ==> name == NameOf(s.builders[i]) && IsLibrary(t.entries[name], s.builders[i].identity, s.builders[i].files)
  {
  }

  lemma ActorPhase(s: State, t: State, i: nat, ioErrors: bool)
    requires i < |s.builders| && PhaseHolds(s, s.builders[i])
    requires BuilderStep(s, t, i, ioErrors)
    ensures |t.builders| == |s.builders| && PhaseHolds(t, t.builders[i])
  {
    match s.builders[i].phase
    case Checking => FirstKeeps(s, t, i);
    case Writing(k) => WriterKeeps(s, t, i, k);
    case Compiling => CompilerKeeps(s, t, i);
    case Sealing => CompilerKeeps(s, t, i);
    case Renaming => RenamerKeeps(s, t, i, ioErrors);
    case Rechecking =>
    case _ =>
  }

  lemma FirstKeeps(s: State, t: State, i: nat)
    requires i < |s.builders| && s.builders[i].phase.Checking? && PhaseHolds(s, s.builders[i]) && CheckStep(s, t, i)
    ensures |t.builders| == |s.builders| && PhaseHolds(t, t.builders[i])
  {
    assert s.builders[i].files[..0] == [];
  }

  /** The acting builder: its next phase's promise, and no new entry but a whole one. */
  lemma ActorKeeps(s: State, t: State, i: nat, ioErrors: bool)
    requires i < |s.builders| && PhaseHolds(s, s.builders[i])
    requires BuilderStep(s, t, i, ioErrors) || StagedSomehow(s, t, i, Crashed)
    ensures |t.builders| == |s.builders| && PhaseHolds(t, t.builders[i])
    ensures forall name :: HasDone(t, name) && !HasDone(s, name) ==> name == NameOf(s.builders[i]) && IsLibrary(t.entries[name], s.builders[i].identity, s.builders[i].files)
  {
    if StagedSomehow(s, t, i, Crashed) {
    } else {
      ActorPhase(s, t, i, ioErrors);
      if s.builders[i].phase.Renaming? {
        RenamerKeeps(s, t, i, ioErrors);
      } else {
        OnlyRenamesInstall(s, t, i, ioErrors);
      }
    }
  }

  lemma StepKeepsInv(s: State, t: State, i: nat, ioErrors: bool)
    requires i < |s.builders| && Inv(s)
    requires BuilderStep(s, t, i, ioErrors) || StagedSomehow(s, t, i, Crashed)
    ensures Inv(t)
  {
    StepsAreOwn(s, t, i, ioErrors);
    ActorKeeps(s, t, i, ioErrors);
    forall name | HasDone(t, name)
      ensures SomeLibrary(t, name)
    {
      if HasDone(s, name) {
        assert SomeLibrary(s, name) && t.entries[name] == s.entries[name];
      } else {
        assert Fits(s, s.builders[i]);
      }
    }
    forall j | 0 <= j < |t.builders|
      ensures Fits(t, t.builders[j]) && PhaseHolds(t, t.builders[j])
    {
      if j != i {
        assert PhaseHolds(s, s.builders[j]);
        assert s.builders[j].staging != s.builders[i].staging;
      }
    }
  }

  lemma NextKeepsInv(s: State, t: State, ioErrors: bool)
    requires Inv(s) && Next(s, t, ioErrors)
    ensures Inv(t)
  {
    var i := Actor(s, t, ioErrors);
    StepKeepsInv(s, t, i, ioErrors);
  }

  lemma {:induction false} RunKeepsInv(run: seq<State>, ioErrors: bool, k: nat)
    requires IsRun(run, ioErrors) && k < |run|
    ensures Inv(run[k])
    decreases k
  {
    if k > 0 {
      RunKeepsInv(run, ioErrors, k - 1);
      assert StepAt(run, ioErrors, k);
      NextKeepsInv(run[k - 1], run[k], ioErrors);
    }
  }

  /** Safety over every run: no reader of the cache ever sees half a library. */
  lemma RunsAreSafe(run: seq<State>, ioErrors: bool)
    requires IsRun(run, ioErrors)
    ensures forall k :: 0 <= k < |run| ==> Safe(run[k])
  {
    forall k | 0 <= k < |run|
      ensures Safe(run[k])
    {
      RunKeepsInv(run, ioErrors, k);
      InvIsSafe(run[k]);
    }
  }

  // ---- what a builder does to the cache

  /** A builder that finds its entry done answers with it at once and builds nothing; one that does
      not, builds. */
  lemma DoneIsReused(s: State, t: State, i: nat, ioErrors: bool)
    requires i < |s.builders| && s.builders[i].phase == Checking && BuilderStep(s, t, i, ioErrors)
    ensures t.entries == s.entries && t.staging == s.staging
    ensures HasDone(s, NameOf(s.builders[i])) <==> t.builders[i].phase == Answered(Ok)
  {}

  /** A builder answers Ok by finding its entry done, or by installing its own staging directory,
      which is then no longer staged. */
  lemma InstalledIsMoved(s: State, t: State, i: nat, ioErrors: bool)
    requires i < |s.builders| && s.builders[i].phase != Answered(Ok) && BuilderStep(s, t, i, ioErrors)
    ensures |t.builders| == |s.builders|
    ensures var b := s.builders[i];
      t.builders[i].phase == Answered(Ok) ==>
      if b.phase.Renaming? then t.entries == s.entries[NameOf(b) := StagedAt(s, b.staging)] && b.staging !in t.staging
      else t.entries == s.entries && HasDone(s, NameOf(b))
  {}

  // ---- what an Ok is worth later

  lemma NextKeepsEntries(run: seq<State>, ioErrors: bool, k: nat)
    requires IsRun(run, ioErrors) && 0 < k < |run|
    ensures EntriesKept(run[k - 1], run[k])
  {
    assert StepAt(run, ioErrors, k);
    var i := Actor(run[k - 1], run[k], ioErrors);
  }

  lemma KeptTwice(s: State, t: State, u: State)
    requires EntriesKept(s, t) && EntriesKept(t, u)
    ensures EntriesKept(s, u)
  {
  }

  lemma {:induction false} EntriesLast(run: seq<State>, ioErrors: bool, j: nat, k: nat)
    requires IsRun(run, ioErrors) && j <= k < |run|
    ensures EntriesKept(run[j], run[k])
    decreases k
  {
    if j < k {
      EntriesLast(run, ioErrors, j, k - 1);
      var s, t := run[k - 1], run[k];
      NextKeepsEntries(run, ioErrors, k);
      KeptTwice(run[j], s, t);
    }
  }

  /** The library an Ok stands for is there, the same, ever after; and where no compiler's identity
      begins with another's it is the builder's own. */
  lemma OkStands(run: seq<State>, ioErrors: bool, j: nat, k: nat, i: nat)
    requires IsRun(run, ioErrors) && j <= k < |run|
    requires i < |run[j].builders| && run[j].builders[i].phase == Answered(Ok)
    ensures var b := run[j].builders[i];
      && NameOf(b) in run[j].entries && NameOf(b) in run[k].entries
      && run[k].entries[NameOf(b)] == run[j].entries[NameOf(b)]
      && LibraryFor(run[j].compilers, run[k].entries[NameOf(b)], b)
      && (PrefixFree(run[j].compilers) ==> IsLibrary(run[k].entries[NameOf(b)], b.identity, b.files))
  {
    RunsAreSafe(run, ioErrors);
    assert Safe(run[j]);
    EntriesLast(run, ioErrors, j, k);
    RunKeepsInv(run, ioErrors, j);
    var b := run[j].builders[i];
    assert Fits(run[j], b);
    if PrefixFree(run[j].compilers) { PrefixFreeIsExact(run[j].compilers, run[j].entries[NameOf(b)], b); }
  }

  // ---- when the library is another compiler's

  /** A root with `i`'s library of one file, and a builder of another one under `j`. */
  function SharedRoot(i: string, j: string): State
    requires i <= j
  {
    var theirs, own := [File(j[|i|..] + "x", "")], [File("x", "")];
    State({i, j},
          map[EntryName(i, theirs) := Dir(SourcesOf(theirs), ClassesOf(i, SourcesOf(theirs)), true)],
          map[],
          [Builder(j, own, 0, Checking)])
  }

  /** Where an identity begins with another, a builder can be answered Ok for the other compiler's
      library of another file: no less than `PrefixFree` will do. */
  lemma OtherCompilersLibrary(i: string, j: string) returns (run: seq<State>)
    requires NulFree(i) && NulFree(j) && i <= j && i != j
    ensures IsRun(run, false) && |run| == 2 && run[0].compilers == {i, j} && |run[1].builders| == 1
    ensures var b := run[1].builders[0];
      && b.phase == Answered(Ok) && NameOf(b) in run[1].entries
      && !IsLibrary(run[1].entries[NameOf(b)], b.identity, b.files)
  {
    var s := SharedRoot(i, j);
    var theirs, own := [File(j[|i|..] + "x", "")], [File("x", "")];
    RunsIntoPath(i, j, "x", "");
    var t := Moved(s, 0, Answered(Ok));
    run := [s, t];
    assert LibraryNamed(s.compilers, s.entries[EntryName(i, theirs)], EntryName(i, theirs)) by {
      assert IsLibrary(s.entries[EntryName(i, theirs)], i, theirs);
    }
    assert Initial(s);
    assert BuilderStep(s, t, 0, false);
    forall k: nat {:trigger StepAt(run, false, k)} ensures StepAt(run, false, k) {
    }
  }

  // ---- when installing fails

  /** An entry that is there, holds something and is not done. */
  predicate HalfEntry(s: State, name: string) {
    name in s.entries && s.entries[name] != EMPTY && !s.entries[name].done
  }

  /** A half entry, which no `prepare` makes, is never repaired: nobody asking for it gets Ok. */
  lemma HalfEntriesStay(run: seq<State>, ioErrors: bool, k: nat, name: string)
    requires IsRun(run, ioErrors) && k < |run| && HalfEntry(run[0], name)
    ensures HalfEntry(run[k], name)
    ensures forall i :: 0 <= i < |run[k].builders| && NameOf(run[k].builders[i]) == name ==>
      run[k].builders[i].phase != Answered(Ok)
  {
    EntriesLast(run, ioErrors, 0, k);
    RunKeepsInv(run, ioErrors, k);
    forall i | 0 <= i < |run[k].builders| && NameOf(run[k].builders[i]) == name
      ensures run[k].builders[i].phase != Answered(Ok)
    {
      assert PhaseHolds(run[k], run[k].builders[i]);
    }
  }

  /** Losers of a rename race lost to a library. */
  ghost predicate LostToLibrary(s: State, b: Builder) {
    && ((b.phase.Discarding? || b.phase.Rechecking?) ==> HasDone(s, NameOf(b)))
    && b.phase != Answered(NotInstalled)
  }

  /** Nothing half-installed, and no loser without a library. */
  ghost predicate NoLosers(s: State) {
    && (forall name :: !HalfEntry(s, name))
    && forall i :: 0 <= i < |s.builders| ==> LostToLibrary(s, s.builders[i])
  }

  lemma StepMakesNoHalf(s: State, t: State, i: nat, name: string)
    requires i < |s.builders| && PhaseHolds(s, s.builders[i]) && !HalfEntry(s, name)
    requires BuilderStep(s, t, i, false) || StagedSomehow(s, t, i, Crashed)
    ensures !HalfEntry(t, name)
  {
    if s.builders[i].phase.Renaming? {
    } else {
      OnlyRenamesInstall(s, t, i, false);
    }
  }

  lemma RenamerLoses(s: State, t: State, i: nat)
    requires i < |s.builders| && s.builders[i].phase.Renaming? && !HalfEntry(s, NameOf(s.builders[i]))
    requires RenameStep(s, t, i, false)
    ensures |t.builders| == |s.builders| && LostToLibrary(t, t.builders[i])
  {
  }

  lemma LoserLeaves(s: State, t: State, i: nat)
    requires i < |s.builders| && s.builders[i].phase.Discarding? && LostToLibrary(s, s.builders[i])
    requires StagedSomehow(s, t, i, Discarding) || StagedSomehow(s, t, i, Rechecking)
    ensures |t.builders| == |s.builders| && LostToLibrary(t, t.builders[i])
  {
  }

  lemma BuildersElsewhere(s: State, t: State, i: nat)
    requires i < |s.builders| && BuilderStep(s, t, i, false)
    requires var p := s.builders[i].phase; p.Checking? || p.Writing? || p.Compiling? || p.Sealing? || p.Cleaning?
    ensures |t.builders| == |s.builders| && LostToLibrary(t, t.builders[i])
  {
  }

  /** The acting builder loses a race only to an entry that is not empty, so to a library. */
  lemma ActorLosesToLibrary(s: State, t: State, i: nat)
    requires i < |s.builders| && LostToLibrary(s, s.builders[i]) && !HalfEntry(s, NameOf(s.builders[i]))
    requires BuilderStep(s, t, i, false) || StagedSomehow(s, t, i, Crashed)
    ensures |t.builders| == |s.builders| && LostToLibrary(t, t.builders[i])
  {
    if StagedSomehow(s, t, i, Crashed) {
    } else {
      match s.builders[i].phase
      case Renaming => RenamerLoses(s, t, i);
      case Discarding => LoserLeaves(s, t, i);
      case Rechecking =>
      case _ => BuildersElsewhere(s, t, i);
    }
  }

  lemma StepKeepsNoLosers(s: State, t: State, i: nat)
    requires i < |s.builders| && PhaseHolds(s, s.builders[i]) && NoLosers(s)
    requires BuilderStep(s, t, i, false) || StagedSomehow(s, t, i, Crashed)
    ensures NoLosers(t)
  {
    StepsAreOwn(s, t, i, false);
    ActorLosesToLibrary(s, t, i);
    forall name
      ensures !HalfEntry(t, name)
    {
      StepMakesNoHalf(s, t, i, name);
    }
    forall j | 0 <= j < |t.builders| && j != i
      ensures LostToLibrary(t, t.builders[j])
    {
      assert LostToLibrary(s, s.builders[j]) && t.builders[j] == s.builders[j];
    }
  }

  lemma NextKeepsNoLosers(s: State, t: State)
    requires Inv(s) && NoLosers(s) && Next(s, t, false)
    ensures NoLosers(t)
  {
    var i := Actor(s, t, false);
    assert PhaseHolds(s, s.builders[i]);
    StepKeepsNoLosers(s, t, i);
  }

  lemma {:induction false} RunKeepsNoLosers(run: seq<State>, k: nat)
    requires IsRun(run, false) && k < |run| && forall name :: !HalfEntry(run[0], name)
    ensures NoLosers(run[k])
    decreases k
  {
    if k > 0 {
      RunKeepsNoLosers(run, k - 1);
      RunKeepsInv(run, false, k - 1);
      assert StepAt(run, false, k);
      NextKeepsNoLosers(run[k - 1], run[k]);
    }
  }

  /** "Could not install" needs a half entry from before or an I/O error in a rename: a race alone
      never causes it. */
  lemma RacesAlwaysInstall(run: seq<State>, k: nat, i: nat)
    requires IsRun(run, false) && k < |run| && i < |run[k].builders|
    requires forall name :: !HalfEntry(run[0], name)
    ensures run[k].builders[i].phase != Answered(NotInstalled)
  {
    RunKeepsNoLosers(run, k);
  }
}
