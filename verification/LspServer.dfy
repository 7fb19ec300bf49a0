/** The language server's loop: messages are handled as they come, and once edits are followed by
    a quiet period the diagnostics of every open document's project are published. */
module LspServer {
  import opened Basics
  import opened LspModel

  /** An analysis kept since the last document event, by tree and open buffers. */
  datatype Entry = Entry(root: Path, overlay: Overlay, analysis: Analysis)

  const MAX_ANALYSES: nat := 4

  /** What the client had been sent when the loop blocked after `handled` messages, and after how
      many of them diagnostics were last published. */
  datatype Block = Block(handled: nat, published: Option<nat>, sent: seq<Sent>)

  ghost predicate EntryFor(w: World, disk: Disk, e: Entry, p: Path) {
    KeyRoot(w, disk, p) == e.root && Fresh(w, disk, e.overlay, p) == Some(e.analysis)
  }

  ghost predicate EntriesFor(w: World, disk: Disk, es: seq<Entry>, paths: set<Path>) {
    forall i {:trigger EntryIn(w, disk, es[i], paths)} :: 0 <= i < |es| ==> EntryIn(w, disk, es[i], paths)
  }

  ghost predicate EntryIn(w: World, disk: Disk, e: Entry, paths: set<Path>) {
    exists p :: p in paths && EntryFor(w, disk, e, p)
  }

  /** What is shown when the loop blocks: nothing before the first edit, and otherwise the
      diagnostics of the documents as the last publication saw them, which no message since has
      touched; those right where then documents named alike belonged to the same project. */
  ghost predicate UpToDate(w: World, start: Disk, script: seq<Arrival>, b: Block) {
    b.handled <= |script| &&
    match b.published
    case None => b.sent == [] && Untouched(script, 0, b.handled)
    case Some(k) =>
      && k <= b.handled && Untouched(script, k, b.handled)
      && (SeparateAt(w, start, script, k, k) ==> Settled(w, After(start, script, k), b.sent))
  }

  /** The documents the first `n` messages name, and the workspace. */
  ghost function PathsTo(w: World, script: seq<Arrival>, n: nat): set<Path>
    requires n <= |script|
  {
    {w.root} + (set i, p | 0 <= i < n && p in PathsIn(script[i].msg) :: p)
  }

  ghost function PathsIn(m: Message): set<Path> {
    if m.Request? then set i | 0 <= i < |m.asks| :: m.asks[i].path
    else if m.Event? && !m.note.DidSave? && m.note.path.Some? then {m.note.path.value}
    else {}
  }

  /** On the disk after `k` messages, documents named by the first `n` and named alike belong to the
      same project. */
  ghost predicate SeparateAt(w: World, start: Disk, script: seq<Arrival>, k: nat, n: nat)
    requires k <= |script| && n <= |script|
  {
    OneProjectPerRoot(w, After(start, script, k).disk, PathsTo(w, script, n))
  }

  lemma PathsGrow(w: World, script: seq<Arrival>, n: nat, m: nat)
    requires n <= m <= |script|
    ensures PathsTo(w, script, n) <= PathsTo(w, script, m)
  {}

  lemma {:induction false} OpenPathsAreNamed(w: World, start: Disk, script: seq<Arrival>, n: nat, p: Path)
    requires n <= |script| && p in After(start, script, n).uris
    ensures p in PathsTo(w, script, n)
  {
    BuffersAreTheClients(start, script, n, p);
    var i := LastNaming(script, n, p).value;
    assert i < n && p in PathsIn(script[i].msg);
  }

  ghost predicate CacheRight(w: World, disk: Disk, es: seq<Entry>, paths: set<Path>) {
    |es| <= MAX_ANALYSES && EntriesFor(w, disk, es, paths)
  }

  /** A URI whose last list was not empty is among the published ones. */
  ghost predicate ShownAreRecorded(published: set<Uri>, sent: seq<Sent>) {
    forall uri :: uri !in published ==> Shown(sent, uri) == []
  }

  /** Every ask is answered in its place, and right where, as it was answered, documents named up to
      then and named alike belonged to the same project. */
  ghost predicate AnswersRight(w: World, start: Disk, script: seq<Arrival>, n: nat, answers: seq<Option<Analysis>>)
    requires n <= |script|
  {
    && |answers| == AsksBefore(script, n)
    && forall i: nat {:trigger AnswerRight(w, start, script, i, answers)} :: i < n ==> AnswerRight(w, start, script, i, answers)
  }

  ghost predicate AnswerRight(w: World, start: Disk, script: seq<Arrival>, i: nat, answers: seq<Option<Analysis>>)
    requires i < |script|
  {
    script[i].msg.Request? && SeparateAt(w, start, script, i, i + 1) ==> AnsweredAt(w, start, script, i, answers)
  }

  /** The last publication showed the documents as they were, and what came since is not shown
      only if the server is dirty. */
  ghost predicate PublishedRight(w: World, start: Disk, script: seq<Arrival>, n: nat, dirty: bool, sent: seq<Sent>, publications: seq<nat>)
    requires n <= |script|
  {
    if publications == [] then sent == [] && (!dirty ==> Untouched(script, 0, n))
    else
      var k := publications[|publications| - 1];
      && k <= n
      && (!dirty ==> Untouched(script, k, n))
      && (SeparateAt(w, start, script, k, k) ==> Settled(w, After(start, script, k), sent))
  }

  /** The documents are as `n` messages left them; the analyses kept are of documents named by the
      first `m`. */
  ghost predicate InputsRight(w: World, start: Disk, script: seq<Arrival>, n: nat, m: nat, d: Docs, analyses: seq<Entry>)
    requires n <= |script| && m <= |script|
  {
    d == After(start, script, n) && CacheRight(w, d.disk, analyses, PathsTo(w, script, m))
  }

  ghost predicate OutputsRight(
    w: World, start: Disk, script: seq<Arrival>, n: nat, dirty: bool, sent: seq<Sent>, answers: seq<Option<Analysis>>, publications: seq<nat>)
    requires n <= |script|
  {
    AnswersRight(w, start, script, n, answers) && PublishedRight(w, start, script, n, dirty, sent, publications)
  }

  lemma InputsLater(w: World, start: Disk, script: seq<Arrival>, n: nat, m: nat, later: nat, d: Docs, analyses: seq<Entry>)
    requires n <= |script| && m <= later <= |script| && InputsRight(w, start, script, n, m, d, analyses)
    ensures InputsRight(w, start, script, n, later, d, analyses)
  {
    PathsGrow(w, script, m, later);
    EntriesLater(w, d.disk, analyses, PathsTo(w, script, m), PathsTo(w, script, later));
  }

  lemma EntriesLater(w: World, disk: Disk, es: seq<Entry>, paths: set<Path>, more: set<Path>)
    requires EntriesFor(w, disk, es, paths) && paths <= more
    ensures EntriesFor(w, disk, es, more)
  {
    forall i | 0 <= i < |es| ensures EntryIn(w, disk, es[i], more) { assert EntryIn(w, disk, es[i], paths); }
  }

  /** One message handled that is not a request: the documents and the analyses kept. */
  lemma InputsAfter(w: World, start: Disk, script: seq<Arrival>, n: nat, d: Docs, analyses: seq<Entry>)
    requires n < |script| && InputsRight(w, start, script, n, n, d, analyses)
    ensures InputsRight(w, start, script, n + 1, n + 1, Apply(d, script[n].msg), [])
    ensures !script[n].msg.Event? ==> InputsRight(w, start, script, n + 1, n + 1, d, analyses)
  {
    InputsLater(w, start, script, n, n, n + 1, d, analyses);
  }

  /** What has been answered and shown, once a message that is not a request is handled. */
  lemma OutputsAfter(
    w: World, start: Disk, script: seq<Arrival>, n: nat, dirty: bool, dirty2: bool, sent: seq<Sent>, answers: seq<Option<Analysis>>, publications: seq<nat>)
    requires n < |script| && (dirty2 <==> dirty || Touches(script[n].msg)) && !script[n].msg.Request?
    requires OutputsRight(w, start, script, n, dirty, sent, answers, publications)
    ensures OutputsRight(w, start, script, n + 1, dirty2, sent, answers, publications)
  {
    StillPublished(w, start, script, n, dirty, dirty2, sent, publications);
    Unanswered(w, start, script, n, answers);
  }

  /** A request handled, the results being those of its asks. */
  lemma AfterRequest(
    w: World, start: Disk, script: seq<Arrival>, n: nat, d: Docs, analyses: seq<Entry>, dirty: bool, sent: seq<Sent>, answers: seq<Option<Analysis>>,
    results: seq<Option<Analysis>>, publications: seq<nat>)
    requires n < |script| && script[n].msg.Request? && |results| == |script[n].msg.asks|
    requires InputsRight(w, start, script, n, n + 1, d, analyses)
    requires OutputsRight(w, start, script, n, dirty, sent, answers, publications)
    requires ResultsRight(w, start, script, n, d, script[n].msg.asks, results)
    ensures InputsRight(w, start, script, n + 1, n + 1, d, analyses)
    ensures OutputsRight(w, start, script, n + 1, dirty, sent, answers + results, publications)
  {
    StillPublished(w, start, script, n, dirty, dirty, sent, publications);
    Answered(w, start, script, n, answers, results);
  }

  ghost predicate ResultsRight(w: World, start: Disk, script: seq<Arrival>, n: nat, d: Docs, asks: seq<Ask>, results: seq<Option<Analysis>>)
    requires n < |script|
  {
    |results| <= |asks| &&
    (SeparateAt(w, start, script, n, n + 1) ==> forall j :: 0 <= j < |results| ==> results[j] == Answer(w, d, asks[j]))
  }

  lemma Unanswered(w: World, start: Disk, script: seq<Arrival>, n: nat, answers: seq<Option<Analysis>>)
    requires n < |script| && !script[n].msg.Request? && AnswersRight(w, start, script, n, answers)
    ensures AnswersRight(w, start, script, n + 1, answers)
  {
    forall i: nat | i < n + 1
      ensures AnswerRight(w, start, script, i, answers)
    {
      assert i < n ==> AnswerRight(w, start, script, i, answers);
    }
  }

  /** What was answered stays answered as more is. */
  lemma StillAnswered(w: World, start: Disk, script: seq<Arrival>, i: nat, answers: seq<Option<Analysis>>, more: seq<Option<Analysis>>)
    requires i < |script| && AnswerRight(w, start, script, i, answers)
    ensures AnswerRight(w, start, script, i, answers + more)
  {}

  lemma AnsweredNow(w: World, start: Disk, script: seq<Arrival>, n: nat, answers: seq<Option<Analysis>>, results: seq<Option<Analysis>>)
    requires n < |script| && script[n].msg.Request? && |answers| == AsksBefore(script, n)
    requires |results| == |script[n].msg.asks|
    requires ResultsRight(w, start, script, n, After(start, script, n), script[n].msg.asks, results)
    ensures AnswerRight(w, start, script, n, answers + results)
  {}

  lemma Answered(w: World, start: Disk, script: seq<Arrival>, n: nat, answers: seq<Option<Analysis>>, results: seq<Option<Analysis>>)
    requires n < |script| && script[n].msg.Request? && AnswersRight(w, start, script, n, answers)
    requires |results| == |script[n].msg.asks|
    requires ResultsRight(w, start, script, n, After(start, script, n), script[n].msg.asks, results)
    ensures AnswersRight(w, start, script, n + 1, answers + results)
  {
    AnsweredNow(w, start, script, n, answers, results);
    forall i: nat | i < n + 1
      ensures AnswerRight(w, start, script, i, answers + results)
    {
      if i < n { StillAnswered(w, start, script, i, answers, results); }
    }
  }

  lemma StillPublished(w: World, start: Disk, script: seq<Arrival>, n: nat, dirty: bool, dirty2: bool, sent: seq<Sent>, publications: seq<nat>)
    requires n < |script| && (dirty2 <==> dirty || Touches(script[n].msg))
    requires PublishedRight(w, start, script, n, dirty, sent, publications)
    ensures PublishedRight(w, start, script, n + 1, dirty2, sent, publications)
  {}

  lemma CacheHit(w: World, disk: Disk, es: seq<Entry>, i: nat, path: Path, paths: set<Path>)
    requires i < |es| && path in paths && OneProjectPerRoot(w, disk, paths) && CacheRight(w, disk, es, paths)
    requires es[i].root == KeyRoot(w, disk, path)
    ensures Fresh(w, disk, es[i].overlay, path) == Some(es[i].analysis)
  {
    assert EntryIn(w, disk, es[i], paths);
    var p :| p in paths && EntryFor(w, disk, es[i], p);
  }

  lemma CacheKept(w: World, disk: Disk, es: seq<Entry>, path: Path, buffers: Overlay, paths: set<Path>)
    requires CacheRight(w, disk, es, paths) && path in paths && Fresh(w, disk, buffers, path).Some?
    ensures CacheRight(w, disk, (if |es| >= MAX_ANALYSES then es[1..] else es) +
      [Entry(KeyRoot(w, disk, path), buffers, Fresh(w, disk, buffers, path).value)], paths)
  {
    assert EntryFor(w, disk, Entry(KeyRoot(w, disk, path), buffers, Fresh(w, disk, buffers, path).value), path);
  }

  function At(m: map<Uri, seq<Diag>>, uri: Uri): seq<Diag> {
    if uri in m then m[uri] else []
  }

  ghost predicate Collected(w: World, d: Docs, docs: seq<Path>, byUri: map<Uri, seq<Diag>>) {
    forall uri {:trigger At(byUri, uri)} :: At(byUri, uri) == Expected(w, d, docs, uri)
  }

  /** What is gathered of some documents, and the roots done for them, where reuse is right. */
  ghost predicate Gathered(separate: bool, w: World, d: Docs, docs: seq<Path>, byUri: map<Uri, seq<Diag>>, done: set<Path>) {
    separate ==> Collected(w, d, docs, byUri) && done == Roots(w, d, docs)
  }

  /** Before the first document nothing is collected, and no root is done. */
  lemma NothingCollected(w: World, d: Docs, docs: seq<Path>, byUri: map<Uri, seq<Diag>>)
    requires forall uri :: uri in byUri ==> byUri[uri] == []
    ensures docs[..0] == [] && Collected(w, d, docs[..0], byUri) && Roots(w, d, docs[..0]) == {}
  {}

  /** `byUri` is `before` with what `ds` reports added at the end of each list. */
  ghost predicate Added(w: World, uris: map<Path, Uri>, ds: seq<FileDiag>, before: map<Uri, seq<Diag>>, byUri: map<Uri, seq<Diag>>) {
    forall uri {:trigger At(byUri, uri)} :: At(byUri, uri) == At(before, uri) + DiagsAt(w, uris, ds, uri)
  }

  lemma DiagsAtLast(w: World, uris: map<Path, Uri>, ds: seq<FileDiag>, last: FileDiag, uri: Uri)
    ensures DiagsAt(w, uris, ds + [last], uri) ==
      DiagsAt(w, uris, ds, uri) + if !last.hidden && UriFor(w, uris, last.path) == Some(uri) then [last.diag] else []
  {
    assert (ds + [last])[..|ds|] == ds;
  }

  lemma AddOne(w: World, uris: map<Path, Uri>, ds: seq<FileDiag>, last: FileDiag, before: map<Uri, seq<Diag>>, byUri: map<Uri, seq<Diag>>)
    requires Added(w, uris, ds, before, byUri)
    ensures Added(w, uris, ds + [last], before, PushReport(w, uris, byUri, last))
  {
    var after := PushReport(w, uris, byUri, last);
    forall uri
      ensures At(after, uri) == At(before, uri) + DiagsAt(w, uris, ds + [last], uri)
    {
      DiagsAtLast(w, uris, ds, last, uri);
      assert At(byUri, uri) == At(before, uri) + DiagsAt(w, uris, ds, uri);
      Concat(At(before, uri), DiagsAt(w, uris, ds, uri), [last.diag]);
    }
  }

  lemma AddNone(w: World, uris: map<Path, Uri>, before: map<Uri, seq<Diag>>)
    ensures Added(w, uris, [], before, before)
  {
    forall uri
      ensures At(before, uri) == At(before, uri) + DiagsAt(w, uris, [], uri)
    {}
  }

  lemma Concat<T>(a: seq<T>, b: seq<T>, c: seq<T>)
    ensures (a + b) + c == a + (b + c)
  {}

  function PushTo(byUri: map<Uri, seq<Diag>>, uri: Uri, diag: Diag): map<Uri, seq<Diag>> {
    byUri[uri := At(byUri, uri) + [diag]]
  }

  function PushReport(w: World, uris: map<Path, Uri>, byUri: map<Uri, seq<Diag>>, d: FileDiag): map<Uri, seq<Diag>> {
    if d.hidden || UriFor(w, uris, d.path).None? then byUri
    else PushTo(byUri, UriFor(w, uris, d.path).value, d.diag)
  }

  ghost function PushAll(w: World, uris: map<Path, Uri>, ds: seq<FileDiag>, before: map<Uri, seq<Diag>>): map<Uri, seq<Diag>> {
    if ds == [] then before
    else PushReport(w, uris, PushAll(w, uris, ds[..|ds| - 1], before), ds[|ds| - 1])
  }

  lemma {:induction false} PushAllAdds(w: World, uris: map<Path, Uri>, ds: seq<FileDiag>, before: map<Uri, seq<Diag>>)
    ensures Added(w, uris, ds, before, PushAll(w, uris, ds, before))
  {
    if ds == [] {
      AddNone(w, uris, before);
    } else {
      PushAllAdds(w, uris, ds[..|ds| - 1], before);
      assert ds == ds[..|ds| - 1] + [ds[|ds| - 1]];
      AddOne(w, uris, ds[..|ds| - 1], ds[|ds| - 1], before, PushAll(w, uris, ds[..|ds| - 1], before));
    }
  }

  method AddDiags(w: World, uris: map<Path, Uri>, ds: seq<FileDiag>, before: map<Uri, seq<Diag>>) returns (byUri: map<Uri, seq<Diag>>)
    ensures Added(w, uris, ds, before, byUri) && before.Keys <= byUri.Keys
  {
    byUri := before;
    var i := 0;
    while i < |ds|
      invariant 0 <= i <= |ds| && byUri == PushAll(w, uris, ds[..i], before) && before.Keys <= byUri.Keys
    {
      assert ds[..i + 1][..i] == ds[..i];
      byUri := PushReport(w, uris, byUri, ds[i]);
      i := i + 1;
    }
    assert ds[..|ds|] == ds;
    PushAllAdds(w, uris, ds, before);
  }

  /** Since `before` each URI has been sent a list, if an empty one. */
  ghost predicate Told(before: seq<Sent>, sent: seq<Sent>, uris: set<Uri>) {
    before <= sent && forall uri :: uri in uris ==> ToldOf(before, sent, uri)
  }

  ghost predicate ToldOf(before: seq<Sent>, sent: seq<Sent>, uri: Uri) {
    exists i :: |before| <= i < |sent| && sent[i].uri == uri
  }

  lemma ToldOne(before: seq<Sent>, sent: seq<Sent>, uris: set<Uri>, s: Sent)
    requires Told(before, sent, uris)
    ensures Told(before, sent + [s], uris + {s.uri})
  {
    var more := sent + [s];
    assert more[|sent|] == s;
    forall uri | uri in uris
      ensures ToldOf(before, more, uri)
    {
      var i :| |before| <= i < |sent| && sent[i].uri == uri;
      assert more[i] == sent[i];
    }
  }

  lemma ToldBefore(first: seq<Sent>, before: seq<Sent>, sent: seq<Sent>, uris: set<Uri>)
    requires first <= before && Told(before, sent, uris)
    ensures Told(first, sent, uris)
  {
    forall uri | uri in uris ensures ToldOf(first, sent, uri) { assert ToldOf(before, sent, uri); }
  }

  /** The lists of `done` are those of `byUri`; of the other URIs nothing has been sent since `before`. */
  ghost predicate SentFor(before: seq<Sent>, done: set<Uri>, byUri: map<Uri, seq<Diag>>, sent: seq<Sent>) {
    forall uri {:trigger Shown(sent, uri)} :: Shown(sent, uri) == if uri in done then At(byUri, uri) else Shown(before, uri)
  }

  lemma SendOne(before: seq<Sent>, done: set<Uri>, byUri: map<Uri, seq<Diag>>, sent: seq<Sent>, uri: Uri)
    requires SentFor(before, done, byUri, sent)
    ensures SentFor(before, done + {uri}, byUri, sent + [Sent(uri, At(byUri, uri))])
  {
    forall u { ShownAfter(sent, Sent(uri, At(byUri, uri)), u); }
  }

  lemma ExpectedLast(w: World, d: Docs, init: seq<Path>, doc: Path, uri: Uri)
    ensures var a := FreshFor(w, d.disk, d.overlay, doc);
      Expected(w, d, init + [doc], uri) == Expected(w, d, init, uri) +
        if a.None? || a.value.root in Roots(w, d, init) then []
        else NotesAt(w, d, doc, a.value, uri) + DiagsAt(w, d.uris, a.value.diagnostics, uri)
  {
    assert (init + [doc])[..|init|] == init;
  }

  lemma CollectSkip(w: World, d: Docs, init: seq<Path>, doc: Path, byUri: map<Uri, seq<Diag>>)
    requires Collected(w, d, init, byUri)
    requires var a := FreshFor(w, d.disk, d.overlay, doc); a.None? || a.value.root in Roots(w, d, init)
    ensures Collected(w, d, init + [doc], byUri)
  {
    forall uri
      ensures At(byUri, uri) == Expected(w, d, init + [doc], uri)
    {
      ExpectedLast(w, d, init, doc, uri);
    }
  }

  lemma CollectOne(w: World, d: Docs, init: seq<Path>, doc: Path, byUri: map<Uri, seq<Diag>>, noted: map<Uri, seq<Diag>>, all: map<Uri, seq<Diag>>)
    requires Collected(w, d, init, byUri)
    requires FreshFor(w, d.disk, d.overlay, doc).Some? && FreshFor(w, d.disk, d.overlay, doc).value.root !in Roots(w, d, init)
    requires var a := FreshFor(w, d.disk, d.overlay, doc).value;
      Noted(w, d, doc, a, byUri, noted) && Added(w, d.uris, a.diagnostics, noted, all)
    ensures Collected(w, d, init + [doc], all)
  {
    var a := FreshFor(w, d.disk, d.overlay, doc).value;
    forall uri
      ensures At(all, uri) == Expected(w, d, init + [doc], uri)
    {
      ExpectedLast(w, d, init, doc, uri);
      assert At(noted, uri) == At(byUri, uri) + NotesAt(w, d, doc, a, uri);
      Concat(Expected(w, d, init, uri), NotesAt(w, d, doc, a, uri), DiagsAt(w, d.uris, a.diagnostics, uri));
    }
  }

  ghost predicate Noted(w: World, d: Docs, doc: Path, a: Analysis, before: map<Uri, seq<Diag>>, byUri: map<Uri, seq<Diag>>) {
    forall uri {:trigger At(byUri, uri)} :: At(byUri, uri) == At(before, uri) + NotesAt(w, d, doc, a, uri)
  }

  lemma NotedAsPushed(w: World, d: Docs, doc: Path, a: Analysis, before: map<Uri, seq<Diag>>, ns: seq<Diag>, byUri: map<Uri, seq<Diag>>)
    requires ns == Notes(w, d.disk, doc, a)
    requires if doc in d.uris then Pushed(before, d.uris[doc], ns, byUri) else byUri == before
    ensures Noted(w, d, doc, a, before, byUri)
  {
    forall uri
      ensures At(byUri, uri) == At(before, uri) + NotesAt(w, d, doc, a, uri)
    {}
  }

  ghost predicate Pushed(before: map<Uri, seq<Diag>>, u: Uri, ns: seq<Diag>, byUri: map<Uri, seq<Diag>>) {
    forall uri {:trigger At(byUri, uri)} :: At(byUri, uri) == At(before, uri) + if uri == u then ns else []
  }

  lemma PushedOne(before: map<Uri, seq<Diag>>, u: Uri, ns: seq<Diag>, byUri: map<Uri, seq<Diag>>, n: Diag)
    requires Pushed(before, u, ns, byUri)
    ensures Pushed(before, u, ns + [n], PushTo(byUri, u, n))
  {
    forall uri
      ensures At(PushTo(byUri, u, n), uri) == At(before, uri) + if uri == u then ns + [n] else []
    {
      assert At(byUri, uri) == At(before, uri) + if uri == u then ns else [];
      Concat(At(before, uri), ns, [n]);
    }
  }

  method AddNotes(w: World, d: Docs, doc: Path, a: Analysis, before: map<Uri, seq<Diag>>) returns (byUri: map<Uri, seq<Diag>>)
    ensures Noted(w, d, doc, a, before, byUri) && before.Keys <= byUri.Keys
  {
    byUri := before;
    ghost var ns: seq<Diag> := [];
    if a.project.None? && w.isFile(d.disk, doc) && w.hasManifests(d.disk) {
      ns := [w.fallbackNote];
      if doc in d.uris {
        PushedOne(before, d.uris[doc], [], byUri, w.fallbackNote);
        byUri := PushTo(byUri, d.uris[doc], w.fallbackNote);
      }
    }
    if a.stdErrors > 0 {
      if doc in d.uris {
        PushedOne(before, d.uris[doc], ns, byUri, w.stdNote(a.stdErrors));
        byUri := PushTo(byUri, d.uris[doc], w.stdNote(a.stdErrors));
      }
      ns := ns + [w.stdNote(a.stdErrors)];
    }
    NotedAsPushed(w, d, doc, a, before, ns, byUri);
  }

  function LastOf(publications: seq<nat>): Option<nat> {
    if publications == [] then None else Some(publications[|publications| - 1])
  }

  ghost predicate BlocksRight(w: World, start: Disk, script: seq<Arrival>, blocked: seq<Block>) {
    forall i {:trigger UpToDate(w, start, script, blocked[i])} :: 0 <= i < |blocked| ==> UpToDate(w, start, script, blocked[i])
  }

  /** The loop blocked before every message that came after a quiet period. */
  ghost predicate Waited(script: seq<Arrival>, n: nat, blocked: seq<Block>)
    requires n <= |script|
  {
    forall i :: 0 <= i < n && script[i].gap.Late? ==> exists j :: 0 <= j < |blocked| && blocked[j].handled == i
  }

  lemma WaitedAgain(script: seq<Arrival>, n: nat, blocked: seq<Block>, b: Block)
    requires n <= |script| && Waited(script, n, blocked) && b.handled == n
    ensures Waited(script, n, blocked + [b])
    ensures n < |script| ==> Waited(script, n + 1, blocked + [b])
  {
    var more := blocked + [b];
    forall i | 0 <= i < n && script[i].gap.Late?
      ensures exists j :: 0 <= j < |more| && more[j].handled == i
    {
      var j :| 0 <= j < |blocked| && blocked[j].handled == i;
      assert more[j].handled == i;
    }
    assert more[|blocked|].handled == n;
  }

  /** Diagnostics are published at quiet periods only. */
  ghost predicate AtLulls(script: seq<Arrival>, publications: seq<nat>) {
    && (forall i :: 0 <= i < |publications| ==>
         publications[i] <= |script| && (publications[i] < |script| ==> script[publications[i]].gap.Late?))
    && (forall i, j :: 0 <= i < j < |publications| ==> publications[i] < publications[j])
  }

  ghost predicate BlocksSent(blocked: seq<Block>, sent: seq<Sent>) {
    forall i :: 0 <= i < |blocked| ==> blocked[i].sent <= sent
  }

  lemma Record(
    w: World, start: Disk, script: seq<Arrival>, n: nat, sent: seq<Sent>, answers: seq<Option<Analysis>>, publications: seq<nat>, blocked: seq<Block>)
    requires n <= |script| && OutputsRight(w, start, script, n, false, sent, answers, publications)
    requires BlocksRight(w, start, script, blocked)
    ensures BlocksRight(w, start, script, blocked + [Block(n, LastOf(publications), sent)])
  {}

  predicate Matches(e: Entry, root: Path, buffers: Overlay) {
    e.root == root && e.overlay == buffers
  }

  /** An analysis of this tree and these buffers is kept. */
  ghost predicate Kept(es: seq<Entry>, root: Path, buffers: Overlay) {
    exists i :: 0 <= i < |es| && Matches(es[i], root, buffers)
  }

  method FindEntry(es: seq<Entry>, root: Path, buffers: Overlay) returns (at: Option<nat>)
    ensures at.Some? ==> at.value < |es| && Matches(es[at.value], root, buffers)
    ensures at.None? ==> !Kept(es, root, buffers)
  {
    var i := 0;
    while i < |es|
      invariant 0 <= i <= |es|
      invariant forall j :: 0 <= j < i ==> !Matches(es[j], root, buffers)
    {
      if Matches(es[i], root, buffers) { return Some(i); }
      i := i + 1;
    }
    return None;
  }

  class Server {
    const w: World
    const start: Disk
    const script: seq<Arrival>

    var handled: nat
    var disk: Disk
    var overlay: Overlay
    var docUris: map<Path, Uri>
    var published: set<Uri>
    var dirty: bool
    var analyses: seq<Entry>

    var sent: seq<Sent>
    var answers: seq<Option<Analysis>>
    var publications: seq<nat>
    var blocked: seq<Block>

    constructor (w: World, start: Disk, script: seq<Arrival>)
      ensures this.w == w && this.start == start && this.script == script
      ensures handled == 0 && LoopInv() && !dirty && analyses == []
    {
      this.w, this.start, this.script := w, start, script;
      handled, disk, overlay, docUris := 0, start, map[], map[];
      published, dirty, analyses := {}, false, [];
      sent, answers, publications, blocked := [], [], [], [];
      new;
      assert forall uri :: Shown([], uri) == [];
    }

    function Docs(): Docs
      reads this
    {
      LspModel.Docs(overlay, docUris, disk)
    }

    /** The documents are what the messages made them, and the analyses kept are of them, asked for
        by the first `m` messages. */
    ghost predicate FedTo(m: nat)
      reads this
    {
      handled <= m <= |script| && InputsRight(w, start, script, handled, m, Docs(), analyses)
    }

    ghost predicate Fed()
      reads this
    {
      FedTo(handled)
    }

    /** Documents named by the first `m` messages and named alike belong to the same project. */
    ghost predicate ApartTo(m: nat)
      reads this
      requires m <= |script|
    {
      OneProjectPerRoot(w, disk, PathsTo(w, script, m))
    }

    ghost predicate Valid()
      reads this
    {
      && Fed()
      && OutputsRight(w, start, script, handled, dirty, sent, answers, publications)
      && ShownAreRecorded(published, sent)
    }

    /** The next message, when it is there in time. It leaves the queue when it is handled. */
    method Receive(patience: Gap) returns (m: Option<Message>)
      requires Valid()
      ensures m.None? <==> handled == |script| || Slower(script[handled].gap, patience)
      ensures m.Some? ==> m.value == script[handled].msg
    {
      if handled == |script| || Slower(script[handled].gap, patience) { return None; }
      return Some(script[handled].msg);
    }

    /** The cached analysis of a tree and open buffers, or a fresh one, which is then kept. */
    method AnalysisWith(path: Path, buffers: Overlay, ghost m: nat) returns (r: Option<Analysis>)
      requires FedTo(m) && path in PathsTo(w, script, m)
      modifies this`analyses
      ensures FedTo(m)
      ensures ApartTo(m) ==> r == Fresh(w, disk, buffers, path)
      ensures !Kept(old(analyses), KeyRoot(w, disk, path), buffers) ==> r == Fresh(w, disk, buffers, path)
      ensures Kept(old(analyses), KeyRoot(w, disk, path), buffers) ==>
                r.Some? && Entry(KeyRoot(w, disk, path), buffers, r.value) in old(analyses)
      ensures r.Some? ==> Entry(KeyRoot(w, disk, path), buffers, r.value) in analyses
      ensures |analyses| <= |old(analyses)| + 1
    {
      var root := KeyRoot(w, disk, path);
      var hit := FindEntry(analyses, root, buffers);
      if hit.Some? {
        if ApartTo(m) { CacheHit(w, disk, analyses, hit.value, path, PathsTo(w, script, m)); }
        assert analyses[hit.value] in analyses;
        return Some(analyses[hit.value].analysis);
      }
      r := Fresh(w, disk, buffers, path);
      if r.None? { return; }
      CacheKept(w, disk, analyses, path, buffers, PathsTo(w, script, m));
      if |analyses| >= MAX_ANALYSES {
        analyses := analyses[1..];
      }
      analyses := analyses + [Entry(root, buffers, r.value)];
    }

    /** The analysis of a document. */
    method AnalyzeFor(path: Path, ghost m: nat) returns (r: Option<Analysis>)
      requires FedTo(m) && path in PathsTo(w, script, m)
      modifies this`analyses
      ensures FedTo(m)
      ensures ApartTo(m) ==> r == FreshFor(w, disk, overlay, path)
    {
      if w.isStdCopy(path) { return Some(w.stdAnalysis); }
      r := AnalysisWith(path, overlay, m);
    }

    /** Edits only update the buffers, and every document event drops the analyses kept. */
    method UpdateBuffers(note: Note, newDisk: Disk)
      modifies this`disk, this`overlay, this`docUris, this`dirty, this`analyses
      ensures Docs() == Apply(old(Docs()), Event(note, newDisk)) && analyses == []
      ensures dirty <==> old(dirty) || Touches(Event(note, newDisk))
    {
      disk := newDisk;
      analyses := [];
      match note {
        case DidOpen(path, uri, text) =>
          if path.Some? {
            docUris := docUris[path.value := uri];
            overlay := overlay[path.value := text];
            dirty := true;
          }
        case DidChange(path, uri, texts) =>
          if path.Some? && texts != [] {
            docUris := docUris[path.value := uri];
            overlay := overlay[path.value := texts[|texts| - 1]];
            dirty := true;
          }
        case DidClose(path) =>
          if path.Some? {
            overlay := Without(overlay, path.value);
            docUris := Without(docUris, path.value);
            dirty := true;
          }
        case DidSave =>
          dirty := true;
      }
    }

    method HandleNotification(note: Note, newDisk: Disk)
      requires Valid() && handled < |script| && script[handled].msg == Event(note, newDisk)
      modifies this`disk, this`overlay, this`docUris, this`dirty, this`analyses, this`handled
      ensures Valid() && handled == old(handled) + 1
      ensures dirty <==> old(dirty) || Touches(Event(note, newDisk))
    {
      InputsAfter(w, start, script, handled, Docs(), analyses);
      OutputsAfter(w, start, script, handled, dirty, dirty || Touches(script[handled].msg), sent, answers, publications);
      UpdateBuffers(note, newDisk);
      handled := handled + 1;
    }

    method AnswerAsk(ask: Ask, ghost m: nat) returns (r: Option<Analysis>)
      requires FedTo(m) && ask.path in PathsTo(w, script, m)
      modifies this`analyses
      ensures FedTo(m)
      ensures ApartTo(m) ==> r == Answer(w, Docs(), ask)
    {
      match ask {
        case OfDocument(path) => r := AnalyzeFor(path, m);
        case OfProject(path, patch) => r := AnalysisWith(path, OverlayFor(overlay, ask), m);
      }
    }

    method AnswerAll(asks: seq<Ask>) returns (results: seq<Option<Analysis>>)
      requires handled < |script| && FedTo(handled + 1) && script[handled].msg == Request(asks)
      modifies this`analyses
      ensures FedTo(handled + 1) && |results| == |asks|
      ensures ResultsRight(w, start, script, handled, Docs(), asks, results)
    {
      results := [];
      var i := 0;
      while i < |asks|
        invariant 0 <= i <= |asks| && |results| == i
        invariant FedTo(handled + 1)
        invariant ResultsRight(w, start, script, handled, Docs(), asks, results)
      {
        AskedPath(asks, i);
        var r := AnswerAsk(asks[i], handled + 1);
        results := results + [r];
        i := i + 1;
      }
    }

    /** A request is answered from the buffers as they are. */
    method HandleRequest(asks: seq<Ask>)
      requires Valid() && handled < |script| && script[handled].msg == Request(asks)
      modifies this`analyses, this`answers, this`handled
      ensures Valid() && handled == old(handled) + 1
    {
      InputsLater(w, start, script, handled, handled, handled + 1, Docs(), analyses);
      var results := AnswerAll(asks);
      Send(asks, results);
    }

    /** The answers to one request go out. */
    method Send(asks: seq<Ask>, results: seq<Option<Analysis>>)
      requires handled < |script| && FedTo(handled + 1) && script[handled].msg == Request(asks)
      requires OutputsRight(w, start, script, handled, dirty, sent, answers, publications) && ShownAreRecorded(published, sent)
      requires |results| == |asks| && ResultsRight(w, start, script, handled, Docs(), asks, results)
      modifies this`answers, this`handled
      ensures Valid() && handled == old(handled) + 1
    {
      AfterRequest(w, start, script, handled, Docs(), analyses, dirty, sent, answers, results, publications);
      answers := answers + results;
      handled := handled + 1;
    }

    lemma AskedPath(asks: seq<Ask>, i: nat)
      requires i < |asks| && handled < |script| && script[handled].msg == Request(asks)
      ensures asks[i].path in PathsTo(w, script, handled + 1)
    {
      assert asks[i].path in PathsIn(script[handled].msg);
    }

    /** Handles one message; `stop` when the loop must end. */
    method Dispatch(msg: Message) returns (stop: bool)
      requires Valid() && handled < |script| && msg == script[handled].msg
      modifies this`disk, this`overlay, this`docUris, this`dirty, this`analyses, this`answers, this`handled
      ensures Valid() && stop == Stops(msg)
      ensures handled == if stop then old(handled) else old(handled) + 1
      ensures dirty <==> old(dirty) || Touches(msg)
    {
      match msg {
        case Event(note, newDisk) => HandleNotification(note, newDisk); stop := false;
        case Request(asks) => HandleRequest(asks); stop := false;
        case Shutdown => stop := true;
        case Malformed => stop := true;
        case OtherNotification => Ignore(); stop := false;
        case Reply => Ignore(); stop := false;
      }
    }

    /** A message that changes nothing here. */
    method Ignore()
      requires Valid() && handled < |script| && (script[handled].msg.OtherNotification? || script[handled].msg.Reply?)
      modifies this`handled
      ensures Valid() && handled == old(handled) + 1
    {
      InputsAfter(w, start, script, handled, Docs(), analyses);
      OutputsAfter(w, start, script, handled, dirty, dirty, sent, answers, publications);
      handled := handled + 1;
    }

    /** The documents to analyse, in whatever order the map of open documents lists them. */
    method ListDocs() returns (docs: seq<Path>)
      ensures Enumerates(w, Docs(), docs)
    {
      if docUris == map[] { return [w.root]; }
      docs := [];
      var rest := docUris.Keys;
      while rest != {}
        invariant rest <= docUris.Keys && Elems(docs) == docUris.Keys - rest
        invariant forall i, j :: 0 <= i < j < |docs| ==> docs[i] != docs[j]
        decreases |rest|
      {
        var p :| p in rest;
        assert p !in Elems(docs);
        assert Elems(docs + [p]) == Elems(docs) + {p};
        docs := docs + [p];
        rest := rest - {p};
      }
    }

    /** One document's project, unless it is done: its notes and diagnostics added to their URIs. */
    method CollectDoc(ghost init: seq<Path>, doc: Path, before: map<Uri, seq<Diag>>, done: set<Path>)
      returns (byUri: map<Uri, seq<Diag>>, nowDone: set<Path>)
      requires Fed() && doc in PathsTo(w, script, handled)
      requires Gathered(ApartTo(handled), w, Docs(), init, before, done)
      modifies this`analyses
      ensures Fed() && before.Keys <= byUri.Keys
      ensures Gathered(ApartTo(handled), w, Docs(), init + [doc], byUri, nowDone)
    {
      byUri, nowDone := before, done;
      var analysis := AnalyzeFor(doc, handled);
      if analysis.Some? && analysis.value.root !in done {
        nowDone := done + {analysis.value.root};
        var noted := AddNotes(w, Docs(), doc, analysis.value, before);
        byUri := AddDiags(w, docUris, analysis.value.diagnostics, noted);
        if ApartTo(handled) { CollectOne(w, Docs(), init, doc, before, noted, byUri); }
      } else if ApartTo(handled) {
        CollectSkip(w, Docs(), init, doc, byUri);
      }
      RootsGrow(w, Docs(), init + [doc]);
      assert (init + [doc])[..|init|] == init;
    }

    ghost predicate AllNamed(docs: seq<Path>)
      reads this
    {
      handled <= |script| && forall i :: 0 <= i < |docs| ==> docs[i] in PathsTo(w, script, handled)
    }

    /** Every document's project, in order. */
    method CollectAll(docs: seq<Path>, none: map<Uri, seq<Diag>>) returns (byUri: map<Uri, seq<Diag>>)
      requires Fed() && AllNamed(docs)
      requires Gathered(ApartTo(handled), w, Docs(), docs[..0], none, {})
      modifies this`analyses
      ensures Fed() && none.Keys <= byUri.Keys
      ensures ApartTo(handled) ==> Collected(w, Docs(), docs, byUri)
    {
      byUri := none;
      var done: set<Path> := {};
      for i := 0 to |docs|
        invariant Fed() && none.Keys <= byUri.Keys
        invariant Gathered(ApartTo(handled), w, Docs(), docs[..i], byUri, done)
      {
        assert docs[..i + 1] == docs[..i] + [docs[i]];
        byUri, done := CollectDoc(docs[..i], docs[i], byUri, done);
      }
      assert docs[..|docs|] == docs;
    }

    /** The diagnostics of every document's project, by URI; every open document has a list. */
    method Collect(docs: seq<Path>) returns (byUri: map<Uri, seq<Diag>>)
      requires Fed() && Enumerates(w, Docs(), docs)
      modifies this`analyses
      ensures Fed() && docUris.Values <= byUri.Keys
      ensures ApartTo(handled) ==> Collected(w, Docs(), docs, byUri)
    {
      var none := map uri | uri in docUris.Values :: [];
      NothingCollected(w, Docs(), docs, none);
      forall i | 0 <= i < |docs| ensures docs[i] in PathsTo(w, script, handled) { DocsAreNamed(docs, i); }
      byUri := CollectAll(docs, none);
    }

    lemma DocsAreNamed(docs: seq<Path>, i: nat)
      requires Fed() && Enumerates(w, Docs(), docs) && i < |docs|
      ensures docs[i] in PathsTo(w, script, handled)
    {
      if docUris != map[] {
        assert docs[i] in Elems(docs);
        OpenPathsAreNamed(w, start, script, handled, docs[i]);
      }
    }

    method ClearStale(byUri: map<Uri, seq<Diag>>)
      modifies this`sent
      ensures SentFor(old(sent), published - byUri.Keys, byUri, sent) && old(sent) <= sent
    {
      var stale := published - byUri.Keys;
      ghost var done: set<Uri> := {};
      while stale != {}
        invariant done + stale == published - byUri.Keys
        invariant SentFor(old(sent), done, byUri, sent) && old(sent) <= sent
        decreases |stale|
      {
        var uri :| uri in stale;
        SendOne(old(sent), done, byUri, sent, uri);
        sent := sent + [Sent(uri, [])];
        stale := stale - {uri};
        done := done + {uri};
      }
    }

    method SendReports(byUri: map<Uri, seq<Diag>>)
      modifies this`sent
      ensures SentFor(old(sent), byUri.Keys, byUri, sent) && old(sent) <= sent
      ensures Told(old(sent), sent, byUri.Keys)
    {
      var rest := byUri.Keys;
      ghost var done: set<Uri> := {};
      while rest != {}
        invariant done + rest == byUri.Keys && Told(old(sent), sent, done)
        invariant SentFor(old(sent), done, byUri, sent) && old(sent) <= sent
        decreases |rest|
      {
        var uri :| uri in rest;
        SendOne(old(sent), done, byUri, sent, uri);
        ToldOne(old(sent), sent, done, Sent(uri, byUri[uri]));
        sent := sent + [Sent(uri, byUri[uri])];
        rest := rest - {uri};
        done := done + {uri};
      }
    }

    /** Clears what is no longer reported and sends what is. */
    method SendAll(byUri: map<Uri, seq<Diag>>)
      requires ShownAreRecorded(published, sent)
      modifies this`sent, this`published
      ensures forall uri :: Shown(sent, uri) == At(byUri, uri)
      ensures published == byUri.Keys && old(sent) <= sent && Told(old(sent), sent, byUri.Keys)
    {
      ClearStale(byUri);
      ghost var cleared := sent;
      SendReports(byUri);
      ToldBefore(old(sent), cleared, sent, byUri.Keys);
      published := byUri.Keys;
    }

    /** Analyses every project an open document belongs to and publishes what it finds. */
    method PublishDiagnostics()
      requires Fed() && ShownAreRecorded(published, sent) && AnswersRight(w, start, script, handled, answers) && !dirty
      modifies this`analyses, this`sent, this`published, this`publications
      ensures Valid() && publications == old(publications) + [handled] && old(sent) <= sent
      ensures Told(old(sent), sent, docUris.Values)
    {
      var docs := ListDocs();
      var byUri := Collect(docs);
      SendAll(byUri);
      assert ApartTo(handled) ==> ShowsExpected(w, Docs(), docs, sent);
      publications := publications + [handled];
    }

    /** The invariant of the loop around what it has recorded. */
    ghost predicate LoopInv()
      reads this
    {
      Valid() && Recorded()
    }

    ghost predicate Recorded()
      reads this
    {
      && handled <= |script|
      && BlocksRight(w, start, script, blocked)
      && Waited(script, handled, blocked)
      && AtLulls(script, publications)
      && BlocksSent(blocked, sent)
    }

    /** Handles a message that came before a quiet period. */
    method DispatchNext(msg: Message) returns (stop: bool)
      requires LoopInv() && handled < |script| && msg == script[handled].msg && !script[handled].gap.Late?
      modifies this`disk, this`overlay, this`docUris, this`dirty, this`analyses, this`answers, this`handled
      ensures LoopInv()
      ensures stop ==> handled < |script| && Stops(script[handled].msg)
      ensures handled == if stop then old(handled) else old(handled) + 1
    {
      stop := Dispatch(msg);
      assert Waited(script, handled, blocked);
    }

    /** Drains whatever is already queued. */
    method Drain() returns (stop: bool)
      requires LoopInv()
      modifies this`disk, this`overlay, this`docUris, this`dirty, this`analyses, this`answers, this`handled
      ensures LoopInv() && handled >= old(handled)
      ensures stop ==> handled < |script| && Stops(script[handled].msg)
    {
      var m := Receive(Queued);
      while m.Some?
        invariant LoopInv() && handled >= old(handled)
        invariant m.Some? ==> handled < |script| && m.value == script[handled].msg && script[handled].gap.Queued?
        decreases |script| - handled
      {
        stop := DispatchNext(m.value);
        if stop { return; }
        m := Receive(Queued);
      }
      stop := false;
    }

    /** Handles the messages of one burst, until a quiet period or, with nothing to publish, an
        empty queue. */
    method Burst() returns (stop: bool)
      requires LoopInv()
      modifies this`disk, this`overlay, this`docUris, this`dirty, this`analyses, this`answers, this`handled
      ensures LoopInv() && handled >= old(handled)
      ensures stop ==> handled < |script| && Stops(script[handled].msg)
      ensures !stop && dirty ==> handled == |script| || script[handled].gap.Late?
    {
      while true
        invariant LoopInv() && handled >= old(handled)
        decreases |script| - handled
      {
        stop := Drain();
        if stop { return; }
        if !dirty { break; }
        var m := Receive(Soon);
        if m.None? { break; }
        stop := DispatchNext(m.value);
        if stop { return; }
      }
      stop := false;
    }

    /** Waits for a message, however long it takes. `blocked` records what the client had been
        sent. */
    method Wait() returns (m: Option<Message>)
      requires LoopInv() && !dirty
      modifies this`blocked
      ensures LoopInv()
      ensures m.None? ==> handled == |script|
      ensures m.Some? ==> handled < |script| && m.value == script[handled].msg
      ensures blocked != [] && blocked[|blocked| - 1].handled == handled
    {
      Record(w, start, script, handled, sent, answers, publications, blocked);
      WaitedAgain(script, handled, blocked, Block(handled, LastOf(publications), sent));
      blocked := blocked + [Block(handled, LastOf(publications), sent)];
      m := Receive(Late);
    }

    /** Handles the message waited for, which may have come after any delay. */
    method DispatchFirst(msg: Message) returns (stop: bool)
      requires LoopInv() && handled < |script| && msg == script[handled].msg
      requires blocked != [] && blocked[|blocked| - 1].handled == handled
      modifies this`disk, this`overlay, this`docUris, this`dirty, this`analyses, this`answers, this`handled
      ensures LoopInv()
      ensures stop ==> handled < |script| && Stops(script[handled].msg)
      ensures handled == if stop then old(handled) else old(handled) + 1
      ensures !stop ==> PublishedBefore(handled)
    {
      stop := Dispatch(msg);
      assert Waited(script, handled, blocked);
    }

    method Publish()
      requires LoopInv() && dirty
      requires handled == |script| || script[handled].gap.Late?
      requires PublishedBefore(handled)
      modifies this`dirty, this`analyses, this`sent, this`published, this`publications
      ensures LoopInv() && !dirty
    {
      dirty := false;
      PublishDiagnostics();
      assert BlocksSent(blocked, sent);
    }

    /** The message waited for, the burst it opens, and what there is to publish after it. */
    method Turn(msg: Message) returns (stop: bool)
      requires LoopInv() && handled < |script| && msg == script[handled].msg && !dirty
      requires blocked != [] && blocked[|blocked| - 1].handled == handled
      modifies this
      ensures LoopInv()
      ensures stop ==> handled < |script| && Stops(script[handled].msg)
      ensures !stop ==> handled > old(handled) && !dirty
    {
      stop := DispatchFirst(msg);
      if stop { return; }
      stop := Settle();
    }

    /** The rest of a burst, and what there is to publish after it. */
    method Settle() returns (stop: bool)
      requires LoopInv() && PublishedBefore(handled)
      modifies this
      ensures LoopInv() && handled >= old(handled)
      ensures stop ==> handled < |script| && Stops(script[handled].msg)
      ensures !stop ==> !dirty
    {
      stop := Burst();
      if !stop && dirty { Publish(); }
    }

    ghost predicate PublishedBefore(n: nat)
      reads this
    {
      publications != [] ==> publications[|publications| - 1] < n
    }

    /** The server's loop. */
    method MainLoop()
      requires LoopInv() && handled == 0 && !dirty
      modifies this
      ensures LoopInv()
      ensures handled == |script| || Stops(script[handled].msg)
      ensures handled == |script| ==> blocked != [] && blocked[|blocked| - 1].handled == |script|
    {
      while true
        invariant LoopInv() && !dirty
        decreases |script| - handled
      {
        var m := Wait();
        if m.None? { return; }
        var stop := Turn(m.value);
        if stop { return; }
      }
    }
  }

  predicate Slower(gap: Gap, patience: Gap) {
    match patience
    case Queued => !gap.Queued?
    case Soon => gap.Late?
    case Late => false
  }

  /** A run of the server over all a client sends: every answer is the analysis of the documents
      as they then were; diagnostics go out at quiet periods only; and whenever the server waits,
      as it does at every quiet period, the client shows what the latest documents have. */
  method Serve(w: World, start: Disk, script: seq<Arrival>)
    returns (handled: nat, sent: seq<Sent>, answers: seq<Option<Analysis>>, publications: seq<nat>, blocked: seq<Block>)
    ensures handled <= |script| && (handled < |script| ==> Stops(script[handled].msg))
    ensures AnswersRight(w, start, script, handled, answers) && BlocksRight(w, start, script, blocked)
    ensures Waited(script, handled, blocked) && BlocksSent(blocked, sent) && AtLulls(script, publications)
    ensures handled == |script| ==> blocked != [] && blocked[|blocked| - 1].handled == |script|
  {
    var server := new Server(w, start, script);
    server.MainLoop();
    return server.handled, server.sent, server.answers, server.publications, server.blocked;
  }

  /** Two documents of one tree, one asked about after the other: the second is answered with the
      first's analysis, whichever project it belongs to itself. */
  method SecondAnswerIsTheFirst(w: World, start: Disk, p: Path, q: Path) returns (first: Option<Analysis>, second: Option<Analysis>)
    requires KeyRoot(w, start, p) == KeyRoot(w, start, q) && Fresh(w, start, map[], p).Some?
    ensures first == second == Fresh(w, start, map[], p)
  {
    var asks := [OfProject(p, None), OfProject(q, None)];
    var server := new Server(w, start, [Arrival(Queued, Request(asks))]);
    server.AskedPath(asks, 0);
    server.AskedPath(asks, 1);
    first := server.AnalysisWith(p, map[], 1);
    assert server.analyses == [Entry(KeyRoot(w, start, p), map[], first.value)];
    assert Matches(server.analyses[0], KeyRoot(w, start, q), map[]);
    second := server.AnalysisWith(q, map[], 1);
  }
}
