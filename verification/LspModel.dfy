/** What the language server is asked and what its client should be shown: documents as the
    notifications leave them, analyses as a function of disk and open buffers, and the
    diagnostics of every URI. */
module LspModel {
  import opened Basics

  datatype Path = Path(name: string)
  datatype Uri = Uri(text: string)
  datatype Diag = Diag(text: string)
  type Disk = map<Path, string>
  type Overlay = map<Path, string>

  // ---- projects and analyses

  datatype Project = Project(src: Path, settings: string)

  /** What looking for a manifest above a document answers. */
  datatype Lookup = Found(project: Project) | Missing | Broken

  /** One diagnostic of an analysis. `hidden` ones are in the embedded library. */
  datatype FileDiag = FileDiag(hidden: bool, path: Path, diag: Diag)

  datatype Analysis = Analysis(root: Path, project: Option<Project>, stdErrors: nat, diagnostics: seq<FileDiag>)

  /** Everything outside the server. `check` is the compiler's analysis of a source tree. */
  datatype World = World(
    root: Path,
    find: (Disk, Path) -> Lookup,
    check: (Disk, Option<Project>, Path, Overlay) -> Option<Analysis>,
    isStdCopy: Path -> bool,
    stdAnalysis: Analysis,
    isFile: (Disk, Path) -> bool,
    hasManifests: Disk -> bool,
    uriOf: Path -> Option<Uri>,
    fallbackNote: Diag,
    stdNote: nat -> Diag
  )

  /** The tree a document is analysed in, as the cache of analyses names it. */
  function KeyRoot(w: World, disk: Disk, path: Path): Path {
    match w.find(disk, path)
    case Found(project) => project.src
    case _ => w.root
  }

  /** An analysis made anew. A manifest that does not parse gives none. */
  function Fresh(w: World, disk: Disk, overlay: Overlay, path: Path): Option<Analysis> {
    match w.find(disk, path)
    case Found(project) => w.check(disk, Some(project), project.src, overlay)
    case Missing => w.check(disk, None, w.root, overlay)
    case Broken => None
  }

  /** The analysis of a document: the library's own for a copy of a library file. */
  function FreshFor(w: World, disk: Disk, overlay: Overlay, path: Path): Option<Analysis> {
    if w.isStdCopy(path) then Some(w.stdAnalysis) else Fresh(w, disk, overlay, path)
  }

  /** Among `paths`, documents named alike belong to the same project. */
  ghost predicate OneProjectPerRoot(w: World, disk: Disk, paths: set<Path>) {
    forall p, q :: p in paths && q in paths && KeyRoot(w, disk, p) == KeyRoot(w, disk, q) ==> w.find(disk, p) == w.find(disk, q)
  }

  /** An analysis says which project it is of. */
  ghost predicate NamesItsProject(w: World) {
    forall disk, project, src, overlay ::
      var a := w.check(disk, project, src, overlay);
      a.Some? ==> a.value.project == project
  }

  /** Two documents the cache cannot tell apart have the same analysis exactly when they belong
      to the same project: this is what reusing an analysis needs, and all it needs. */
  lemma ReuseIsRightExactly(w: World, disk: Disk, overlay: Overlay, p: Path, q: Path)
    requires NamesItsProject(w) && KeyRoot(w, disk, p) == KeyRoot(w, disk, q) && Fresh(w, disk, overlay, p).Some?
    ensures Fresh(w, disk, overlay, p) == Fresh(w, disk, overlay, q) <==> w.find(disk, p) == w.find(disk, q)
  {
    var a := w.find(disk, p);
    var b := w.find(disk, q);
    assert w.check(disk, None, w.root, overlay).Some? ==> w.check(disk, None, w.root, overlay).value.project == None;
    if a.Found? { assert Fresh(w, disk, overlay, p).value.project == Some(a.project); }
    if b.Found? && Fresh(w, disk, overlay, q).Some? { assert Fresh(w, disk, overlay, q).value.project == Some(b.project); }
  }

  // ---- messages

  /** A document event. `path` is the file its URI names, if it names one. */
  datatype Note =
    | DidOpen(path: Option<Path>, uri: Uri, text: string)
    | DidChange(path: Option<Path>, uri: Uri, texts: seq<string>)
    | DidClose(path: Option<Path>)
    | DidSave

  /** One analysis a request handler asks for: of a document, or of its project with one buffer
      patched (completion's probe). */
  datatype Ask = OfDocument(path: Path) | OfProject(path: Path, patch: Option<string>)

  datatype Message =
    | Event(note: Note, disk: Disk)
    | OtherNotification
    | Request(asks: seq<Ask>)
    | Reply
    | Shutdown
    | Malformed

  /** When a message is there to be read: already queued, within the quiet period, or after it. */
  datatype Gap = Queued | Soon | Late

  datatype Arrival = Arrival(gap: Gap, msg: Message)

  predicate Stops(m: Message) {
    m.Shutdown? || m.Malformed?
  }

  // ---- documents

  datatype Docs = Docs(overlay: Overlay, uris: map<Path, Uri>, disk: Disk)

  function Without<K, V>(m: map<K, V>, k: K): map<K, V> {
    map x | x in m && x != k :: m[x]
  }

  /** The document a message writes or forgets. */
  function Apply(d: Docs, m: Message): Docs {
    if !m.Event? then d
    else
      match m.note
      case DidOpen(Some(p), uri, text) => Docs(d.overlay[p := text], d.uris[p := uri], m.disk)
      case DidChange(Some(p), uri, texts) =>
        if texts == [] then d.(disk := m.disk)
        else Docs(d.overlay[p := texts[|texts| - 1]], d.uris[p := uri], m.disk)
      case DidClose(Some(p)) => Docs(Without(d.overlay, p), Without(d.uris, p), m.disk)
      case _ => d.(disk := m.disk)
  }

  /** Whether a message asks for diagnostics to be published again. */
  predicate Touches(m: Message) {
    m.Event? &&
    match m.note
    case DidOpen(p, _, _) => p.Some?
    case DidChange(p, _, texts) => p.Some? && texts != []
    case DidClose(p) => p.Some?
    case DidSave => true
  }

  /** The documents after `n` messages. */
  function After(start: Disk, script: seq<Arrival>, n: nat): Docs
    requires n <= |script|
  {
    if n == 0 then Docs(map[], map[], start) else Apply(After(start, script, n - 1), script[n - 1].msg)
  }

  /** No message from `k` to `n` touched anything. */
  ghost predicate Untouched(script: seq<Arrival>, k: nat, n: nat)
    requires k <= n <= |script|
  {
    forall i :: k <= i < n ==> !Touches(script[i].msg)
  }

  lemma {:induction false} UntouchedKeepsBuffers(start: Disk, script: seq<Arrival>, k: nat, n: nat)
    requires k <= n <= |script| && Untouched(script, k, n)
    ensures After(start, script, n) == After(start, script, k).(disk := After(start, script, n).disk)
    decreases n
  {
    if k < n { UntouchedKeepsBuffers(start, script, k, n - 1); }
  }

  /** What a message that opens or changes a document says of it: its text, and the URI it is
      open under. */
  lemma ApplyAt(d: Docs, m: Message, p: Path)
    ensures p in Apply(d, m).overlay <==> if Names(m, p) then Writes(m, p) else p in d.overlay
    ensures p in Apply(d, m).uris <==> if Names(m, p) then Writes(m, p) else p in d.uris
    ensures p in Apply(d, m).overlay ==> Apply(d, m).overlay[p] == if Names(m, p) then Written(m, p) else d.overlay[p]
    ensures p in Apply(d, m).uris ==> Apply(d, m).uris[p] == if Names(m, p) then m.note.uri else d.uris[p]
    ensures Apply(d, m).disk == if m.Event? then m.disk else d.disk
  {}

  /** The buffers are the last texts the client sent: a document is open exactly when the last
      message to write or close it wrote it, and with that message's text and URI. */
  lemma {:induction false} BuffersAreTheClients(start: Disk, script: seq<Arrival>, n: nat, p: Path)
    requires n <= |script|
    ensures p in After(start, script, n).uris <==> p in After(start, script, n).overlay
    ensures p in After(start, script, n).overlay <==> LastNaming(script, n, p).Some? && Writes(script[LastNaming(script, n, p).value].msg, p)
    ensures p in After(start, script, n).overlay ==>
      After(start, script, n).overlay[p] == Written(script[LastNaming(script, n, p).value].msg, p)
    ensures p in After(start, script, n).uris ==>
      After(start, script, n).uris[p] == script[LastNaming(script, n, p).value].msg.note.uri
  {
    if n > 0 {
      BuffersAreTheClients(start, script, n - 1, p);
      ApplyAt(After(start, script, n - 1), script[n - 1].msg, p);
    }
  }

  /** The disk is as the last document event found it. */
  lemma {:induction false} DiskIsTheLatest(start: Disk, script: seq<Arrival>, n: nat, i: nat)
    requires n <= |script| && i <= n && (i > 0 ==> script[i - 1].msg.Event?)
    requires forall j :: i <= j < n ==> !script[j].msg.Event?
    ensures After(start, script, n).disk == if i > 0 then script[i - 1].msg.disk else start
    decreases n
  {
    if n > 0 {
      ApplyAt(After(start, script, n - 1), script[n - 1].msg, Path(""));
      if i < n { DiskIsTheLatest(start, script, n - 1, i); }
    }
  }

  /** The last of the first `n` messages to write or close `p`. */
  function LastNaming(script: seq<Arrival>, n: nat, p: Path): (r: Option<nat>)
    requires n <= |script|
    ensures r.Some? ==> r.value < n && Names(script[r.value].msg, p) && forall j :: r.value < j < n ==> !Names(script[j].msg, p)
    ensures r.None? ==> forall j :: 0 <= j < n ==> !Names(script[j].msg, p)
  {
    if n == 0 then None else if Names(script[n - 1].msg, p) then Some(n - 1) else LastNaming(script, n - 1, p)
  }

  predicate Writes(m: Message, p: Path) {
    m.Event? && (
      || (m.note.DidOpen? && m.note.path == Some(p))
      || (m.note.DidChange? && m.note.path == Some(p) && m.note.texts != []))
  }

  /** A message that writes or closes `p`. */
  predicate Names(m: Message, p: Path) {
    Writes(m, p) || (m.Event? && m.note.DidClose? && m.note.path == Some(p))
  }

  function Written(m: Message, p: Path): string
    requires Writes(m, p)
  {
    if m.note.DidOpen? then m.note.text else m.note.texts[|m.note.texts| - 1]
  }

  // ---- answers

  function OverlayFor(overlay: Overlay, ask: Ask): Overlay {
    if ask.OfDocument? || ask.patch.None? then overlay else overlay[ask.path := ask.patch.value]
  }

  /** The right answer to one ask: of the open buffers, the asked one's text replaced by the patch. */
  function Answer(w: World, d: Docs, ask: Ask): Option<Analysis> {
    match ask
    case OfDocument(path) => FreshFor(w, d.disk, d.overlay, path)
    case OfProject(path, None) => Fresh(w, d.disk, d.overlay, path)
    case OfProject(path, Some(text)) => Fresh(w, d.disk, d.overlay[path := text], path)
  }

  /** How many asks the first `n` messages have. */
  function AsksBefore(script: seq<Arrival>, n: nat): nat
    requires n <= |script|
  {
    if n == 0 then 0
    else AsksBefore(script, n - 1) + if script[n - 1].msg.Request? then |script[n - 1].msg.asks| else 0
  }

  /** Message `i`'s asks stand answered in their place, from the documents as they were. */
  ghost predicate AnsweredAt(w: World, start: Disk, script: seq<Arrival>, i: nat, answers: seq<Option<Analysis>>)
    requires i < |script| && script[i].msg.Request?
  {
    var asks := script[i].msg.asks;
    && AsksBefore(script, i) + |asks| <= |answers|
    && forall j :: 0 <= j < |asks| ==> answers[AsksBefore(script, i) + j] == Answer(w, After(start, script, i), asks[j])
  }

  // ---- what a client is shown

  /** One published list. */
  datatype Sent = Sent(uri: Uri, diags: seq<Diag>)

  /** What the client shows for `uri`: the last list sent for it. */
  function Shown(sent: seq<Sent>, uri: Uri): seq<Diag> {
    if sent == [] then []
    else if sent[|sent| - 1].uri == uri then sent[|sent| - 1].diags
    else Shown(sent[..|sent| - 1], uri)
  }

  lemma ShownAfter(sent: seq<Sent>, s: Sent, uri: Uri)
    ensures Shown(sent + [s], uri) == if s.uri == uri then s.diags else Shown(sent, uri)
  {
    assert (sent + [s])[..|sent|] == sent;
  }

  /** The URI an analysed file's diagnostics go to: the one it is open under, else its own. */
  function UriFor(w: World, uris: map<Path, Uri>, path: Path): Option<Uri> {
    if path in uris then Some(uris[path]) else w.uriOf(path)
  }

  /** The diagnostics of `ds` that belong to `uri`, in order. */
  function DiagsAt(w: World, uris: map<Path, Uri>, ds: seq<FileDiag>, uri: Uri): seq<Diag> {
    if ds == [] then []
    else
      var last := ds[|ds| - 1];
      DiagsAt(w, uris, ds[..|ds| - 1], uri) +
      (if !last.hidden && UriFor(w, uris, last.path) == Some(uri) then [last.diag] else [])
  }

  /** The lines an analysis puts on the document it was made for. */
  function Notes(w: World, disk: Disk, doc: Path, a: Analysis): seq<Diag> {
    (if a.project.None? && w.isFile(disk, doc) && w.hasManifests(disk) then [w.fallbackNote] else []) +
    (if a.stdErrors > 0 then [w.stdNote(a.stdErrors)] else [])
  }

  function NotesAt(w: World, d: Docs, doc: Path, a: Analysis, uri: Uri): seq<Diag> {
    if doc in d.uris && d.uris[doc] == uri then Notes(w, d.disk, doc, a) else []
  }

  /** The documents to analyse, in some order: the open ones, or the workspace when none is. */
  ghost predicate Enumerates(w: World, d: Docs, docs: seq<Path>) {
    if d.uris == map[] then docs == [w.root]
    else (forall i, j :: 0 <= i < j < |docs| ==> docs[i] != docs[j]) && Elems(docs) == d.uris.Keys
  }

  /** The same as a set. */
  function Documents(w: World, d: Docs): set<Path> {
    if d.uris == map[] then {w.root} else d.uris.Keys
  }

  lemma EnumeratesDocuments(w: World, d: Docs, docs: seq<Path>)
    requires Enumerates(w, d, docs)
    ensures Elems(docs) == Documents(w, d) && forall p :: p in docs <==> p in Documents(w, d)
  {
    assert forall p :: p in docs <==> p in Elems(docs);
  }

  /** The roots analysed for the documents of `docs`. */
  ghost function Roots(w: World, d: Docs, docs: seq<Path>): set<Path> {
    set p | p in docs && FreshFor(w, d.disk, d.overlay, p).Some? :: FreshFor(w, d.disk, d.overlay, p).value.root
  }

  /** What is shown for `uri` when the documents are taken in the order of `docs`: per root, the
      notes and diagnostics of its first document's analysis. */
  ghost function Expected(w: World, d: Docs, docs: seq<Path>, uri: Uri): seq<Diag> {
    if docs == [] then []
    else
      var init, doc := docs[..|docs| - 1], docs[|docs| - 1];
      var a := FreshFor(w, d.disk, d.overlay, doc);
      Expected(w, d, init, uri) +
      (if a.None? || a.value.root in Roots(w, d, init) then []
       else NotesAt(w, d, doc, a.value, uri) + DiagsAt(w, d.uris, a.value.diagnostics, uri))
  }

  /** The client shows, for every URI, what analysing the documents in some order reports. */
  ghost predicate Settled(w: World, d: Docs, sent: seq<Sent>) {
    exists docs :: Enumerates(w, d, docs) && ShowsExpected(w, d, docs, sent)
  }

  ghost predicate ShowsExpected(w: World, d: Docs, docs: seq<Path>, sent: seq<Sent>) {
    forall uri :: Shown(sent, uri) == Expected(w, d, docs, uri)
  }

  // ---- the order of the documents

  lemma RootsGrow(w: World, d: Docs, docs: seq<Path>)
    requires docs != []
    ensures var a := FreshFor(w, d.disk, d.overlay, docs[|docs| - 1]);
      Roots(w, d, docs) == Roots(w, d, docs[..|docs| - 1]) + if a.Some? then {a.value.root} else {}
  {
    var init := docs[..|docs| - 1];
    assert docs == init + [docs[|docs| - 1]];
  }

  /** One analysis per root: documents under one root are of one program. */
  ghost predicate OneAnalysisPerRoot(w: World, d: Docs, docs: seq<Path>) {
    forall p, q :: p in docs && q in docs ==>
      var a, b := FreshFor(w, d.disk, d.overlay, p), FreshFor(w, d.disk, d.overlay, q);
      a.Some? && b.Some? && a.value.root == b.value.root ==> a == b
  }

  /** An analysis says which tree it is of. */
  ghost predicate NamesItsRoot(w: World) {
    forall disk, project, src, overlay ::
      var a := w.check(disk, project, src, overlay);
      a.Some? ==> a.value.root == src
  }

  /** No project has its sources where the copies of the library are. */
  ghost predicate StdApart(w: World, disk: Disk, paths: set<Path>) {
    forall p :: p in paths && !w.isStdCopy(p) ==> KeyRoot(w, disk, p) != w.stdAnalysis.root
  }

  lemma FreshNamesItsRoot(w: World, disk: Disk, overlay: Overlay, p: Path)
    requires NamesItsRoot(w) && Fresh(w, disk, overlay, p).Some?
    ensures Fresh(w, disk, overlay, p).value.root == KeyRoot(w, disk, p)
  {
    var at := w.find(disk, p);
    if at.Found? {
      assert w.check(disk, Some(at.project), at.project.src, overlay).value.root == at.project.src;
    } else {
      assert w.check(disk, None, w.root, overlay).value.root == w.root;
    }
  }

  /** Where documents of one tree are of one project, documents of one root have one analysis. */
  lemma OneProjectOneAnalysis(w: World, d: Docs, docs: seq<Path>)
    requires NamesItsRoot(w) && OneProjectPerRoot(w, d.disk, Elems(docs)) && StdApart(w, d.disk, Elems(docs))
    ensures OneAnalysisPerRoot(w, d, docs)
  {
    forall p, q | p in docs && q in docs && FreshFor(w, d.disk, d.overlay, p).Some? && FreshFor(w, d.disk, d.overlay, q).Some?
      && FreshFor(w, d.disk, d.overlay, p).value.root == FreshFor(w, d.disk, d.overlay, q).value.root
      ensures FreshFor(w, d.disk, d.overlay, p) == FreshFor(w, d.disk, d.overlay, q)
    {
      assert p in Elems(docs) && q in Elems(docs);
      if !w.isStdCopy(p) { FreshNamesItsRoot(w, d.disk, d.overlay, p); }
      if !w.isStdCopy(q) { FreshNamesItsRoot(w, d.disk, d.overlay, q); }
    }
  }

  ghost predicate Reports(w: World, d: Docs, p: Path, uri: Uri, diag: Diag) {
    var a := FreshFor(w, d.disk, d.overlay, p);
    a.Some? && diag in DiagsAt(w, d.uris, a.value.diagnostics, uri)
  }

  ghost predicate NotesOn(w: World, d: Docs, p: Path, uri: Uri, diag: Diag) {
    var a := FreshFor(w, d.disk, d.overlay, p);
    a.Some? && diag in NotesAt(w, d, p, a.value, uri)
  }

  /** What the last document adds: its notes and reports, unless its root is done. */
  lemma ExpectedGrows(w: World, d: Docs, docs: seq<Path>, uri: Uri, diag: Diag)
    requires docs != []
    ensures var init, last := docs[..|docs| - 1], docs[|docs| - 1];
      var a := FreshFor(w, d.disk, d.overlay, last);
      diag in Expected(w, d, docs, uri) <==>
        || diag in Expected(w, d, init, uri)
        || (a.Some? && a.value.root !in Roots(w, d, init) && (Reports(w, d, last, uri, diag) || NotesOn(w, d, last, uri, diag)))
  {}

  /** A document whose root is done reports what one before it does. */
  lemma DoneReports(w: World, d: Docs, docs: seq<Path>, last: Path, uri: Uri, diag: Diag) returns (q: Path)
    requires OneAnalysisPerRoot(w, d, docs + [last]) && Reports(w, d, last, uri, diag)
    requires FreshFor(w, d.disk, d.overlay, last).value.root in Roots(w, d, docs)
    ensures q in docs && Reports(w, d, q, uri, diag)
  {
    var a := FreshFor(w, d.disk, d.overlay, last);
    q :| q in docs && FreshFor(w, d.disk, d.overlay, q).Some? && FreshFor(w, d.disk, d.overlay, q).value.root == a.value.root;
    assert q in docs + [last] && last in docs + [last];
  }

  /** Nothing a document's analysis reports is lost, and nothing else is shown but notes. */
  lemma {:induction false} EveryReportIsShown(w: World, d: Docs, docs: seq<Path>, uri: Uri, diag: Diag)
    requires OneAnalysisPerRoot(w, d, docs)
    ensures forall p :: p in docs && Reports(w, d, p, uri, diag) ==> diag in Expected(w, d, docs, uri)
    ensures diag in Expected(w, d, docs, uri) ==>
      exists p :: p in docs && (Reports(w, d, p, uri, diag) || NotesOn(w, d, p, uri, diag))
  {
    if docs != [] {
      var init, last := docs[..|docs| - 1], docs[|docs| - 1];
      assert docs == init + [last];
      EveryReportIsShown(w, d, init, uri, diag);
      ExpectedGrows(w, d, docs, uri, diag);
      if Reports(w, d, last, uri, diag) && FreshFor(w, d.disk, d.overlay, last).value.root in Roots(w, d, init) {
        var q := DoneReports(w, d, init, last, uri, diag);
      }
      if diag in Expected(w, d, docs, uri) && diag !in Expected(w, d, init, uri) { assert last in docs; }
    }
  }

  /** Without notes, the order of the documents does not matter to what is shown. */
  lemma OrderDoesNotMatter(w: World, d: Docs, docs: seq<Path>, docs2: seq<Path>, uri: Uri, diag: Diag)
    requires NamesItsRoot(w) && OneProjectPerRoot(w, d.disk, Documents(w, d)) && StdApart(w, d.disk, Documents(w, d))
    requires Enumerates(w, d, docs) && Enumerates(w, d, docs2)
    requires forall p :: p in Documents(w, d) ==> !NotesOn(w, d, p, uri, diag)
    ensures diag in Expected(w, d, docs, uri) <==> diag in Expected(w, d, docs2, uri)
  {
    EnumeratesDocuments(w, d, docs);
    EnumeratesDocuments(w, d, docs2);
    OneProjectOneAnalysis(w, d, docs);
    OneProjectOneAnalysis(w, d, docs2);
    EveryReportIsShown(w, d, docs, uri, diag);
    EveryReportIsShown(w, d, docs2, uri, diag);
  }

  /** Shown at `uri`: everything the documents' analyses report there, and nothing else but notes. */
  ghost predicate ShowsReports(w: World, d: Docs, sent: seq<Sent>, uri: Uri, diag: Diag) {
    && (forall p :: p in Documents(w, d) && Reports(w, d, p, uri, diag) ==> diag in Shown(sent, uri))
    && (diag in Shown(sent, uri) ==>
         exists p :: p in Documents(w, d) && (Reports(w, d, p, uri, diag) || NotesOn(w, d, p, uri, diag)))
  }

  lemma FewerPaths(w: World, disk: Disk, paths: set<Path>, fewer: set<Path>)
    requires OneProjectPerRoot(w, disk, paths) && StdApart(w, disk, paths) && fewer <= paths
    ensures OneProjectPerRoot(w, disk, fewer) && StdApart(w, disk, fewer)
  {}

  /** A settled client shows, at every URI, everything the analyses of the documents report there,
      and nothing else but notes. */
  lemma SettledShowsReports(w: World, d: Docs, sent: seq<Sent>, uri: Uri, diag: Diag)
    requires NamesItsRoot(w) && OneProjectPerRoot(w, d.disk, Documents(w, d)) && StdApart(w, d.disk, Documents(w, d))
    requires Settled(w, d, sent)
    ensures ShowsReports(w, d, sent, uri, diag)
  {
    var docs :| Enumerates(w, d, docs) && ShowsExpected(w, d, docs, sent);
    EnumeratesDocuments(w, d, docs);
    OneProjectOneAnalysis(w, d, docs);
    EveryReportIsShown(w, d, docs, uri, diag);
    assert Shown(sent, uri) == Expected(w, d, docs, uri);
  }
}
