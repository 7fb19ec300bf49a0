/** Where a diagnostic is shown: at the URI its file is open under, else at the file's own. */
module LspAddresses {
  import opened Basics
  import opened LspModel
  import opened LspServer
  import opened LspStaleness

  /** `fd` is one of the diagnostics found for the document `p`, and not in the embedded library. */
  ghost predicate Found(w: World, d: Docs, p: Path, fd: FileDiag) {
    var a := FreshFor(w, d.disk, d.overlay, p);
    p in Documents(w, d) && a.Some? && fd in a.value.diagnostics && !fd.hidden
  }

  /** `uri` is the address of the file at `path`: clients compare URIs exactly, so the one a
      document was opened under goes before the file's own. */
  ghost predicate AddressOf(w: World, d: Docs, path: Path, uri: Uri) {
    if path in d.uris then uri == d.uris[path] else w.uriOf(path) == Some(uri)
  }

  /** A line about the document itself: no manifest names it although there are some, or the
      library was built with errors. */
  ghost predicate NoteFor(w: World, d: Docs, p: Path, diag: Diag) {
    var a := FreshFor(w, d.disk, d.overlay, p);
    a.Some? && (
      || (diag == w.fallbackNote && a.value.project.None? && w.isFile(d.disk, p) && w.hasManifests(d.disk))
      || (diag == w.stdNote(a.value.stdErrors) && a.value.stdErrors > 0))
  }

  lemma {:induction false} DiagsAtExactly(w: World, uris: map<Path, Uri>, ds: seq<FileDiag>, uri: Uri, diag: Diag)
    ensures diag in DiagsAt(w, uris, ds, uri) <==>
      exists fd :: fd in ds && !fd.hidden && fd.diag == diag && (if fd.path in uris then uri == uris[fd.path] else w.uriOf(fd.path) == Some(uri))
  {
    if ds != [] {
      var init, last := ds[..|ds| - 1], ds[|ds| - 1];
      assert ds == init + [last];
      DiagsAtExactly(w, uris, init, uri, diag);
    }
  }

  lemma {:induction false} DiagsInOrder(w: World, uris: map<Path, Uri>, before: seq<FileDiag>, behind: seq<FileDiag>, uri: Uri)
    ensures DiagsAt(w, uris, before + behind, uri) == DiagsAt(w, uris, before, uri) + DiagsAt(w, uris, behind, uri)
  {
    if behind == [] {
      assert before + behind == before;
    } else {
      assert (before + behind)[..|before + behind| - 1] == before + behind[..|behind| - 1];
      DiagsInOrder(w, uris, before, behind[..|behind| - 1], uri);
    }
  }

  lemma ReportsAreFound(w: World, d: Docs, p: Path, uri: Uri, diag: Diag)
    requires p in Documents(w, d)
    ensures Reports(w, d, p, uri, diag) <==> exists fd :: Found(w, d, p, fd) && fd.diag == diag && AddressOf(w, d, fd.path, uri)
  {
    var a := FreshFor(w, d.disk, d.overlay, p);
    if a.Some? { DiagsAtExactly(w, d.uris, a.value.diagnostics, uri, diag); }
  }

  lemma NotesAreNotes(w: World, d: Docs, p: Path, uri: Uri, diag: Diag)
    ensures NotesOn(w, d, p, uri, diag) <==> NoteFor(w, d, p, diag) && p in d.uris && d.uris[p] == uri
  {}

  /** At its address every diagnostic found is shown, and nothing else is but notes on documents
      open there. */
  ghost predicate ShowsFound(w: World, d: Docs, sent: seq<Sent>) {
    && (forall p, fd, uri :: Found(w, d, p, fd) && AddressOf(w, d, fd.path, uri) ==> fd.diag in Shown(sent, uri))
    && (forall uri, diag :: diag in Shown(sent, uri) ==>
         || (exists p, fd :: Found(w, d, p, fd) && fd.diag == diag && AddressOf(w, d, fd.path, uri))
         || (exists p :: p in d.uris && d.uris[p] == uri && NoteFor(w, d, p, diag)))
  }

  lemma SettledShowsFound(w: World, d: Docs, sent: seq<Sent>)
    requires NamesItsRoot(w) && OneProjectPerRoot(w, d.disk, Documents(w, d)) && StdApart(w, d.disk, Documents(w, d))
    requires Settled(w, d, sent)
    ensures ShowsFound(w, d, sent)
  {
    forall p, fd, uri | Found(w, d, p, fd) && AddressOf(w, d, fd.path, uri)
      ensures fd.diag in Shown(sent, uri)
    {
      SettledShowsReports(w, d, sent, uri, fd.diag);
      ReportsAreFound(w, d, p, uri, fd.diag);
    }
    forall uri, diag | diag in Shown(sent, uri)
      ensures (exists p, fd :: Found(w, d, p, fd) && fd.diag == diag && AddressOf(w, d, fd.path, uri))
        || exists p :: p in d.uris && d.uris[p] == uri && NoteFor(w, d, p, diag)
    {
      SettledShowsReports(w, d, sent, uri, diag);
      var p :| p in Documents(w, d) && (Reports(w, d, p, uri, diag) || NotesOn(w, d, p, uri, diag));
      ReportsAreFound(w, d, p, uri, diag);
      NotesAreNotes(w, d, p, uri, diag);
    }
  }

  /** So wherever a document is open, what is found in it is shown there. */
  lemma OpenDocumentsShowTheirs(w: World, d: Docs, sent: seq<Sent>, p: Path, fd: FileDiag)
    requires NamesItsRoot(w) && OneProjectPerRoot(w, d.disk, Documents(w, d)) && StdApart(w, d.disk, Documents(w, d))
    requires Settled(w, d, sent) && Found(w, d, p, fd)
    ensures fd.path in d.uris ==> fd.diag in Shown(sent, d.uris[fd.path])
    ensures fd.path !in d.uris && w.uriOf(fd.path).Some? ==> fd.diag in Shown(sent, w.uriOf(fd.path).value)
  {
    SettledShowsFound(w, d, sent);
    if fd.path in d.uris { assert AddressOf(w, d, fd.path, d.uris[fd.path]); }
    else if w.uriOf(fd.path).Some? { assert AddressOf(w, d, fd.path, w.uriOf(fd.path).value); }
  }

  /** Whenever the loop of `Serve` waits after an edit. */
  lemma BlockShowsFound(w: World, start: Disk, script: seq<Arrival>, b: Block)
    requires NamesItsRoot(w) && UpToDate(w, start, script, b) && b.published.Some?
    requires SeparateAt(w, start, script, b.published.value, b.published.value)
    requires StdApart(w, After(start, script, b.published.value).disk, PathsTo(w, script, b.published.value))
    ensures ShowsFound(w, Latest(start, script, b.handled, b.published.value), b.sent)
  {
    var k := b.published.value;
    var d := Latest(start, script, b.handled, k);
    BlockedShowsLatestBuffers(w, start, script, b);
    DocumentsAreNamed(w, start, script, b.handled, k);
    FewerPaths(w, After(start, script, k).disk, PathsTo(w, script, k), Documents(w, d));
    SettledShowsFound(w, d, b.sent);
  }

  /** Documents of one program: its diagnostics are shown once, however many of them are open,
      behind the notes on the one that is taken first. */
  lemma {:induction false} OneProgramShowsOnce(w: World, d: Docs, docs: seq<Path>, a: Analysis, uri: Uri)
    requires docs != [] && forall p :: p in docs ==> FreshFor(w, d.disk, d.overlay, p) == Some(a)
    ensures Expected(w, d, docs, uri) == NotesAt(w, d, docs[0], a, uri) + DiagsAt(w, d.uris, a.diagnostics, uri)
  {
    var init, last := docs[..|docs| - 1], docs[|docs| - 1];
    if init == [] {
      assert Roots(w, d, init) == {};
    } else {
      OneProgramShowsOnce(w, d, init, a, uri);
      assert init[0] in docs && init[0] in init;
      assert a.root in Roots(w, d, init);
    }
  }
}
