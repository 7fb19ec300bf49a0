/** What being up to date with the last publication comes to: the client's own buffers are always
    the latest, and the disk is unless it changed behind an event that names no file. */
module LspStaleness {
  import opened Basics
  import opened LspModel
  import opened LspServer

  /** Whenever the loop blocks: before any edit nothing is open and nothing was sent; after one,
      the client shows what the latest buffers have, over the disk the last publication saw. */
  lemma BlockedShowsLatestBuffers(w: World, start: Disk, script: seq<Arrival>, b: Block)
    requires UpToDate(w, start, script, b)
    ensures b.published.None? ==> b.sent == [] && After(start, script, b.handled).uris == map[]
    ensures b.published.Some? && SeparateAt(w, start, script, b.published.value, b.published.value) ==>
      Settled(w, Latest(start, script, b.handled, b.published.value), b.sent)
  {
    UntouchedKeepsBuffers(start, script, if b.published.None? then 0 else b.published.value, b.handled);
  }

  /** The documents as a blocked client's buffers have them, over the disk last published. */
  function Latest(start: Disk, script: seq<Arrival>, n: nat, k: nat): Docs
    requires k <= n <= |script|
  {
    After(start, script, n).(disk := After(start, script, k).disk)
  }

  lemma DocumentsAreNamed(w: World, start: Disk, script: seq<Arrival>, n: nat, k: nat)
    requires k <= n <= |script| && Untouched(script, k, n)
    ensures Documents(w, Latest(start, script, n, k)) <= PathsTo(w, script, k)
  {
    UntouchedKeepsBuffers(start, script, k, n);
    var d := After(start, script, k);
    if d.uris != map[] {
      forall p | p in d.uris ensures p in PathsTo(w, script, k) { OpenPathsAreNamed(w, start, script, k, p); }
    }
  }

  /** Whenever the loop of `Serve` blocks after an edit, the client shows what the analyses of the
      documents report, the documents being those with the latest buffers, over the disk the last
      publication saw; and nothing else but notes. What is asked of projects is asked of that disk
      and of the documents named by then. */
  lemma BlockShowsReports(w: World, start: Disk, script: seq<Arrival>, b: Block, uri: Uri, diag: Diag)
    requires NamesItsRoot(w) && UpToDate(w, start, script, b) && b.published.Some?
    requires SeparateAt(w, start, script, b.published.value, b.published.value)
    requires StdApart(w, After(start, script, b.published.value).disk, PathsTo(w, script, b.published.value))
    ensures ShowsReports(w, Latest(start, script, b.handled, b.published.value), b.sent, uri, diag)
  {
    var k := b.published.value;
    var d := Latest(start, script, b.handled, k);
    BlockedShowsLatestBuffers(w, start, script, b);
    DocumentsAreNamed(w, start, script, b.handled, k);
    FewerPaths(w, After(start, script, k).disk, PathsTo(w, script, k), Documents(w, d));
    SettledShowsReports(w, d, b.sent, uri, diag);
  }

  /** An edit: a save, or a document written or closed. */
  ghost predicate IsEdit(m: Message) {
    m.Event? && (m.note.DidSave? || exists p :: Names(m, p))
  }

  lemma EditsTouch(m: Message)
    ensures Touches(m) <==> IsEdit(m)
  {
    if Touches(m) && !m.note.DidSave? { assert Names(m, m.note.path.value); }
  }

  /** Whenever the loop blocks, every save and every edit handled is followed by a publication. */
  lemma EditsArePublished(w: World, start: Disk, script: seq<Arrival>, b: Block, i: nat)
    requires UpToDate(w, start, script, b) && i < b.handled && IsEdit(script[i].msg)
    ensures b.published.Some? && i < b.published.value <= b.handled
  {
    EditsTouch(script[i].msg);
  }

  /** A workspace of one program with one diagnostic, present exactly while the disk is `here`. */
  function OnlyOn(here: Disk): World {
    var root := Path("w");
    World(
      root,
      (disk: Disk, path: Path) => Missing,
      (disk: Disk, project: Option<Project>, src: Path, overlay: Overlay) =>
        Some(Analysis(root, project, 0, if disk == here then [FileDiag(false, root, Diag("e"))] else [])),
      path => false,
      Analysis(root, None, 0, []),
      (disk: Disk, path: Path) => false,
      disk => false,
      path => Some(Uri("u")),
      Diag("note"),
      n => Diag("std"))
  }

  lemma {:induction false} ExpectedOnly(here: Disk, d: Docs, docs: seq<Path>, uri: Uri)
    requires docs != []
    ensures Expected(OnlyOn(here), d, docs, uri) == DiagsAt(OnlyOn(here), d.uris, FreshFor(OnlyOn(here), d.disk, d.overlay, docs[0]).value.diagnostics, uri)
  {
    var w := OnlyOn(here);
    var init, last := docs[..|docs| - 1], docs[|docs| - 1];
    if init == [] {
      assert Roots(w, d, init) == {};
    } else {
      ExpectedOnly(here, d, init, uri);
      assert FreshFor(w, d.disk, d.overlay, init[0]).Some? && init[0] in init;
      assert w.root in Roots(w, d, init);
    }
  }

  lemma EnumerationsAreNotEmpty(w: World, d: Docs, docs: seq<Path>)
    requires Enumerates(w, d, docs)
    ensures docs != []
  {
    if d.uris != map[] {
      var p :| p in d.uris;
      assert p in Elems(docs);
    }
  }

  lemma SettledOnly(d: Docs, docs: seq<Path>, sent: seq<Sent>)
    requires Enumerates(OnlyOn(d.disk), d, docs)
    requires var u := UriFor(OnlyOn(d.disk), d.uris, Path("w")).value; sent == [Sent(u, [Diag("e")])]
    ensures Settled(OnlyOn(d.disk), d, sent)
    ensures forall d2: Docs :: d2.disk != d.disk ==> !Settled(OnlyOn(d.disk), d2, sent)
  {
    var w := OnlyOn(d.disk);
    EnumerationsAreNotEmpty(w, d, docs);
    var u := UriFor(w, d.uris, Path("w")).value;
    var one := [FileDiag(false, Path("w"), Diag("e"))];
    forall uri
      ensures Shown(sent, uri) == Expected(w, d, docs, uri)
    {
      ExpectedOnly(d.disk, d, docs, uri);
      assert one[..0] == [] && DiagsAt(w, d.uris, one[..0], uri) == [];
      assert Shown(sent[..0], uri) == [];
    }
    assert ShowsExpected(w, d, docs, sent);
    assert Shown(sent, u) == [Diag("e")];
    forall d2: Docs | d2.disk != d.disk
      ensures !Settled(w, d2, sent)
    {
      forall docs2 | Enumerates(w, d2, docs2)
        ensures !ShowsExpected(w, d2, docs2, sent)
      {
        EnumerationsAreNotEmpty(w, d2, docs2);
        ExpectedOnly(d.disk, d2, docs2, u);
        assert Expected(w, d2, docs2, u) == [];
      }
    }
  }

  lemma {:induction false} SomeEnumeration(w: World, d: Docs, rest: set<Path>) returns (docs: seq<Path>)
    requires rest <= d.uris.Keys
    ensures (forall i, j :: 0 <= i < j < |docs| ==> docs[i] != docs[j]) && Elems(docs) == rest
    decreases |rest|
  {
    if rest == {} {
      docs := [];
    } else {
      var p :| p in rest;
      docs := SomeEnumeration(w, d, rest - {p});
      assert p !in Elems(docs);
      assert Elems(docs + [p]) == Elems(docs) + {p};
      docs := docs + [p];
    }
  }

  /** What was published stays right, whatever the workspace, exactly when no event since has come
      with another disk: an event that names no file drops the analyses but publishes nothing. */
  lemma StaysRightExactly(start: Disk, script: seq<Arrival>, k: nat, n: nat)
    requires k <= n <= |script| && Untouched(script, k, n)
    ensures After(start, script, n).disk == After(start, script, k).disk <==>
      forall w, sent :: Settled(w, After(start, script, k), sent) ==> Settled(w, After(start, script, n), sent)
  {
    UntouchedKeepsBuffers(start, script, k, n);
    var d, d2 := After(start, script, k), After(start, script, n);
    if d.disk != d2.disk {
      var w := OnlyOn(d.disk);
      var docs := [w.root];
      if d.uris != map[] { docs := SomeEnumeration(w, d, d.uris.Keys); }
      var sent := [Sent(UriFor(w, d.uris, Path("w")).value, [Diag("e")])];
      SettledOnly(d, docs, sent);
      assert Settled(w, d, sent) && !Settled(w, d2, sent);
    }
  }
}
