/** The files of a cache entry: written one by one by a builder, read back by `load`, compared
    with a program's by `own_files`. */
module StdlibFiles {
  import opened Basics

  type Path = seq<string>

  datatype Child = Child(name: string, tree: Tree)

  datatype Tree = Leaf(content: string) | Folder(children: seq<Child>)

  // ---- the files of a tree

  /** Every file below `t`, which stands at `at`. */
  ghost function FilesOf(t: Tree, at: Path): set<(Path, string)>
    decreases t, 1, 0
  {
    if t.Leaf? then {(at, t.content)} else FilesFrom(t, 0, at)
  }

  /** The files below the children from `i` on. */
  ghost function FilesFrom(t: Tree, i: nat, at: Path): set<(Path, string)>
    requires t.Folder? && i <= |t.children|
    decreases t, 0, |t.children| - i
  {
    if i == |t.children| then {}
    else FilesOf(t.children[i].tree, at + [t.children[i].name]) + FilesFrom(t, i + 1, at)
  }

  /** No folder has two children of one name. */
  ghost predicate DistinctNames(t: Tree) {
    t.Folder? ==>
      && (forall i, j :: 0 <= i < j < |t.children| ==> t.children[i].name != t.children[j].name)
      && forall i :: 0 <= i < |t.children| ==> DistinctNames(t.children[i].tree)
  }

  ghost predicate OneContentPerPath(files: set<(Path, string)>) {
    forall a, b :: a in files && b in files && a.0 == b.0 ==> a == b
  }

  ghost function Pairs(m: map<Path, string>): set<(Path, string)> {
    set p | p in m :: (p, m[p])
  }

  lemma {:induction false} FilesAreBelow(t: Tree, at: Path, f: (Path, string))
    requires f in FilesOf(t, at)
    ensures at <= f.0
    decreases t, 1, 0
  {
    if t.Folder? { FilesFromAreBelow(t, 0, at, f); }
  }

  lemma {:induction false} FilesFromAreBelow(t: Tree, i: nat, at: Path, f: (Path, string))
    requires t.Folder? && i <= |t.children| && f in FilesFrom(t, i, at)
    ensures at < f.0
    ensures exists k :: i <= k < |t.children| && t.children[k].name == f.0[|at|] && f in FilesOf(t.children[k].tree, at + [t.children[k].name])
    decreases t, 0, |t.children| - i
  {
    var c := t.children[i];
    if f in FilesOf(c.tree, at + [c.name]) {
      FilesAreBelow(c.tree, at + [c.name], f);
      assert at + [c.name] <= f.0;
      assert f.0[|at|] == (at + [c.name])[|at|];
    } else {
      FilesFromAreBelow(t, i + 1, at, f);
    }
  }

  lemma {:induction false} DistinctNamesDistinctPaths(t: Tree, at: Path)
    requires DistinctNames(t)
    ensures OneContentPerPath(FilesOf(t, at))
    decreases t
  {
    if t.Folder? {
      forall a, b | a in FilesOf(t, at) && b in FilesOf(t, at) && a.0 == b.0
        ensures a == b
      {
        FilesFromAreBelow(t, 0, at, a);
        FilesFromAreBelow(t, 0, at, b);
        var i :| 0 <= i < |t.children| && t.children[i].name == a.0[|at|] && a in FilesOf(t.children[i].tree, at + [t.children[i].name]);
        var j :| 0 <= j < |t.children| && t.children[j].name == b.0[|at|] && b in FilesOf(t.children[j].tree, at + [t.children[j].name]);
        assert i == j;
        DistinctNamesDistinctPaths(t.children[i].tree, at + [t.children[i].name]);
      }
    }
  }

  // ---- reading back

  datatype Pending = Pending(path: Path, dir: Tree)

  ghost function PendingFiles(stack: seq<Pending>): set<(Path, string)> {
    if stack == [] then {}
    else
      var top := stack[|stack| - 1];
      PendingFiles(stack[..|stack| - 1]) + FilesOf(top.dir, top.path)
  }

  ghost function Size(t: Tree): nat
    decreases t, 1, 0
  {
    if t.Leaf? then 1 else 1 + SizeFrom(t, 0)
  }

  ghost function SizeFrom(t: Tree, i: nat): nat
    requires t.Folder? && i <= |t.children|
    decreases t, 0, |t.children| - i
  {
    if i == |t.children| then 0 else Size(t.children[i].tree) + SizeFrom(t, i + 1)
  }

  ghost function PendingSize(stack: seq<Pending>): nat {
    if stack == [] then 0 else PendingSize(stack[..|stack| - 1]) + Size(stack[|stack| - 1].dir)
  }

  lemma PushPending(stack: seq<Pending>, p: Pending)
    ensures PendingFiles(stack + [p]) == PendingFiles(stack) + FilesOf(p.dir, p.path)
    ensures PendingSize(stack + [p]) == PendingSize(stack) + Size(p.dir)
  {
    assert (stack + [p])[..|stack|] == stack;
  }

  lemma InsertPair(m: map<Path, string>, p: Path, c: string, all: set<(Path, string)>)
    requires OneContentPerPath(all) && Pairs(m) <= all && (p, c) in all
    ensures Pairs(m[p := c]) == Pairs(m) + {(p, c)}
  {
    if p in m { assert (p, m[p]) in Pairs(m); }
    var m2 := m[p := c];
    forall f | f in Pairs(m) + {(p, c)} ensures f in Pairs(m2) {
      assert f.0 in m2 && m2[f.0] == f.1;
    }
    forall f | f in Pairs(m2) ensures f in Pairs(m) + {(p, c)} {
      if f.0 != p { assert f.0 in m; }
    }
  }

  /** The files still to be found: on the stack, and in the folder being listed. */
  ghost predicate AllFound(sources: map<Path, string>, stack: seq<Pending>, rest: set<(Path, string)>, all: set<(Path, string)>) {
    Pairs(sources) + PendingFiles(stack) + rest == all
  }

  lemma TakeLeaf(sources: map<Path, string>, stack: seq<Pending>, t: Tree, i: nat, at: Path, all: set<(Path, string)>)
    requires t.Folder? && i < |t.children| && t.children[i].tree.Leaf? && OneContentPerPath(all)
    requires AllFound(sources, stack, FilesFrom(t, i, at), all)
    ensures AllFound(sources[at + [t.children[i].name] := t.children[i].tree.content], stack, FilesFrom(t, i + 1, at), all)
  {
    var c := t.children[i];
    var f := (at + [c.name], c.tree.content);
    assert f in FilesOf(c.tree, at + [c.name]);
    assert f in FilesFrom(t, i, at);
    InsertPair(sources, f.0, f.1, all);
    assert FilesFrom(t, i, at) == {f} + FilesFrom(t, i + 1, at);
  }

  lemma TakeFolder(sources: map<Path, string>, stack: seq<Pending>, t: Tree, i: nat, at: Path, all: set<(Path, string)>)
    requires t.Folder? && i < |t.children| && t.children[i].tree.Folder?
    requires AllFound(sources, stack, FilesFrom(t, i, at), all)
    ensures AllFound(sources, stack + [Pending(at + [t.children[i].name], t.children[i].tree)], FilesFrom(t, i + 1, at), all)
  {
    PushPending(stack, Pending(at + [t.children[i].name], t.children[i].tree));
  }

  ghost predicate Folders(stack: seq<Pending>) {
    forall i :: 0 <= i < |stack| ==> stack[i].dir.Folder?
  }

  /** One folder listed: its files are filed, its folders pushed. */
  method ListFolder(before: map<Path, string>, stack0: seq<Pending>, dir: Tree, at: Path, ghost all: set<(Path, string)>)
    returns (sources: map<Path, string>, stack: seq<Pending>)
    requires dir.Folder? && Folders(stack0) && OneContentPerPath(all)
    requires AllFound(before, stack0, FilesOf(dir, at), all)
    ensures Folders(stack) && AllFound(sources, stack, {}, all)
    ensures PendingSize(stack) < PendingSize(stack0) + Size(dir)
  {
    sources, stack := before, stack0;
    var i := 0;
    while i < |dir.children|
      invariant 0 <= i <= |dir.children|
      invariant Folders(stack)
      invariant AllFound(sources, stack, FilesFrom(dir, i, at), all)
      invariant PendingSize(stack) + SizeFrom(dir, i) < PendingSize(stack0) + Size(dir)
    {
      var c := dir.children[i];
      if c.tree.Folder? {
        TakeFolder(sources, stack, dir, i, at, all);
        PushPending(stack, Pending(at + [c.name], c.tree));
        stack := stack + [Pending(at + [c.name], c.tree)];
      } else {
        TakeLeaf(sources, stack, dir, i, at, all);
        sources := sources[at + [c.name] := c.tree.content];
      }
      i := i + 1;
    }
  }

  /** `load`'s loop, over a stack of folders still to be listed. */
  method ReadSources(src: Tree) returns (sources: map<Path, string>)
    requires src.Folder? && DistinctNames(src)
    ensures Pairs(sources) == FilesOf(src, [])
  {
    ghost var all := FilesOf(src, []);
    DistinctNamesDistinctPaths(src, []);
    sources := map[];
    var stack := [Pending([], src)];
    assert stack == [] + [Pending([], src)];
    PushPending([], Pending([], src));
    while stack != []
      invariant Folders(stack) && AllFound(sources, stack, {}, all)
      decreases PendingSize(stack)
    {
      var top := stack[|stack| - 1];
      var rest := stack[..|stack| - 1];
      sources, stack := ListFolder(sources, rest, top.dir, top.path, all);
    }
  }

  /** What an entry's directory holds, as far as `load` asks. */
  datatype Entry = Entry(done: bool, src: Option<Tree>)

  /** `load`: nothing without `done`, nothing without a source folder. */
  method Load(entry: Entry) returns (sources: Option<map<Path, string>>)
    requires entry.src.Some? ==> DistinctNames(entry.src.value)
    ensures sources.Some? <==> entry.done && entry.src.Some? && entry.src.value.Folder?
    ensures sources.Some? ==> Pairs(sources.value) == FilesOf(entry.src.value, [])
  {
    if !entry.done || entry.src.None? || entry.src.value.Leaf? { return None; }
    var m := ReadSources(entry.src.value);
    return Some(m);
  }

  // ---- writing

  function FindChild(cs: seq<Child>, name: string): (r: Option<nat>)
    ensures r.Some? ==> r.value < |cs| && cs[r.value].name == name
    ensures r.None? ==> forall i :: 0 <= i < |cs| ==> cs[i].name != name
  {
    if cs == [] then None
    else if cs[|cs| - 1].name == name then Some(|cs| - 1)
    else FindChild(cs[..|cs| - 1], name)
  }

  /** Writes one file, making its folders. `None` where a file stands for a folder or a folder
      for the file. */
  function WriteFile(t: Tree, path: Path, content: string): Option<Tree>
    requires path != []
    decreases |path|
  {
    if t.Leaf? then None
    else
      var at := FindChild(t.children, path[0]);
      var was := if at.None? then Folder([]) else t.children[at.value].tree;
      var child :-
        if |path| > 1 then WriteFile(was, path[1..], content)
        else if at.Some? && was.Folder? then None
        else Some(Leaf(content));
      Some(Folder(
        if at.None? then t.children + [Child(path[0], child)]
        else t.children[at.value := Child(path[0], child)]))
  }

  function WriteFiles(files: seq<(Path, string)>): Option<Tree>
    requires forall f :: f in files ==> f.0 != []
  {
    if files == [] then Some(Folder([]))
    else
      var t :- WriteFiles(files[..|files| - 1]);
      assert files[|files| - 1] in files;
      WriteFile(t, files[|files| - 1].0, files[|files| - 1].1)
  }

  /** The files but the one at `p`. */
  ghost function Without(files: set<(Path, string)>, p: Path): set<(Path, string)> {
    set f | f in files && f.0 != p
  }

  /** A file is below a folder exactly when it is below one of its children. */
  lemma {:induction false} FilesByChild(t: Tree, i: nat, at: Path, f: (Path, string))
    requires t.Folder? && i <= |t.children|
    ensures f in FilesFrom(t, i, at) <==>
      exists k :: i <= k < |t.children| && f in FilesOf(t.children[k].tree, at + [t.children[k].name])
    decreases |t.children| - i
  {
    if i < |t.children| { FilesByChild(t, i + 1, at, f); }
  }

  lemma ChildFilesBelow(t: Tree, k: nat, at: Path, f: (Path, string))
    requires t.Folder? && k < |t.children| && f in FilesOf(t.children[k].tree, at + [t.children[k].name])
    ensures |at| < |f.0| && f.0[|at|] == t.children[k].name
  {
    FilesAreBelow(t.children[k].tree, at + [t.children[k].name], f);
    assert (at + [t.children[k].name])[|at|] == t.children[k].name;
  }

  /** Writing a file adds it, in place of what its path held, and changes no other. */
  lemma {:induction false} WriteFileAdds(t: Tree, path: Path, content: string, at: Path)
    requires path != [] && DistinctNames(t) && WriteFile(t, path, content).Some?
    ensures var t2 := WriteFile(t, path, content).value;
      t2.Folder? && DistinctNames(t2) && FilesOf(t2, at) == Without(FilesOf(t, at), at + path) + {(at + path, content)}
    decreases |path|
  {
    var t2 := WriteFile(t, path, content).value;
    var found := FindChild(t.children, path[0]);
    var k := if found.None? then |t.children| else found.value;
    var here := at + [path[0]];
    var was := if found.None? then Folder([]) else t.children[k].tree;
    var child := t2.children[k].tree;
    assert at + path == here + path[1..];
    if |path| > 1 {
      WriteFileAdds(was, path[1..], content, here);
    } else {
      assert here + path[1..] == here;
      LeafAlone(was, content, here);
    }
    assert FilesOf(child, here) == Without(FilesOf(was, here), at + path) + {(at + path, content)};
    forall f
      ensures f in FilesOf(t2, at) <==> f in Without(FilesOf(t, at), at + path) + {(at + path, content)}
    {
      WriteSeen(t, t2, k, found.None?, path, content, at, f);
    }
  }

  lemma LeafAlone(was: Tree, content: string, here: Path)
    requires was.Leaf? || was == Folder([])
    ensures {(here, content)} == Without(FilesOf(was, here), here) + {(here, content)}
  {
    assert Folder([]).children == [];
  }

  lemma WriteSeen(t: Tree, t2: Tree, k: nat, isNew: bool, path: Path, content: string, at: Path, f: (Path, string))
    requires path != [] && t.Folder? && t2.Folder? && k <= |t.children|
    requires isNew <==> k == |t.children|
    requires |t2.children| == (if isNew then |t.children| + 1 else |t.children|)
    requires forall i :: 0 <= i < |t.children| && i != k ==> t2.children[i] == t.children[i] && t.children[i].name != path[0]
    requires t2.children[k].name == path[0] && (!isNew ==> t.children[k].name == path[0])
    requires FilesOf(t2.children[k].tree, at + [path[0]]) ==
      Without(if isNew then {} else FilesOf(t.children[k].tree, at + [path[0]]), at + path) + {(at + path, content)}
    ensures f in FilesOf(t2, at) <==> f in Without(FilesOf(t, at), at + path) + {(at + path, content)}
  {
    FilesByChild(t, 0, at, f);
    FilesByChild(t2, 0, at, f);
    var here := at + [path[0]];
    if j :| 0 <= j < |t.children| && f in FilesOf(t.children[j].tree, at + [t.children[j].name]) {
      ChildFilesBelow(t, j, at, f);
      assert (at + path)[|at|] == path[0];
      if j != k {
        assert t2.children[j] == t.children[j];
        assert f.0 != at + path;
      } else if f.0 != at + path {
        assert f in FilesOf(t2.children[k].tree, at + [t2.children[k].name]);
      }
    }
    if f == (at + path, content) {
      assert f in FilesOf(t2.children[k].tree, at + [t2.children[k].name]);
    }
    if j :| 0 <= j < |t2.children| && f in FilesOf(t2.children[j].tree, at + [t2.children[j].name]) {
      if j != k {
        assert f in FilesOf(t.children[j].tree, at + [t.children[j].name]);
        ChildFilesBelow(t, j, at, f);
        assert (at + path)[|at|] == path[0];
      } else if f != (at + path, content) {
        assert f in FilesOf(t.children[k].tree, at + [t.children[k].name]);
      }
    }
  }

  /** The last text written at each path. */
  function LastWritten(files: seq<(Path, string)>): map<Path, string> {
    if files == [] then map[]
    else LastWritten(files[..|files| - 1])[files[|files| - 1].0 := files[|files| - 1].1]
  }

  lemma OverwritePair(m: map<Path, string>, p: Path, c: string)
    ensures Pairs(m[p := c]) == Without(Pairs(m), p) + {(p, c)}
  {
    var m2 := m[p := c];
    forall f | f in Without(Pairs(m), p) + {(p, c)} ensures f in Pairs(m2) {
      assert f.0 in m2 && m2[f.0] == f.1;
    }
    forall f | f in Pairs(m2) ensures f in Without(Pairs(m), p) + {(p, c)} {
      if f.0 != p { assert f.0 in m && f in Pairs(m); }
    }
  }

  /** What a builder has written is what reading back finds: a library loads as it was prepared. */
  lemma {:induction false} WrittenIsReadBack(files: seq<(Path, string)>)
    requires (forall f :: f in files ==> f.0 != []) && WriteFiles(files).Some?
    ensures WriteFiles(files).value.Folder? && DistinctNames(WriteFiles(files).value)
    ensures FilesOf(WriteFiles(files).value, []) == Pairs(LastWritten(files))
  {
    if files != [] {
      var init, last := files[..|files| - 1], files[|files| - 1];
      assert last in files;
      WrittenIsReadBack(init);
      WriteFileAdds(WriteFiles(init).value, last.0, last.1, []);
      assert [] + last.0 == last.0;
      OverwritePair(LastWritten(init), last.0, last.1);
    }
  }

  lemma PairsDetermine(m: map<Path, string>, n: map<Path, string>)
    requires Pairs(m) == Pairs(n)
    ensures m == n
  {
    forall p | p in m ensures p in n && n[p] == m[p] {
      assert (p, m[p]) in Pairs(n);
    }
    forall p | p in n ensures p in m {
      assert (p, n[p]) in Pairs(m);
    }
  }

  /** A builder's files, written and loaded again. */
  method WriteThenLoad(files: seq<(Path, string)>) returns (sources: Option<map<Path, string>>)
    requires forall f :: f in files ==> f.0 != []
    ensures sources == if WriteFiles(files).Some? then Some(LastWritten(files)) else None
  {
    var t := WriteFiles(files);
    if t.None? { return None; }
    WrittenIsReadBack(files);
    sources := Load(Entry(true, t));
    PairsDetermine(sources.value, LastWritten(files));
  }

  // ---- sharing the library

  /** `own_files`: what the library does not cover, or nothing if it covers a file differently. */
  method OwnFiles(library: map<Path, string>, files: seq<(Path, string)>) returns (own: Option<seq<Path>>)
    ensures own.Some? <==> forall f :: f in files && f.0 in library ==> library[f.0] == f.1
    ensures own.Some? ==> own.value == Uncovered(library, files)
  {
    var out: seq<Path> := [];
    var i := 0;
    while i < |files|
      invariant 0 <= i <= |files|
      invariant forall k :: 0 <= k < i && files[k].0 in library ==> library[files[k].0] == files[k].1
      invariant out == Uncovered(library, files[..i])
    {
      var rel, content := files[i].0, files[i].1;
      assert files[..i + 1][..i] == files[..i];
      if rel in library {
        if library[rel] != content {
          assert files[i] in files;
          return None;
        }
      } else {
        out := out + [rel];
      }
      i := i + 1;
    }
    assert files[..|files|] == files;
    return Some(out);
  }

  function Uncovered(library: map<Path, string>, files: seq<(Path, string)>): seq<Path> {
    if files == [] then []
    else
      var init, last := Uncovered(library, files[..|files| - 1]), files[|files| - 1];
      if last.0 in library then init else init + [last.0]
  }

  /** With an answer, library and own files together are the program's files: each file is one or
      the other, and a covered one has the library's text. */
  lemma {:induction false} OwnAndSharedAreAll(library: map<Path, string>, files: seq<(Path, string)>)
    requires forall f :: f in files && f.0 in library ==> library[f.0] == f.1
    ensures forall f :: f in files ==> (f.0 in Uncovered(library, files) <==> f.0 !in library)
    ensures forall p :: p in Uncovered(library, files) ==> p !in library && exists f :: f in files && f.0 == p
  {
    if files != [] {
      var init, last := files[..|files| - 1], files[|files| - 1];
      assert forall f :: f in files <==> f in init || f == last;
      OwnAndSharedAreAll(library, init);
    }
  }
}
