/** The Rust module names of emitted modules: path parts joined, underscores added until unused. */
module ModuleNames {
  import opened Basics

  datatype ModulePath = ModulePath(parts: seq<string>)

  function JoinParts(path: seq<string>): string {
    if path == [] then []
    else if |path| == 1 then path[0]
    else path[0] + "_" + JoinParts(path[1..])
  }

  /** The words of a text between its underscores. */
  function Words(s: string): (words: seq<string>)
    ensures words != []
  {
    if s == [] then [""]
    else if s[0] == '_' then [""] + Words(s[1..])
    else
      var rest := Words(s[1..]);
      [[s[0]] + rest[0]] + rest[1..]
  }

  lemma {:induction false} WordsOfPart(part: string, rest: string)
    requires '_' !in part
    ensures Words(part + "_" + rest) == [part] + Words(rest)
    ensures Words(part) == [part]
  {
    if part == [] {
      assert (part + "_" + rest)[1..] == rest;
    } else {
      WordsOfPart(part[1..], rest);
      assert (part + "_" + rest)[1..] == part[1..] + "_" + rest;
      assert [part[0]] + part[1..] == part;
    }
  }

  /** The parts of a path can be read off the joined name where none has an underscore. */
  lemma {:induction false} PartsOfJoined(path: seq<string>)
    requires path != [] && forall part :: part in path ==> '_' !in part
    ensures Words(JoinParts(path)) == path
  {
    if |path| == 1 {
      WordsOfPart(path[0], "");
      assert path == [path[0]];
    } else {
      WordsOfPart(path[0], JoinParts(path[1..]));
      PartsOfJoined(path[1..]);
      assert path == [path[0]] + path[1..];
    }
  }

  /** So only paths whose parts have underscores are joined alike, and need one behind. */
  lemma JoinedAlike(a: seq<string>, b: seq<string>)
    requires a != [] && b != [] && (forall part :: part in a + b ==> '_' !in part)
    ensures JoinParts(a) == JoinParts(b) <==> a == b
  {
    forall part | part in a || part in b ensures '_' !in part { assert part in a + b; }
    PartsOfJoined(a);
    PartsOfJoined(b);
  }

  function Underscores(n: nat): string {
    seq(n, _ => '_')
  }

  /** `name` is `path`'s own joined parts, with as few underscores behind as keep it clear of `used`. */
  ghost predicate NamedClearOf(name: string, path: ModulePath, used: set<string>) {
    exists k: nat :: name == JoinParts(path.parts) + Underscores(k) && name !in used
      && forall j: nat :: j < k ==> JoinParts(path.parts) + Underscores(j) in used
  }

  ghost function AtLeast(used: set<string>, n: nat): set<string> {
    set u | u in used && |u| >= n
  }

  lemma FewerAsLong(used: set<string>, name: string)
    requires name in used
    ensures |AtLeast(used, |name| + 1)| < |AtLeast(used, |name|)|
  {
    var longer, all := AtLeast(used, |name| + 1), AtLeast(used, |name|);
    assert name in all && name !in longer && longer <= all;
    var rest := all - longer;
    assert all == longer + rest && name in rest;
  }

  /** The underscore loop: it ends, since fewer and fewer used names are as long. */
  method Unused(path: ModulePath, used: set<string>) returns (name: string)
    ensures NamedClearOf(name, path, used)
  {
    name := JoinParts(path.parts);
    ghost var k: nat := 0;
    assert name == JoinParts(path.parts) + Underscores(0);
    while name in used
      invariant name == JoinParts(path.parts) + Underscores(k)
      invariant forall j: nat :: j < k ==> JoinParts(path.parts) + Underscores(j) in used
      decreases |AtLeast(used, |name|)|
    {
      FewerAsLong(used, name);
      assert Underscores(k) + "_" == Underscores(k + 1);
      name := name + "_";
      k := k + 1;
    }
  }

  ghost predicate Injective(names: map<ModulePath, string>) {
    forall a, b :: a in names && b in names && names[a] == names[b] ==> a == b
  }

  /** The names taken once `chosen` are. */
  ghost function Taken(chosen: seq<string>): set<string> {
    {"unions"} + Elems(chosen)
  }

  ghost predicate Distinct(modules: seq<ModulePath>) {
    forall i, j :: 0 <= i < j < |modules| ==> modules[i] != modules[j]
  }

  /** Each chosen name is its module's, clear of the earlier ones. */
  ghost predicate Chosen(chosen: seq<string>, modules: seq<ModulePath>) {
    |chosen| <= |modules| && forall k :: 0 <= k < |chosen| ==> NamedClearOf(chosen[k], modules[k], Taken(chosen[..k]))
  }

  lemma ChooseOne(chosen: seq<string>, modules: seq<ModulePath>, name: string)
    requires Chosen(chosen, modules) && |chosen| < |modules| && NamedClearOf(name, modules[|chosen|], Taken(chosen))
    ensures Chosen(chosen + [name], modules) && Taken(chosen + [name]) == Taken(chosen) + {name}
  {
    var more := chosen + [name];
    forall k | 0 <= k < |more|
      ensures NamedClearOf(more[k], modules[k], Taken(more[..k]))
    {
      if k < |chosen| { assert more[..k] == chosen[..k]; } else { assert more[..k] == chosen; }
    }
  }

  lemma ChosenAreClear(chosen: seq<string>, modules: seq<ModulePath>)
    requires Chosen(chosen, modules)
    ensures forall i, j :: 0 <= i < j < |chosen| ==> chosen[i] != chosen[j]
    ensures forall i :: 0 <= i < |chosen| ==> chosen[i] != "unions"
  {
    forall i, j | 0 <= i < j < |chosen|
      ensures chosen[i] != chosen[j]
    {
      assert chosen[..j][i] in Taken(chosen[..j]);
    }
    forall i | 0 <= i < |chosen|
      ensures chosen[i] != "unions"
    {
      assert "unions" in Taken(chosen[..i]);
    }
  }

  /** The map holds the chosen names under their modules. */
  ghost predicate Holds(names: map<ModulePath, string>, chosen: seq<string>, modules: seq<ModulePath>)
    requires |chosen| <= |modules|
  {
    && (forall k :: 0 <= k < |chosen| ==> modules[k] in names && names[modules[k]] == chosen[k])
    && forall m :: m in names ==> exists k :: 0 <= k < |chosen| && modules[k] == m
  }

  lemma HoldOne(names: map<ModulePath, string>, chosen: seq<string>, modules: seq<ModulePath>, name: string)
    requires |chosen| < |modules| && Distinct(modules) && Holds(names, chosen, modules)
    ensures Holds(names[modules[|chosen|] := name], chosen + [name], modules)
  {}

  lemma HoldsInjectively(names: map<ModulePath, string>, chosen: seq<string>, modules: seq<ModulePath>)
    requires Chosen(chosen, modules) && Holds(names, chosen, modules)
    ensures Injective(names) && forall m :: m in names ==> names[m] != "unions"
  {
    ChosenAreClear(chosen, modules);
  }

  /** `module_mod_names`, over the modules in their order: every module has a name; distinct modules
      have distinct names, none of them `unions`, each its own parts with as few underscores as the
      earlier ones leave; and the names taken are those and `unions`. */
  method ModNames(modules: seq<ModulePath>) returns (names: map<ModulePath, string>, used: set<string>, ghost chosen: seq<string>)
    requires Distinct(modules)
    ensures |chosen| == |modules| && Chosen(chosen, modules) && Holds(names, chosen, modules)
    ensures Injective(names) && forall m :: m in names ==> names[m] != "unions"
    ensures used == Taken(chosen)
  {
    names, used, chosen := map[], {"unions"}, [];
    for i := 0 to |modules|
      invariant |chosen| == i && Chosen(chosen, modules) && Holds(names, chosen, modules) && used == Taken(chosen)
    {
      var name := Unused(modules[i], used);
      ChooseOne(chosen, modules, name);
      HoldOne(names, chosen, modules, name);
      names := names[modules[i] := name];
      used := used + {name};
      chosen := chosen + [name];
    }
    HoldsInjectively(names, chosen, modules);
  }
}
