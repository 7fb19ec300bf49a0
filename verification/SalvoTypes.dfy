/** The checker's types, the declaration tables, and the type graph they span. */
module SalvoTypes {
  import opened Basics

  /** The name a type is known by: a name std fixes, or a declaration's key. A key is the written
      name, with the module for every declaration but std's first of the name (`module` empty). */
  datatype TypeName =
    | Byte | Int | Long | Float | Double | Char | Bool | Str | NoneName | Addr | Pool
    | List | Deque | Map | SortedMap | Set | SortedSet
    | Key(written: string, mod: string)

  /** A qualifier is kept by name alone: no function modelled here reads its arguments. */
  datatype Qual = Mut | OtherQual(name: string)

  datatype Ty =
    | Named(name: TypeName, args: seq<Ty>)
    | FnName
    | ValueRef
    | ConstArg
    | Lit
    | Qualified(quals: seq<Qual>, base: Ty)
    | Union(arms: seq<Ty>)
    | Tuple(elems: seq<Ty>)
    | ArrayOf(elem: Ty)
    | Fn
    | Var
    | Any
    | Never
    | Unknown

  datatype Field = Field(name: string, ty: Ty, canbeMut: bool)

  /** `written` is the name in the declaration; generic parameters are names with no module. */
  datatype StructDecl = StructDecl(written: string, generics: seq<TypeName>, fields: seq<Field>)

  datatype IntrinsicDecl = IntrinsicDecl(platform: bool, linear: bool, canbeMut: bool)

  datatype Symbols = Symbols(
    structs: map<TypeName, StructDecl>,
    aliases: map<TypeName, Ty>,
    intrinsics: map<TypeName, IntrinsicDecl>)

  /** The names that are immutable by themselves. */
  predicate IsScalar(n: TypeName) {
    n.Byte? || n.Int? || n.Long? || n.Float? || n.Double? || n.Char? || n.Bool? || n.Str? || n.NoneName? || n.Addr? || n.Pool?
  }

  predicate IsMap(n: TypeName) {
    n.Map? || n.SortedMap?
  }

  predicate IsKeyed(n: TypeName) {
    n.Map? || n.SortedMap? || n.Set? || n.SortedSet?
  }

  predicate IsPlatform(sym: Symbols, name: TypeName) {
    name in sym.intrinsics && sym.intrinsics[name].platform
  }

  /** The names a recursion over declarations can still enter. */
  function DeclNames(sym: Symbols): set<TypeName> {
    sym.structs.Keys + sym.aliases.Keys
  }

  /** The key a plain written name is the spelling of. */
  function PlainKey(written: string): TypeName {
    Key(written, "")
  }

  /** Two keys written alike. */
  predicate SamePlain(a: TypeName, b: TypeName) {
    if a.Key? && b.Key? then a.written == b.written else a == b
  }

  /** One declaration per key. */
  ghost predicate WellFormed(sym: Symbols) {
    && (forall n :: n in sym.structs ==>
         n.Key? && n !in sym.aliases && n !in sym.intrinsics && sym.structs[n].written == n.written)
    && (forall n :: n in sym.aliases ==> n.Key? && n !in sym.intrinsics)
  }

  /** The containers are platform types and the scalars, `Str` apart, are not: as std has them. */
  ghost predicate StdTypes(sym: Symbols) {
    && IsPlatform(sym, List) && IsPlatform(sym, Deque)
    && forall n :: IsScalar(n) && IsPlatform(sym, n) ==> n == Str
  }

  predicate DistinctFields(s: StructDecl) {
    forall i, j :: 0 <= i < j < |s.fields| ==> s.fields[i].name != s.fields[j].name
  }

  /** What copying relies on of the tables. */
  ghost predicate CopyTables(sym: Symbols) {
    WellFormed(sym) && StdTypes(sym) && forall k :: k in sym.structs ==> DistinctFields(sym.structs[k])
  }

  // ---- qualifiers

  function Quals(ty: Ty): seq<Qual> {
    if ty.Qualified? then ty.quals else []
  }

  function StripQuals(ty: Ty): Ty {
    if ty.Qualified? then ty.base else ty
  }

  predicate HasMut(ty: Ty) {
    Mut in Quals(ty)
  }

  function Qualify(ty: Ty, quals: seq<Qual>): Ty {
    if quals == [] then ty
    else if ty.Qualified? then Qualified(ty.quals + quals, ty.base)
    else Qualified(quals, ty)
  }

  // ---- written types, under a generic substitution

  function Zip(generics: seq<TypeName>, args: seq<Ty>): map<TypeName, Ty> {
    if generics == [] || args == [] then map[]
    else map[generics[0] := args[0]] + Zip(generics[1..], args[1..])
  }

  /** A written type under `subst`: only a bare, argument-free name is replaced. */
  function Approx(t: Ty, subst: map<TypeName, Ty>): Ty {
    match t
    case Named(n, args) =>
      if args == [] && n in subst then subst[n]
      else Named(n, seq(|args|, i requires 0 <= i < |args| => Approx(args[i], subst)))
    case Qualified(quals, Named(n, args)) =>
      Qualify(Named(n, seq(|args|, i requires 0 <= i < |args| => Approx(args[i], subst))), quals)
    case Qualified(quals, base) => Qualify(Approx(base, subst), quals)
    case Union(arms) => Union(seq(|arms|, i requires 0 <= i < |arms| => Approx(arms[i], subst)))
    case Tuple(elems) => Tuple(seq(|elems|, i requires 0 <= i < |elems| => Approx(elems[i], subst)))
    case ArrayOf(elem) => ArrayOf(Approx(elem, subst))
    case _ => t
  }

  function AliasTarget(sym: Symbols, name: TypeName): Ty
    requires name in sym.aliases
  {
    Approx(sym.aliases[name], map[])
  }

  /** The type of field `i` in a plain value of the struct at `args`. */
  function PlainFieldTy(decl: StructDecl, args: seq<Ty>, i: nat): Ty
    requires i < |decl.fields|
  {
    Approx(decl.fields[i].ty, Zip(decl.generics, args))
  }

  /** The type of field `i` as the value has it: a `canbe Mut` field is `Mut` in a `Mut` struct. */
  function FieldTy(decl: StructDecl, args: seq<Ty>, isMut: bool, i: nat): Ty
    requires i < |decl.fields|
  {
    var t := PlainFieldTy(decl, args, i);
    if decl.fields[i].canbeMut && isMut then Qualify(t, [Mut]) else t
  }

  // ---- the type graph

  /** A name that the analysis expands to a declaration. */
  predicate IsDecl(sym: Symbols, ty: Ty) {
    ty.Named? && !IsScalar(ty.name) && !IsPlatform(sym, ty.name) && ty.name in DeclNames(sym)
  }

  predicate IsStruct(sym: Symbols, ty: Ty) {
    ty.Named? && ty.name in sym.structs
  }

  /** What a value of `ty` is directly made of. */
  function Parts(sym: Symbols, ty: Ty): seq<Ty> {
    match ty
    case Qualified(_, base) => [base]
    case Union(arms) => arms
    case Tuple(elems) => elems
    case ArrayOf(elem) => [elem]
    case Named(n, args) =>
      if IsScalar(n) then []
      else if IsPlatform(sym, n) then args
      else if n in sym.aliases then [AliasTarget(sym, n)]
      else if n in sym.structs then
        var s := sym.structs[n];
        seq(|s.fields|, i requires 0 <= i < |s.fields| => PlainFieldTy(s, args, i))
      else []
    case _ => []
  }

  /** A type whose values some operation may write, or about which nothing is known. */
  predicate MutableLeaf(sym: Symbols, ty: Ty) {
    match ty
    case Qualified(quals, _) => Mut in quals
    case ArrayOf(_) => true
    case Var => true
    case Any => true
    case Never => true
    case Unknown => true
    case Named(n, _) =>
      !IsScalar(n) && if IsPlatform(sym, n) then n == Deque else n !in DeclNames(sym)
    case _ => false
  }

  /** One step of a walk: from a type to one of its parts. */
  predicate StepAt(sym: Symbols, p: seq<Ty>, i: int)
    requires 0 < i < |p|
  {
    p[i] in Parts(sym, p[i - 1])
  }

  /** A walk through the type graph, from its first type to its last. */
  ghost predicate IsPath(sym: Symbols, p: seq<Ty>) {
    |p| > 0 && forall i :: 0 < i < |p| ==> StepAt(sym, p, i)
  }

  ghost predicate PathFrom(sym: Symbols, a: Ty, b: Ty, p: seq<Ty>) {
    IsPath(sym, p) && p[0] == a && p[|p| - 1] == b
  }

  ghost predicate Reaches(sym: Symbols, a: Ty, b: Ty) {
    exists p :: PathFrom(sym, a, b, p)
  }

  ghost predicate ReachesMutable(sym: Symbols, ty: Ty) {
    exists leaf :: Reaches(sym, ty, leaf) && MutableLeaf(sym, leaf)
  }

  lemma ReachesSelf(sym: Symbols, a: Ty)
    ensures Reaches(sym, a, a)
  {
    assert PathFrom(sym, a, a, [a]);
  }

  /** A stretch of a walk is a walk. */
  lemma Subwalk(sym: Symbols, p: seq<Ty>, i: nat, j: nat)
    requires IsPath(sym, p) && i <= j < |p|
    ensures PathFrom(sym, p[i], p[j], p[i..j + 1]) && Reaches(sym, p[i], p[j])
  {
    var q := p[i..j + 1];
    forall k | 0 < k < |q|
      ensures StepAt(sym, q, k)
    {
      assert StepAt(sym, p, i + k);
    }
    assert PathFrom(sym, p[i], p[j], q);
  }

  lemma ReachesPart(sym: Symbols, a: Ty, b: Ty)
    requires b in Parts(sym, a)
    ensures Reaches(sym, a, b)
  {
    assert PathFrom(sym, a, b, [a, b]);
  }

  /** A step of two sequences joined at a shared element is a step of one of them. */
  lemma JoinedStep<T>(p: seq<T>, q: seq<T>, i: nat)
    requires p != [] && q != [] && p[|p| - 1] == q[0] && 0 < i < |p + q[1..]|
    ensures i < |p| ==> (p + q[1..])[i - 1] == p[i - 1] && (p + q[1..])[i] == p[i]
    ensures i >= |p| ==> (p + q[1..])[i - 1] == q[i - |p|] && (p + q[1..])[i] == q[i - |p| + 1]
  {}

  lemma ReachesTransitive(sym: Symbols, a: Ty, b: Ty, c: Ty)
    requires Reaches(sym, a, b) && Reaches(sym, b, c)
    ensures Reaches(sym, a, c)
  {
    var p :| PathFrom(sym, a, b, p);
    var q :| PathFrom(sym, b, c, q);
    var r := p + q[1..];
    forall i | 0 < i < |r|
      ensures StepAt(sym, r, i)
    {
      JoinedStep(p, q, i);
      if i < |p| { assert StepAt(sym, p, i); } else { assert StepAt(sym, q, i - |p| + 1); }
    }
    assert PathFrom(sym, a, c, r);
  }

  /** Types that expand to the same declaration in the same way. */
  predicate SameExpansion(sym: Symbols, a: Ty, b: Ty) {
    IsDecl(sym, a) && IsDecl(sym, b) && a.name == b.name
    && (a.name in sym.structs ==> sym.structs[a.name].generics == [] || a.args == b.args)
  }

  /** A declaration met again below itself is met at the same arguments: always so when no
      struct is generic, and the regular recursion of a generic one. */
  ghost predicate Regular(sym: Symbols, ty: Ty) {
    forall a, b :: Reaches(sym, ty, a) && Reaches(sym, a, b) && IsDecl(sym, a) && IsDecl(sym, b) && a.name == b.name ==>
      SameExpansion(sym, a, b)
  }

  /** No struct reached from `ty` is generic. */
  ghost predicate NonGenericBelow(sym: Symbols, ty: Ty) {
    forall a :: Reaches(sym, ty, a) && IsStruct(sym, a) ==> sym.structs[a.name].generics == []
  }

  lemma NonGenericIsRegular(sym: Symbols, ty: Ty)
    requires NonGenericBelow(sym, ty)
    ensures Regular(sym, ty)
  {
  }

  lemma RegularBelow(sym: Symbols, ty: Ty, below: Ty)
    requires Regular(sym, ty) && Reaches(sym, ty, below)
    ensures Regular(sym, below)
  {
    forall a, b | Reaches(sym, below, a) && Reaches(sym, a, b) && IsDecl(sym, a) && IsDecl(sym, b) && a.name == b.name
      ensures SameExpansion(sym, a, b)
    {
      ReachesTransitive(sym, ty, below, a);
    }
  }

  lemma SameExpansionSameParts(sym: Symbols, a: Ty, b: Ty)
    requires WellFormed(sym) && SameExpansion(sym, a, b)
    ensures Parts(sym, a) == Parts(sym, b)
  {
    if a.name in sym.structs && sym.structs[a.name].generics == [] {
      var s := sym.structs[a.name];
      forall i | 0 <= i < |s.fields|
        ensures PlainFieldTy(s, a.args, i) == PlainFieldTy(s, b.args, i)
      {
      }
    }
  }
}
