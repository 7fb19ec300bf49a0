/** What following only the type inside a parenthesised group leaves out of the closure. */
module AbiGroups {
  import opened Basics
  import opened AbiKeys
  import opened AbiClosure

  /** A key stands somewhere in a type as it is written, qualifier arguments of groups included. */
  ghost predicate Written(t: Type, n: Name) {
    match t
    case Named(qualifiers, base) =>
      || base.key == n
      || (exists i :: 0 <= i < |base.args| && Written(base.args[i], n))
      || (exists i, j :: 0 <= i < |qualifiers| && 0 <= j < |qualifiers[i].args| && Written(qualifiers[i].args[j], n))
    case Group(qualifiers, inner) =>
      || Written(inner, n)
      || (exists i, j :: 0 <= i < |qualifiers| && 0 <= j < |qualifiers[i].args| && Written(qualifiers[i].args[j], n))
    case Arms(elems) => exists i :: 0 <= i < |elems| && Written(elems[i], n)
    case Of(elem) => Written(elem, n)
    case Function(params, ret) => Written(ret, n) || exists i :: 0 <= i < |params| && Written(params[i], n)
    case Literal => false
  }

  /** A key stands in an argument of some group's qualifier. */
  ghost predicate InGroupArgs(t: Type, n: Name) {
    match t
    case Named(qualifiers, base) =>
      || (exists i :: 0 <= i < |base.args| && InGroupArgs(base.args[i], n))
      || (exists i, j :: 0 <= i < |qualifiers| && 0 <= j < |qualifiers[i].args| && InGroupArgs(qualifiers[i].args[j], n))
    case Group(qualifiers, inner) =>
      || InGroupArgs(inner, n)
      || (exists i, j :: 0 <= i < |qualifiers| && 0 <= j < |qualifiers[i].args| && Written(qualifiers[i].args[j], n))
    case Arms(elems) => exists i :: 0 <= i < |elems| && InGroupArgs(elems[i], n)
    case Of(elem) => InGroupArgs(elem, n)
    case Function(params, ret) => InGroupArgs(ret, n) || exists i :: 0 <= i < |params| && InGroupArgs(params[i], n)
    case Literal => false
  }

  /** The keys a type's walk misses are those written in group arguments and nowhere else. */
  lemma {:induction false} MissedExactly(t: Type, n: Name)
    ensures Written(t, n) <==> Mentions(t, n) || InGroupArgs(t, n)
  {
    match t {
      case Named(qualifiers, base) =>
        forall i | 0 <= i < |base.args| { MissedExactly(base.args[i], n); }
        forall i, j | 0 <= i < |qualifiers| && 0 <= j < |qualifiers[i].args| { MissedExactly(qualifiers[i].args[j], n); }
      case Group(_, inner) => MissedExactly(inner, n);
      case Arms(elems) => forall i | 0 <= i < |elems| { MissedExactly(elems[i], n); }
      case Of(elem) => MissedExactly(elem, n);
      case Function(params, ret) =>
        MissedExactly(ret, n);
        forall i | 0 <= i < |params| { MissedExactly(params[i], n); }
      case Literal =>
    }
  }

  /** A platform function taking `Q<S> (...)`: `S` is written in its signature, and not reached. */
  lemma GroupArgumentIsMissed(q: Name, s: Name)
    ensures var table := Table(map[s := []], map[], map[]);
      var written := Group([Ref(q, [Type.Named([], Ref(s, []))])], Literal);
      && Written(written, s) && s in Known(table)
      && !Reached(table, [PlatformFn(Signature([written], None))], s)
  {
    var table := Table(map[s := []], map[], map[]);
    var arg := Type.Named([], Ref(s, []));
    var qualifiers := [Ref(q, [arg])];
    var written := Group(qualifiers, Literal);
    var seeds := [PlatformFn(Signature([written], None))];
    assert qualifiers[0].args[0] == arg && Written(arg, s);
    forall n
      ensures !Seeded(seeds, n)
    {
      assert !Mentions(written, n);
    }
    assert Closed(table, seeds, {}) ;
    if Reached(table, seeds, s) { ReachedAreInside(table, seeds, s, {}); }
  }
}
