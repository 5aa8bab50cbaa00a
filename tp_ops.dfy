/** The structural operations on types of src/tp/mod.rs: `substitute` and
    `get_size_dependencies`, evaluated on one state of the unification-variable arena.
    Both look at every type through `view`, so a resolved variable is replaced by what
    it was resolved to. */
module TypeOps {
  import opened Wrappers
  import opened TVars
  import opened Types
  import opened UVars

  /** `t` is finite once unification variables are looked through: the recursion of the
      structural operations over `t` ends within `h` nested calls. A variable resolved to a
      type that mentions its own class (which the node-identity occurs check lets through)
      makes a type that is not finite at any height. */
  ghost predicate Finite(ns: seq<UVarData>, g: Ghosts, t: Type, h: nat)
    requires ValidState(ns, g) && Wf(t, g.numeric)
    decreases h, 0
  {
    h > 0 && FiniteBelow(ns, g, ViewIn(ns, g, t), h - 1)
  }

  /** Every child of the node `v` is finite at height `h`. */
  ghost predicate FiniteBelow(ns: seq<UVarData>, g: Ghosts, v: Type, h: nat)
    requires ValidState(ns, g) && Wf(v, g.numeric)
    decreases h, 1
  {
    match v
    case Tuple(items) => forall k :: 0 <= k < |items| ==> Finite(ns, g, items[k], h)
    case Array(_, e) => Finite(ns, g, e, h)
    case Fun(args, ret) => (forall k :: 0 <= k < |args| ==> Finite(ns, g, args[k], h)) && Finite(ns, g, ret, h)
    case Ptr(p) => Finite(ns, g, p, h)
    case MutPtr(p) => Finite(ns, g, p, h)
    case TypeApp(_, _, args) => forall k :: 0 <= k < |args| ==> Finite(ns, g, args[k], h)
    case _ => true
  }

  lemma FiniteUnfold(ns: seq<UVarData>, g: Ghosts, t: Type, h: nat)
    requires ValidState(ns, g) && Wf(t, g.numeric) && Finite(ns, g, t, h)
    ensures h > 0 && FiniteBelow(ns, g, ViewIn(ns, g, t), h - 1)
  {
  }

  ghost predicate AllFinite(ns: seq<UVarData>, g: Ghosts, ts: seq<Type>, h: nat)
    requires ValidState(ns, g) && forall k :: 0 <= k < |ts| ==> Wf(ts[k], g.numeric)
  {
    forall k :: 0 <= k < |ts| ==> Finite(ns, g, ts[k], h)
  }

  ghost predicate AllWf(ts: seq<Type>, num: seq<bool>)
  {
    forall k :: 0 <= k < |ts| ==> Wf(ts[k], num)
  }

  /** A substitution maps type-variable ids to arena types. */
  ghost predicate SubstWf(s: map<nat, Type>, num: seq<bool>)
  {
    forall id :: id in s ==> Wf(s[id], num)
  }

  /** `Type::substitute`. Where the view is a type variable with an entry in `s` the entry
      replaces it; where the view is an unknown, an open unification variable or a variable
      without an entry, the original type is kept (not its view); everything else is rebuilt
      from the substituted children of the view. */
  function Substitute(ns: seq<UVarData>, ghost g: Ghosts, t: Type, s: map<nat, Type>, ghost h: nat): (r: Type)
    requires ValidState(ns, g) && Wf(t, g.numeric) && SubstWf(s, g.numeric) && Finite(ns, g, t, h)
    ensures Wf(r, g.numeric)
    decreases h, 0
  {
    FiniteUnfold(ns, g, t, h);
    SubstituteNode(ns, g, t, ViewIn(ns, g, t), s, h - 1)
  }

  /** The match of `substitute` on `v`, the view of `t`. */
  function SubstituteNode(ns: seq<UVarData>, ghost g: Ghosts, t: Type, v: Type, s: map<nat, Type>, ghost h: nat): (r: Type)
    requires ValidState(ns, g) && Wf(t, g.numeric) && Wf(v, g.numeric) && SubstWf(s, g.numeric)
    requires FiniteBelow(ns, g, v, h)
    ensures Wf(r, g.numeric)
    ensures match v
      case Unknown => r == t
      case UVar(_) => r == t
      case NumericUVar(_) => r == t
      case Var(tv) => r == if tv.id in s then s[tv.id] else t
      case NamedVar(tv, _) => r == if tv.id in s then s[tv.id] else t
      case Tuple(items) => r.Tuple? && |r.items| == |items|
      case Array(n, _) => r.Array? && r.size == n
      case Fun(args, _) => r.Fun? && |r.args| == |args|
      case Ptr(_) => r.Ptr?
      case MutPtr(_) => r.MutPtr?
      case TypeApp(tv, name, args) => r.TypeApp? && r.tvar == tv && r.name == name && |r.args| == |args|
    decreases h, 2
  {
    match v
    case Unknown => t
    case UVar(_) => t
    case NumericUVar(_) => t
    case Var(tv) => if tv.id in s then s[tv.id] else t
    case NamedVar(tv, _) => if tv.id in s then s[tv.id] else t
    case Tuple(items) => Tuple(SubstituteAll(ns, g, items, s, h))
    case Array(n, e) => Array(n, Substitute(ns, g, e, s, h))
    case Fun(args, ret) => Fun(SubstituteAll(ns, g, args, s, h), Substitute(ns, g, ret, s, h))
    case Ptr(p) => Ptr(Substitute(ns, g, p, s, h))
    case MutPtr(p) => MutPtr(Substitute(ns, g, p, s, h))
    case TypeApp(tv, name, args) => TypeApp(tv, name, SubstituteAll(ns, g, args, s, h))
  }

  /** `items.iter().map(|tp| tp.substitute(subst)).collect()`. */
  function SubstituteAll(ns: seq<UVarData>, ghost g: Ghosts, ts: seq<Type>, s: map<nat, Type>, ghost h: nat): (r: seq<Type>)
    requires ValidState(ns, g) && AllWf(ts, g.numeric) && SubstWf(s, g.numeric) && AllFinite(ns, g, ts, h)
    ensures |r| == |ts| && AllWf(r, g.numeric)
    ensures forall k :: 0 <= k < |ts| ==> r[k] == Substitute(ns, g, ts[k], s, h)
    decreases h, 1, |ts|
  {
    if ts == [] then []
    else [Substitute(ns, g, ts[0], s, h)] + SubstituteAll(ns, g, ts[1..], s, h)
  }

  /** The type with every resolved unification variable replaced by its resolution, all
      the way down: the type that the sharing in the arena stands for. */
  ghost function Deep(ns: seq<UVarData>, g: Ghosts, t: Type, h: nat): (r: Type)
    requires ValidState(ns, g) && Wf(t, g.numeric) && Finite(ns, g, t, h)
    decreases h, 0
  {
    FiniteUnfold(ns, g, t, h);
    DeepNode(ns, g, ViewIn(ns, g, t), h - 1)
  }

  ghost function DeepNode(ns: seq<UVarData>, g: Ghosts, v: Type, h: nat): (r: Type)
    requires ValidState(ns, g) && Wf(v, g.numeric) && FiniteBelow(ns, g, v, h)
    decreases h, 2
  {
    match v
    case Tuple(items) => Tuple(DeepAll(ns, g, items, h))
    case Array(n, e) => Array(n, Deep(ns, g, e, h))
    case Fun(args, ret) => Fun(DeepAll(ns, g, args, h), Deep(ns, g, ret, h))
    case Ptr(p) => Ptr(Deep(ns, g, p, h))
    case MutPtr(p) => MutPtr(Deep(ns, g, p, h))
    case TypeApp(tv, name, args) => TypeApp(tv, name, DeepAll(ns, g, args, h))
    case _ => v
  }

  ghost function DeepAll(ns: seq<UVarData>, g: Ghosts, ts: seq<Type>, h: nat): (r: seq<Type>)
    requires ValidState(ns, g) && AllWf(ts, g.numeric) && AllFinite(ns, g, ts, h)
    decreases h, 1, |ts|
  {
    if ts == [] then [] else [Deep(ns, g, ts[0], h)] + DeepAll(ns, g, ts[1..], h)
  }

  /** Dropping the last type of a well-formed, finite list keeps it so, and the last type is too. */
  lemma AllButLast(ns: seq<UVarData>, g: Ghosts, ts: seq<Type>, h: nat)
    requires ValidState(ns, g) && AllWf(ts, g.numeric) && AllFinite(ns, g, ts, h) && ts != []
    ensures AllWf(ts[..|ts| - 1], g.numeric) && AllFinite(ns, g, ts[..|ts| - 1], h)
    ensures Wf(ts[|ts| - 1], g.numeric) && Finite(ns, g, ts[|ts| - 1], h)
  {
    var pre := ts[..|ts| - 1];
    assert forall k :: 0 <= k < |pre| ==> pre[k] == ts[k];
  }

  lemma {:induction false} DeepAllAt(ns: seq<UVarData>, g: Ghosts, ts: seq<Type>, h: nat)
    requires ValidState(ns, g) && AllWf(ts, g.numeric) && AllFinite(ns, g, ts, h)
    ensures |DeepAll(ns, g, ts, h)| == |ts|
    ensures forall k :: 0 <= k < |ts| ==> DeepAll(ns, g, ts, h)[k] == Deep(ns, g, ts[k], h)
    decreases |ts|
  {
    if ts != [] {
      DeepAllAt(ns, g, ts[1..], h);
    }
  }

  /** With no entries, `substitute` changes nothing but the sharing: the result is finite at
      the same height and denotes the same type. */
  lemma {:induction false} SubstituteEmpty(ns: seq<UVarData>, g: Ghosts, t: Type, h: nat)
    requires ValidState(ns, g) && Wf(t, g.numeric) && Finite(ns, g, t, h)
    ensures Finite(ns, g, Substitute(ns, g, t, map[], h), h)
    ensures Deep(ns, g, Substitute(ns, g, t, map[], h), h) == Deep(ns, g, t, h)
    decreases h, 0
  {
    FiniteUnfold(ns, g, t, h);
    var v := ViewIn(ns, g, t);
    var r := SubstituteNode(ns, g, t, v, map[], h - 1);
    assert Substitute(ns, g, t, map[], h) == r;
    if TopNode(v).None? && !v.Var? && !v.NamedVar? && !v.Unknown? {
      SubstituteNodeEmpty(ns, g, t, v, h - 1);
      assert ViewIn(ns, g, r) == r;
      assert Deep(ns, g, r, h) == DeepNode(ns, g, r, h - 1);
    }
  }

  lemma {:induction false} SubstituteNodeEmpty(ns: seq<UVarData>, g: Ghosts, t: Type, v: Type, h: nat)
    requires ValidState(ns, g) && Wf(t, g.numeric) && Wf(v, g.numeric) && FiniteBelow(ns, g, v, h)
    requires TopNode(v).None? && !v.Var? && !v.NamedVar? && !v.Unknown?
    ensures FiniteBelow(ns, g, SubstituteNode(ns, g, t, v, map[], h), h)
    ensures DeepNode(ns, g, SubstituteNode(ns, g, t, v, map[], h), h) == DeepNode(ns, g, v, h)
    decreases h, 2
  {
    if v.Tuple? || v.TypeApp? {
      SubstituteListNodeEmpty(ns, g, t, v, h);
    } else if v.Fun? {
      SubstituteFunEmpty(ns, g, t, v, h);
    } else {
      SubstituteWrapEmpty(ns, g, t, v, h);
    }
  }

  /** The tuple and applied-type arms of `SubstituteNodeEmpty`. */
  lemma {:induction false} SubstituteListNodeEmpty(ns: seq<UVarData>, g: Ghosts, t: Type, v: Type, h: nat)
    requires ValidState(ns, g) && Wf(t, g.numeric) && Wf(v, g.numeric) && FiniteBelow(ns, g, v, h)
    requires v.Tuple? || v.TypeApp?
    ensures FiniteBelow(ns, g, SubstituteNode(ns, g, t, v, map[], h), h)
    ensures DeepNode(ns, g, SubstituteNode(ns, g, t, v, map[], h), h) == DeepNode(ns, g, v, h)
    decreases h, 1, (if v.Tuple? then |v.items| else |v.args|) + 1
  {
    if v.Tuple? {
      SubstituteAllEmpty(ns, g, v.items, h);
    } else {
      SubstituteAllEmpty(ns, g, v.args, h);
    }
  }

  /** The function arm of `SubstituteNodeEmpty`. */
  lemma {:induction false} SubstituteFunEmpty(ns: seq<UVarData>, g: Ghosts, t: Type, v: Type, h: nat)
    requires ValidState(ns, g) && Wf(t, g.numeric) && Wf(v, g.numeric) && FiniteBelow(ns, g, v, h) && v.Fun?
    ensures FiniteBelow(ns, g, SubstituteNode(ns, g, t, v, map[], h), h)
    ensures DeepNode(ns, g, SubstituteNode(ns, g, t, v, map[], h), h) == DeepNode(ns, g, v, h)
    decreases h, 1, |v.args| + 1
  {
    SubstituteAllEmpty(ns, g, v.args, h);
    SubstituteEmpty(ns, g, v.ret, h);
  }

  /** The array and pointer arms of `SubstituteNodeEmpty`. */
  lemma {:induction false} SubstituteWrapEmpty(ns: seq<UVarData>, g: Ghosts, t: Type, v: Type, h: nat)
    requires ValidState(ns, g) && Wf(t, g.numeric) && Wf(v, g.numeric) && FiniteBelow(ns, g, v, h)
    requires v.Array? || v.Ptr? || v.MutPtr?
    ensures FiniteBelow(ns, g, SubstituteNode(ns, g, t, v, map[], h), h)
    ensures DeepNode(ns, g, SubstituteNode(ns, g, t, v, map[], h), h) == DeepNode(ns, g, v, h)
    decreases h, 1, 0
  {
    if v.Array? {
      SubstituteEmpty(ns, g, v.elem, h);
    } else {
      SubstituteEmpty(ns, g, v.pointee, h);
    }
  }

  lemma {:induction false} SubstituteAllEmpty(ns: seq<UVarData>, g: Ghosts, ts: seq<Type>, h: nat)
    requires ValidState(ns, g) && AllWf(ts, g.numeric) && AllFinite(ns, g, ts, h)
    ensures AllFinite(ns, g, SubstituteAll(ns, g, ts, map[], h), h)
    ensures DeepAll(ns, g, SubstituteAll(ns, g, ts, map[], h), h) == DeepAll(ns, g, ts, h)
    decreases h, 1, |ts|
  {
    if ts != [] {
      SubstituteEmpty(ns, g, ts[0], h);
      SubstituteAllEmpty(ns, g, ts[1..], h);
      var r := SubstituteAll(ns, g, ts, map[], h);
      assert r[1..] == SubstituteAll(ns, g, ts[1..], map[], h);
      assert r == [r[0]] + r[1..];
    }
  }

  /** `Type::get_size_dependencies`: the type variables whose size this type's size depends
      on, read off the view of `t`. */
  function SizeDependencies(ns: seq<UVarData>, ghost g: Ghosts, t: Type, ghost h: nat): (r: Panicking<set<TVar>>)
    requires ValidState(ns, g) && Wf(t, g.numeric) && Finite(ns, g, t, h)
    ensures r.Value? ==> forall tv :: tv in r.value ==> !tv.kind.Parameter?
    decreases h, 0
  {
    FiniteUnfold(ns, g, t, h);
    SizeDependenciesNode(ns, g, ViewIn(ns, g, t), h - 1)
  }

  /** The match of `get_size_dependencies` on a viewed type. Pointers and functions break the
      dependency; parameters are left out, since they are treated as unsized; an open
      unification variable panics. */
  function SizeDependenciesNode(ns: seq<UVarData>, ghost g: Ghosts, v: Type, ghost h: nat): (r: Panicking<set<TVar>>)
    requires ValidState(ns, g) && Wf(v, g.numeric) && FiniteBelow(ns, g, v, h)
    ensures r.Value? ==> forall tv :: tv in r.value ==> !tv.kind.Parameter?
    ensures match v
      case UVar(_) => r.Panic?
      case NumericUVar(_) => r.Panic?
      case Unknown => r == Value({})
      case Ptr(_) => r == Value({})
      case MutPtr(_) => r == Value({})
      case Fun(_, _) => r == Value({})
      case Var(tv) => r == Value(if tv.kind.Parameter? then {} else {tv})
      case NamedVar(tv, _) => r == Value(if tv.kind.Parameter? then {} else {tv})
      case TypeApp(tv, _, _) => r == Value(if tv.kind.Parameter? then {} else {tv})
      case Array(_, e) => r == SizeDependencies(ns, g, e, h)
      case Tuple(items) =>
        (r.Value? <==> forall k :: 0 <= k < |items| ==> SizeDependencies(ns, g, items[k], h).Value?) &&
        (r.Value? ==> forall tv :: tv in r.value <==> exists k :: 0 <= k < |items| && tv in SizeDependencies(ns, g, items[k], h).value)
    decreases h, 2
  {
    match v
    case Unknown => Value({})
    case UVar(_) => Panic("explicit panic")
    case NumericUVar(_) => Panic("explicit panic")
    case Var(tv) => if tv.kind.Parameter? then Value({}) else Value({tv})
    case NamedVar(tv, _) => if tv.kind.Parameter? then Value({}) else Value({tv})
    case TypeApp(tv, _, _) => if tv.kind.Parameter? then Value({}) else Value({tv})
    case Tuple(items) => SizeDependenciesAll(ns, g, items, h)
    case Array(_, e) => SizeDependencies(ns, g, e, h)
    case Fun(_, _) => Value({})
    case Ptr(_) => Value({})
    case MutPtr(_) => Value({})
  }

  /** The loop `set.extend(tp.get_size_dependencies())` over tuple items; the first panic ends it. */
  function SizeDependenciesAll(ns: seq<UVarData>, ghost g: Ghosts, ts: seq<Type>, ghost h: nat): (r: Panicking<set<TVar>>)
    requires ValidState(ns, g) && AllWf(ts, g.numeric) && AllFinite(ns, g, ts, h)
    ensures r.Value? <==> forall k :: 0 <= k < |ts| ==> SizeDependencies(ns, g, ts[k], h).Value?
    ensures r.Value? ==> forall tv :: tv in r.value <==> exists k :: 0 <= k < |ts| && tv in SizeDependencies(ns, g, ts[k], h).value
    decreases h, 1, |ts|
  {
    if ts == [] then Value({})
    else
      match SizeDependencies(ns, g, ts[0], h)
      case Panic(why) => Panic(why)
      case Value(d) =>
        match SizeDependenciesAll(ns, g, ts[1..], h)
        case Panic(why) => Panic(why)
        case Value(rest) =>
          assert forall k :: 1 <= k < |ts| ==> ts[k] == ts[1..][k - 1];
          Value(d + rest)
  }
}
