/** `unify` of src/tp/mod.rs: makes the actual type fit the expected one by unioning and
    resolving unification variables of the arena. */
module Unification {
  import opened Wrappers
  import opened TVars
  import opened Types
  import opened UVars

  /** The arms of the match in `unify`, in the order the source tries them. */
  datatype Arm =
    | NeverArm      // the actual type is never
    | VarArm        // two type variables of the same wrapper
    | UnionArm      // two open variables of the same flavour
    | BindExpected  // an open `UVar` expected
    | BindActual    // an open `UVar` actual
    | AppArm        // two type applications
    | ArrayArm      // two arrays
    | TupleArm      // two tuples
    | NumExpected   // an open `NumericUVar` expected, a type variable actual
    | NumActual     // a type variable expected, an open `NumericUVar` actual
    | PtrArm        // pointer to pointer, either kind of pointer into `*T`
    | FunArm        // two function types
    | NoArm         // anything else: the types do not unify

  predicate IsVarView(v: Type)
  {
    v.Var? || v.NamedVar?
  }

  /** Which arm of `unify` takes the views `v1` (expected) and `v2` (actual). */
  function ArmOf(o: TVarOracle, v1: Type, v2: Type): (arm: Arm)
    ensures arm == NeverArm <==> IsVarView(v2) && IsNever(o, v2.tvar)
  {
    if IsVarView(v2) && IsNever(o, v2.tvar) then NeverArm
    else if (v1.NamedVar? && v2.NamedVar?) || (v1.Var? && v2.Var?) then VarArm
    else if (v1.NumericUVar? && v2.NumericUVar?) || (v1.UVar? && v2.UVar?) then UnionArm
    else if v1.UVar? then BindExpected
    else if v2.UVar? then BindActual
    else if v1.TypeApp? && v2.TypeApp? then AppArm
    else if v1.Array? && v2.Array? then ArrayArm
    else if v1.Tuple? && v2.Tuple? then TupleArm
    else if v1.NumericUVar? && IsVarView(v2) then NumExpected
    else if IsVarView(v1) && v2.NumericUVar? then NumActual
    else if (v1.Ptr? && v2.Ptr?) || (v1.Ptr? && v2.MutPtr?) || (v1.MutPtr? && v2.MutPtr?) then PtrArm
    else if v1.Fun? && v2.Fun? then FunArm
    else NoArm
  }

  /** Nothing but path compression leads from the state `ns0`, `g0` to `ns1`, `g1`. */
  ghost predicate CompressedTo(ns0: seq<UVarData>, g0: Ghosts, ns1: seq<UVarData>, g1: Ghosts)
  {
    SameClasses(ns0, ns1, g1) && g1 == g0
  }

  /** Nothing but path compression happened to the arena since the state `ns0`, `g0`. */
  ghost predicate Compressed(ns0: seq<UVarData>, g0: Ghosts, a: Arena)
    reads a
  {
    CompressedTo(ns0, g0, a.nodes, a.g)
  }

  /** What every step of `unify` keeps: the invariant, the counter, the number of nodes and
      the flavour of each node. */
  ghost predicate Kept(a: Arena, counter0: nat, size0: nat, numeric0: seq<bool>)
    reads a
  {
    a.Valid() && a.counter == counter0 && |a.nodes| == size0 && a.g.numeric == numeric0
  }

  /** `match (exp_tp.view(), act_tp.view())`: the expected type is viewed first. */
  method ViewBoth(a: Arena, exp: Type, act: Type) returns (v1: Type, v2: Type)
    requires a.Valid() && Wf(exp, a.g.numeric) && Wf(act, a.g.numeric)
    modifies a
    ensures Kept(a, old(a.counter), old(|a.nodes|), old(a.g.numeric))
    ensures Compressed(old(a.nodes), old(a.g), a)
    ensures v1 == old(ViewIn(a.nodes, a.g, exp)) && v2 == old(ViewIn(a.nodes, a.g, act))
  {
    ghost var ns0 := a.nodes;
    v1 := a.View(exp);
    ghost var ns1 := a.nodes;
    v2 := a.View(act);
    SameClassesTrans(ns0, ns1, a.nodes, a.g);
    SameClassesView(ns0, ns1, a.g, act);
  }

  /** The union arm: the classes of `x` and `y` become one, rooted at `y`'s root. */
  method UnionOpen(a: Arena, x: nat, y: nat, ghost ns0: seq<UVarData>)
    requires a.Valid() && ValidState(ns0, a.g) && SameClasses(ns0, a.nodes, a.g)
    requires x < |ns0| && y < |ns0| && a.g.numeric[x] == a.g.numeric[y]
    requires !ns0[Root(ns0, a.g, x)].Resolved? && !ns0[Root(ns0, a.g, y)].Resolved?
    modifies a
    ensures Kept(a, old(a.counter), old(|a.nodes|), old(a.g.numeric))
    ensures Merged(ns0, old(a.g), x, y, a.nodes, a.g)
  {
    ghost var ns1 := a.nodes;
    ghost var g0 := a.g;
    assert Root(ns1, g0, x) == Root(ns0, g0, x) && Root(ns1, g0, y) == Root(ns0, g0, y);
    a.Union(x, y);
    forall k | 0 <= k < |a.nodes|
      ensures Root(a.nodes, a.g, k) == Relabel(Root(ns0, g0, k), Root(ns0, g0, x), Root(ns0, g0, y))
    {
      assert Root(ns1, g0, k) == Root(ns0, g0, k);
    }
    forall k | 0 <= k < |ns0| && !ns0[k].Link? && k != Root(ns0, g0, x)
      ensures a.nodes[k] == ns0[k]
    {
      assert ns1[k] == ns0[k];
    }
  }

  /** The arm `(UVar(uvar), _)` (and, with `allowed` standing for `tv.is_numeric()`, the
      numeric arms): `x` is bound to `t` unless it occurs in `t`. The occurs check runs first. */
  method Bind(a: Arena, x: nat, t: Type, allowed: bool, fuel: nat, ghost ns0: seq<UVarData>) returns (r: Option<bool>)
    requires a.Valid() && ValidState(ns0, a.g) && SameClasses(ns0, a.nodes, a.g)
    requires x < |ns0| && Wf(t, a.g.numeric)
    requires !ns0[Root(ns0, a.g, x)].Resolved? && ResolvableTo(ns0, a.g, Root(ns0, a.g, x), t)
    modifies a
    ensures Kept(a, old(a.counter), old(|a.nodes|), old(a.g.numeric))
    ensures BindSpec(ns0, old(a.g), x, t, allowed, fuel, r, a.nodes, a.g)
  {
    ghost var ns1 := a.nodes;
    var occ := a.Occurs(x, t, fuel);
    SameClassesOccurs(ns0, ns1, a.g, x, t, fuel);
    SameClassesTrans(ns0, ns1, a.nodes, a.g);
    if occ.None? {
      return None;
    }
    if occ.value || !allowed {
      return Some(false);
    }
    SameClassesView(ns0, a.nodes, a.g, t);
    assert Root(a.nodes, a.g, x) == Root(ns0, a.g, x);
    ghost var ns2, g2 := a.nodes, a.g;
    var ok := a.Resolve(x, t);
    r := Some(true);
    forall k | 0 <= k < |ns0|
      ensures Root(a.nodes, a.g, k) == Root(ns0, g2, k)
    {
      assert Root(ns2, g2, k) == Root(ns0, g2, k);
    }
    forall k | 0 <= k < |ns0| && !ns0[k].Link? && k != Root(ns0, g2, x)
      ensures a.nodes[k] == ns0[k]
    {
      assert ns2[k] == ns0[k];
    }
  }

  /** What `unify(exp, act)` does, arm by arm, to the arena state `ns0`, `g0` it started
      from and ending in the state `ns1`, `g1`, given that it did not run out of `fuel`,
      where `v1` and `v2` are the views of the expected and of the actual type on the start
      state. The arms that look inside the types start from the state the views left. */
  ghost predicate UnifyRel(o: TVarOracle, ns0: seq<UVarData>, g0: Ghosts, exp: Type, act: Type, v1: Type, v2: Type,
                           fuel: nat, r: Option<bool>, ns1: seq<UVarData>, g1: Ghosts)
    requires ValidState(ns0, g0) && Wf(exp, g0.numeric) && Wf(act, g0.numeric) && Wf(v1, g0.numeric) && Wf(v2, g0.numeric)
    requires fuel > 0
    decreases fuel, 1
  {
    match ArmOf(o, v1, v2)
    case NeverArm => r == Some(true) && CompressedTo(ns0, g0, ns1, g1)
    case VarArm => r == Some(v1.tvar.id == v2.tvar.id) && CompressedTo(ns0, g0, ns1, g1)
    case UnionArm => r == Some(true) && Merged(ns0, g0, v1.node, v2.node, ns1, g1)
    case BindExpected => BindSpec(ns0, g0, v1.node, act, true, fuel, r, ns1, g1)
    case BindActual => BindSpec(ns0, g0, v2.node, exp, true, fuel, r, ns1, g1)
    case NumExpected => BindSpec(ns0, g0, v1.node, act, IsNumeric(o, v2.tvar), fuel, r, ns1, g1)
    case NumActual => BindSpec(ns0, g0, v2.node, exp, IsNumeric(o, v1.tvar), fuel, r, ns1, g1)
    case AppArm => ShapeFrom(o, ns0, g0, v1, v2, fuel, r, ns1, g1)
    case ArrayArm => ShapeFrom(o, ns0, g0, v1, v2, fuel, r, ns1, g1)
    case TupleArm => ShapeFrom(o, ns0, g0, v1, v2, fuel, r, ns1, g1)
    case PtrArm => ShapeFrom(o, ns0, g0, v1, v2, fuel, r, ns1, g1)
    case FunArm => ShapeFrom(o, ns0, g0, v1, v2, fuel, r, ns1, g1)
    case NoArm => r == Some(false) && CompressedTo(ns0, g0, ns1, g1)
  }

  /** `UnifyRel` on the arena's state after the call. */
  ghost predicate UnifySpec(o: TVarOracle, ns0: seq<UVarData>, g0: Ghosts, exp: Type, act: Type, v1: Type, v2: Type,
                            fuel: nat, r: Option<bool>, a: Arena)
    requires ValidState(ns0, g0) && Wf(exp, g0.numeric) && Wf(act, g0.numeric) && Wf(v1, g0.numeric) && Wf(v2, g0.numeric)
    requires fuel > 0
    reads a
  {
    UnifyRel(o, ns0, g0, exp, act, v1, v2, fuel, r, a.nodes, a.g)
  }

  /** A shape arm run from some state with the classes of `ns0`: the one the views left. */
  ghost predicate ShapeFrom(o: TVarOracle, ns0: seq<UVarData>, g0: Ghosts, v1: Type, v2: Type,
                            fuel: nat, r: Option<bool>, ns1: seq<UVarData>, g1: Ghosts)
    requires ValidState(ns0, g0) && Wf(v1, g0.numeric) && Wf(v2, g0.numeric) && fuel > 0
    requires var arm := ArmOf(o, v1, v2); arm.AppArm? || arm.ArrayArm? || arm.TupleArm? || arm.PtrArm? || arm.FunArm?
    decreases fuel, 0, 1
  {
    exists nsc :: SameClasses(ns0, nsc, g0) && ValidState(nsc, g0) && ShapeRel(o, nsc, g0, v1, v2, fuel, r, ns1, g1)
  }

  /** The arms that look inside two types of the same shape, from the state `ns`, `g`:
      pointees, and array elements of equal lengths, are unified one level of fuel down;
      arrays of different lengths fail untouched; tuples, type applications and function
      types unify their lists pairwise. */
  ghost predicate ShapeRel(o: TVarOracle, ns: seq<UVarData>, g: Ghosts, v1: Type, v2: Type,
                           fuel: nat, r: Option<bool>, ns1: seq<UVarData>, g1: Ghosts)
    requires ValidState(ns, g) && Wf(v1, g.numeric) && Wf(v2, g.numeric) && fuel > 0
    requires var arm := ArmOf(o, v1, v2); arm.AppArm? || arm.ArrayArm? || arm.TupleArm? || arm.PtrArm? || arm.FunArm?
    decreases fuel, 0, 0
  {
    var arm := ArmOf(o, v1, v2);
    if arm.AppArm? then AppRel(o, ns, g, v1, v2, fuel - 1, r, ns1, g1)
    else if arm.ArrayArm? then ArrayRel(o, ns, g, v1, v2, fuel - 1, r, ns1, g1)
    else if arm.TupleArm? then UnifiesAll(o, ns, g, v1.items, v2.items, fuel - 1, r, ns1, g1)
    else if arm.PtrArm? then Unifies(o, ns, g, v1.pointee, v2.pointee, fuel - 1, r, ns1, g1)
    else FunRel(o, ns, g, v1, v2, fuel - 1, r, ns1, g1)
  }

  /** `unify(t1, t2)` run with `fuel` from the state `ns0`, `g0` ends in the state `ns1`,
      `g1` with the result `r`: with no fuel left it changes nothing and overflows (None);
      otherwise it does what `UnifyRel` says of the views of the two types. */
  ghost predicate Unifies(o: TVarOracle, ns0: seq<UVarData>, g0: Ghosts, t1: Type, t2: Type, fuel: nat,
                          r: Option<bool>, ns1: seq<UVarData>, g1: Ghosts)
    requires ValidState(ns0, g0) && Wf(t1, g0.numeric) && Wf(t2, g0.numeric)
    decreases fuel, 2
  {
    if fuel == 0 then r.None? && ns1 == ns0 && g1 == g0
    else UnifyRel(o, ns0, g0, t1, t2, ViewIn(ns0, g0, t1), ViewIn(ns0, g0, t2), fuel, r, ns1, g1)
  }

  /** `items1.iter().zip(items2.iter()).all(|(it1, it2)| unify(it1, it2))` from the state
      `ns0`, `g0`: the pairs up to the shorter list are unified in order, each from the state
      the previous one left, and the first pair that does not succeed ends the walk with its
      result. */
  ghost predicate UnifiesAll(o: TVarOracle, ns0: seq<UVarData>, g0: Ghosts, ts1: seq<Type>, ts2: seq<Type>, fuel: nat,
                             r: Option<bool>, ns1: seq<UVarData>, g1: Ghosts)
    requires ValidState(ns0, g0)
    requires forall k :: 0 <= k < |ts1| ==> Wf(ts1[k], g0.numeric)
    requires forall k :: 0 <= k < |ts2| ==> Wf(ts2[k], g0.numeric)
    decreases fuel, 3, |ts1|
  {
    if |ts1| == 0 || |ts2| == 0 then r == Some(true) && ns1 == ns0 && g1 == g0
    else
      exists nsm: seq<UVarData>, gm: Ghosts, rm: Option<bool> ::
        && ValidState(nsm, gm) && gm.numeric == g0.numeric
        && Unifies(o, ns0, g0, ts1[0], ts2[0], fuel, rm, nsm, gm)
        && (rm != Some(true) ==> r == rm && ns1 == nsm && g1 == gm)
        && (rm == Some(true) ==> UnifiesAll(o, nsm, gm, ts1[1..], ts2[1..], fuel, r, ns1, g1))
  }

  /** `b && all`, where `all` may have overflowed. */
  function Both(b: bool, all: Option<bool>): (r: Option<bool>)
    ensures r.None? <==> all.None?
    ensures r == Some(true) <==> b && all == Some(true)
  {
    if all.None? then None else Some(b && all.value)
  }

  /** Two type applications: the arguments are unified pairwise even when the constructors
      differ, and the result is `tv1 == tv2 && tps`. */
  ghost predicate AppRel(o: TVarOracle, ns: seq<UVarData>, g: Ghosts, v1: Type, v2: Type, fuel: nat,
                         r: Option<bool>, ns1: seq<UVarData>, g1: Ghosts)
    requires ValidState(ns, g) && v1.TypeApp? && v2.TypeApp? && Wf(v1, g.numeric) && Wf(v2, g.numeric)
    decreases fuel, 4
  {
    exists all :: UnifiesAll(o, ns, g, v1.args, v2.args, fuel, all, ns1, g1) && r == Both(v1.tvar.id == v2.tvar.id, all)
  }

  /** Two arrays: `s1 == s2 && unify(&tp1, &tp2)`. */
  ghost predicate ArrayRel(o: TVarOracle, ns: seq<UVarData>, g: Ghosts, v1: Type, v2: Type, fuel: nat,
                           r: Option<bool>, ns1: seq<UVarData>, g1: Ghosts)
    requires ValidState(ns, g) && v1.Array? && v2.Array? && Wf(v1, g.numeric) && Wf(v2, g.numeric)
    decreases fuel, 4
  {
    if v1.size != v2.size then r == Some(false) && ns1 == ns && g1 == g
    else Unifies(o, ns, g, v1.elem, v2.elem, fuel, r, ns1, g1)
  }

  /** Two function types: the results are unified first, then the arguments pairwise; the
      answer starts from `items1.len() != items2.len()`. */
  ghost predicate FunRel(o: TVarOracle, ns: seq<UVarData>, g: Ghosts, v1: Type, v2: Type, fuel: nat,
                         r: Option<bool>, ns1: seq<UVarData>, g1: Ghosts)
    requires ValidState(ns, g) && v1.Fun? && v2.Fun? && Wf(v1, g.numeric) && Wf(v2, g.numeric)
    decreases fuel, 4
  {
    exists nsm: seq<UVarData>, gm: Ghosts, rr: Option<bool> ::
      && ValidState(nsm, gm) && gm.numeric == g.numeric
      && Unifies(o, ns, g, v1.ret, v2.ret, fuel, rr, nsm, gm)
      && (rr.None? ==> r.None? && ns1 == nsm && g1 == gm)
      && (rr.Some? ==> exists all :: UnifiesAll(o, nsm, gm, v1.args, v2.args, fuel, all, ns1, g1)
                                     && r == Both(|v1.args| != |v2.args| && rr.value, all))
  }

  /** The classes of `x` and `y` became one, rooted at the root of `y`; no other class changed. */
  ghost predicate Merged(ns0: seq<UVarData>, g0: Ghosts, x: nat, y: nat, ns1: seq<UVarData>, g1: Ghosts)
    requires LinksOk(ns0, g0) && x < |ns0| && y < |ns0|
  {
    && |ns1| == |ns0| && LinksOk(ns1, g1)
    && (forall k :: 0 <= k < |ns1| ==>
          Root(ns1, g1, k) == Relabel(Root(ns0, g0, k), Root(ns0, g0, x), Root(ns0, g0, y)))
    && OthersKept(ns0, g0, x, ns1)
  }

  /** Every root of the state `ns0` other than the root of `x` holds what it held. */
  ghost predicate OthersKept(ns0: seq<UVarData>, g0: Ghosts, x: nat, ns1: seq<UVarData>)
    requires LinksOk(ns0, g0) && x < |ns0|
  {
    |ns1| == |ns0| &&
    forall k :: 0 <= k < |ns0| && !ns0[k].Link? && k != Root(ns0, g0, x) ==> ns1[k] == ns0[k]
  }

  /** The state `ns1`, `g1` is valid, has the classes of `ns0`, `g0`, and differs from it at
      most in what the root of `x` holds. */
  ghost predicate RootRewritten(ns0: seq<UVarData>, g0: Ghosts, x: nat, ns1: seq<UVarData>, g1: Ghosts)
    requires LinksOk(ns0, g0) && x < |ns0|
  {
    && |ns1| == |ns0| && ValidState(ns1, g1) && g1.numeric == g0.numeric
    && (forall k :: 0 <= k < |ns0| ==> Root(ns1, g1, k) == Root(ns0, g0, k))
    && OthersKept(ns0, g0, x, ns1)
  }

  /** Binding node `x` to `t`: refused when `x` occurs in `t` or the binding is not `allowed`,
      and otherwise the root of `x` is resolved to `t` and nothing else changes. */
  ghost predicate BindSpec(ns0: seq<UVarData>, g0: Ghosts, x: nat, t: Type, allowed: bool, fuel: nat, r: Option<bool>,
                           ns1: seq<UVarData>, g1: Ghosts)
    requires ValidState(ns0, g0) && x < |ns0| && Wf(t, g0.numeric)
  {
    var occ := OccursIn(ns0, g0, x, t, fuel);
    && (occ.None? ==> r.None? && CompressedTo(ns0, g0, ns1, g1))
    && (occ == Some(true) ==> r == Some(false) && CompressedTo(ns0, g0, ns1, g1))
    && (occ == Some(false) && !allowed ==> r == Some(false) && CompressedTo(ns0, g0, ns1, g1))
    && (occ == Some(false) && allowed ==>
          r == Some(true) && RootRewritten(ns0, g0, x, ns1, g1) && ns1[Root(ns0, g0, x)] == Resolved(t))
  }

  /** `unify(exp, act)`: whether `act` fits where `exp` is expected, unioning and resolving
      unification variables as it goes. `fuel` bounds the depth of nested calls; running out
      (None) stands for the stack overflow of the source on a cyclic type. */
  method Unify(a: Arena, o: TVarOracle, exp: Type, act: Type, fuel: nat) returns (r: Option<bool>)
    requires a.Valid() && Wf(exp, a.g.numeric) && Wf(act, a.g.numeric)
    modifies a
    ensures Kept(a, old(a.counter), old(|a.nodes|), old(a.g.numeric))
    ensures fuel == 0 ==> r.None? && a.nodes == old(a.nodes) && a.g == old(a.g)
    ensures Unifies(o, old(a.nodes), old(a.g), exp, act, fuel, r, a.nodes, a.g)
    decreases fuel, 0
  {
    if fuel == 0 {
      return None;
    }
    ghost var ns0 := a.nodes;
    ghost var g0 := a.g;
    var v1, v2 := ViewBoth(a, exp, act);
    var arm := ArmOf(o, v1, v2);
    if arm.AppArm? || arm.ArrayArm? || arm.TupleArm? || arm.PtrArm? || arm.FunArm? {
      r := UnifyShapes(a, o, exp, act, v1, v2, fuel, ns0, g0);
    } else {
      r := UnifyLeaves(a, o, exp, act, v1, v2, fuel, ns0, g0);
    }
  }

  /** What `Unifies` says of the arms that decide without looking inside the types: with no
      fuel it overflows, no matching arm fails, and an actual type that is never succeeds. */
  lemma UnifiesLeaves(o: TVarOracle, ns0: seq<UVarData>, g0: Ghosts, exp: Type, act: Type, fuel: nat,
                      r: Option<bool>, ns1: seq<UVarData>, g1: Ghosts)
    requires ValidState(ns0, g0) && Wf(exp, g0.numeric) && Wf(act, g0.numeric)
    requires Unifies(o, ns0, g0, exp, act, fuel, r, ns1, g1)
    ensures fuel == 0 ==> r.None?
    ensures fuel > 0 && ArmOf(o, ViewIn(ns0, g0, exp), ViewIn(ns0, g0, act)) == NoArm ==> r == Some(false)
    ensures fuel > 0 && ArmOf(o, ViewIn(ns0, g0, exp), ViewIn(ns0, g0, act)) == NeverArm ==> r == Some(true)
  {
  }

  /** The arms that do not look inside the types. */
  method UnifyLeaves(a: Arena, o: TVarOracle, exp: Type, act: Type, v1: Type, v2: Type, fuel: nat,
                     ghost ns0: seq<UVarData>, ghost g0: Ghosts) returns (r: Option<bool>)
    requires a.Valid() && ValidState(ns0, g0) && Compressed(ns0, g0, a) && fuel > 0
    requires Wf(exp, g0.numeric) && Wf(act, g0.numeric)
    requires v1 == ViewIn(ns0, g0, exp) && v2 == ViewIn(ns0, g0, act)
    requires var arm := ArmOf(o, v1, v2); !(arm.AppArm? || arm.ArrayArm? || arm.TupleArm? || arm.PtrArm? || arm.FunArm?)
    modifies a
    ensures Kept(a, old(a.counter), old(|a.nodes|), old(a.g.numeric))
    ensures UnifySpec(o, ns0, g0, exp, act, v1, v2, fuel, r, a)
  {
    var arm := ArmOf(o, v1, v2);
    if arm.NeverArm? || arm.VarArm? || arm.NoArm? || arm.UnionArm? {
      r := UnifyPlain(a, o, exp, act, v1, v2, fuel, ns0, g0);
    } else if arm.BindExpected? || arm.BindActual? {
      r := UnifyBindArm(a, o, exp, act, v1, v2, fuel, ns0, g0);
    } else {
      r := UnifyNumArm(a, o, exp, act, v1, v2, fuel, ns0, g0);
    }
  }

  /** No node occurs in a type that views as a type variable. */
  lemma OccursInVar(ns: seq<UVarData>, g: Ghosts, x: nat, t: Type, fuel: nat)
    requires ValidState(ns, g) && Wf(t, g.numeric) && fuel > 0 && IsVarView(ViewIn(ns, g, t))
    ensures OccursIn(ns, g, x, t, fuel) == Some(false)
  {
  }

  /** The arms for never, two type variables, two open variables, and no match. */
  method UnifyPlain(a: Arena, o: TVarOracle, exp: Type, act: Type, v1: Type, v2: Type, fuel: nat,
                    ghost ns0: seq<UVarData>, ghost g0: Ghosts) returns (r: Option<bool>)
    requires a.Valid() && ValidState(ns0, g0) && Compressed(ns0, g0, a) && fuel > 0
    requires Wf(exp, g0.numeric) && Wf(act, g0.numeric)
    requires v1 == ViewIn(ns0, g0, exp) && v2 == ViewIn(ns0, g0, act)
    requires var arm := ArmOf(o, v1, v2); arm.NeverArm? || arm.VarArm? || arm.NoArm? || arm.UnionArm?
    modifies a
    ensures Kept(a, old(a.counter), old(|a.nodes|), old(a.g.numeric))
    ensures UnifySpec(o, ns0, g0, exp, act, v1, v2, fuel, r, a)
  {
    var arm := ArmOf(o, v1, v2);
    if arm.UnionArm? {
      r := UnifyUnionArm(a, o, exp, act, v1, v2, fuel, ns0, g0);
    } else {
      r := PlainAnswer(o, v1, v2);
      PlainArmSpec(o, ns0, g0, exp, act, v1, v2, fuel, r, a);
    }
  }

  /** Leaving the arena's classes alone with the answer of the never, variable or no-match
      arm is what `UnifySpec` asks for. */
  lemma PlainArmSpec(o: TVarOracle, ns0: seq<UVarData>, g0: Ghosts, exp: Type, act: Type, v1: Type, v2: Type,
                     fuel: nat, r: Option<bool>, a: Arena)
    requires ValidState(ns0, g0) && Wf(exp, g0.numeric) && Wf(act, g0.numeric) && fuel > 0
    requires Wf(v1, g0.numeric) && Wf(v2, g0.numeric) && Compressed(ns0, g0, a)
    requires var arm := ArmOf(o, v1, v2); arm.NeverArm? || arm.VarArm? || arm.NoArm?
    requires r == PlainAnswer(o, v1, v2)
    ensures UnifySpec(o, ns0, g0, exp, act, v1, v2, fuel, r, a)
  {
  }

  /** The answer of the never, variable and no-match arms. */
  function PlainAnswer(o: TVarOracle, v1: Type, v2: Type): Option<bool>
    requires var arm := ArmOf(o, v1, v2); arm.NeverArm? || arm.VarArm? || arm.NoArm?
  {
    var arm := ArmOf(o, v1, v2);
    if arm.NeverArm? then Some(true) else if arm.VarArm? then Some(v1.tvar.id == v2.tvar.id) else Some(false)
  }

  /** The arm for two open variables of the same kind: their classes are merged. */
  method UnifyUnionArm(a: Arena, o: TVarOracle, exp: Type, act: Type, v1: Type, v2: Type, fuel: nat,
                       ghost ns0: seq<UVarData>, ghost g0: Ghosts) returns (r: Option<bool>)
    requires a.Valid() && ValidState(ns0, g0) && Compressed(ns0, g0, a) && fuel > 0
    requires Wf(exp, g0.numeric) && Wf(act, g0.numeric)
    requires v1 == ViewIn(ns0, g0, exp) && v2 == ViewIn(ns0, g0, act)
    requires ArmOf(o, v1, v2).UnionArm?
    modifies a
    ensures Kept(a, old(a.counter), old(|a.nodes|), old(a.g.numeric))
    ensures UnifySpec(o, ns0, g0, exp, act, v1, v2, fuel, r, a)
  {
    UnionArmShape(o, v1, v2);
    ViewOpen(ns0, g0, exp, v1);
    ViewOpen(ns0, g0, act, v2);
    UnionOpen(a, v1.node, v2.node, ns0);
    r := Some(true);
    UnionArmSpec(o, ns0, g0, exp, act, v1, v2, fuel, a);
  }

  /** The union arm is taken by two open variables of the same flavour. */
  lemma UnionArmShape(o: TVarOracle, v1: Type, v2: Type)
    requires ArmOf(o, v1, v2).UnionArm?
    ensures (v1.NumericUVar? && v2.NumericUVar?) || (v1.UVar? && v2.UVar?)
  {
  }

  /** A view that is an open variable names a node of its flavour whose class is unresolved. */
  lemma ViewOpen(ns: seq<UVarData>, g: Ghosts, t: Type, v: Type)
    requires ValidState(ns, g) && Wf(t, g.numeric) && v == ViewIn(ns, g, t) && (v.UVar? || v.NumericUVar?)
    ensures v.node < |ns| && (g.numeric[v.node] <==> v.NumericUVar?) && !ns[Root(ns, g, v.node)].Resolved?
  {
    assert TopNode(v) == Some(v.node);
    assert Wf(v, g.numeric);
  }

  /** Merging the two classes is what the union arm of `UnifySpec` asks for. */
  lemma UnionArmSpec(o: TVarOracle, ns0: seq<UVarData>, g0: Ghosts, exp: Type, act: Type, v1: Type, v2: Type,
                     fuel: nat, a: Arena)
    requires ValidState(ns0, g0) && Wf(exp, g0.numeric) && Wf(act, g0.numeric) && fuel > 0
    requires Wf(v1, g0.numeric) && Wf(v2, g0.numeric) && ArmOf(o, v1, v2).UnionArm?
    requires v1.node < |ns0| && v2.node < |ns0| && Merged(ns0, g0, v1.node, v2.node, a.nodes, a.g)
    ensures UnifySpec(o, ns0, g0, exp, act, v1, v2, fuel, Some(true), a)
  {
  }

  /** The arms binding an open `UVar` to the other side. */
  method UnifyBindArm(a: Arena, o: TVarOracle, exp: Type, act: Type, v1: Type, v2: Type, fuel: nat,
                      ghost ns0: seq<UVarData>, ghost g0: Ghosts) returns (r: Option<bool>)
    requires a.Valid() && ValidState(ns0, g0) && Compressed(ns0, g0, a) && fuel > 0
    requires Wf(exp, g0.numeric) && Wf(act, g0.numeric)
    requires v1 == ViewIn(ns0, g0, exp) && v2 == ViewIn(ns0, g0, act)
    requires var arm := ArmOf(o, v1, v2); arm.BindExpected? || arm.BindActual?
    modifies a
    ensures Kept(a, old(a.counter), old(|a.nodes|), old(a.g.numeric))
    ensures UnifySpec(o, ns0, g0, exp, act, v1, v2, fuel, r, a)
  {
    if v1.UVar? {
      r := Bind(a, v1.node, act, true, fuel, ns0);
      BindArmSpec(o, ns0, g0, exp, act, v1, v2, fuel, v1.node, act, true, r, a.nodes, a.g);
    } else {
      r := Bind(a, v2.node, exp, true, fuel, ns0);
      BindArmSpec(o, ns0, g0, exp, act, v1, v2, fuel, v2.node, exp, true, r, a.nodes, a.g);
    }
  }

  /** The arms binding an open `NumericUVar` to a type variable, allowed when it is numeric. */
  method UnifyNumArm(a: Arena, o: TVarOracle, exp: Type, act: Type, v1: Type, v2: Type, fuel: nat,
                     ghost ns0: seq<UVarData>, ghost g0: Ghosts) returns (r: Option<bool>)
    requires a.Valid() && ValidState(ns0, g0) && Compressed(ns0, g0, a) && fuel > 0
    requires Wf(exp, g0.numeric) && Wf(act, g0.numeric)
    requires v1 == ViewIn(ns0, g0, exp) && v2 == ViewIn(ns0, g0, act)
    requires var arm := ArmOf(o, v1, v2); arm.NumExpected? || arm.NumActual?
    modifies a
    ensures Kept(a, old(a.counter), old(|a.nodes|), old(a.g.numeric))
    ensures UnifySpec(o, ns0, g0, exp, act, v1, v2, fuel, r, a)
  {
    if v1.NumericUVar? {
      OccursInVar(ns0, g0, v1.node, act, fuel);
      r := Bind(a, v1.node, act, IsNumeric(o, v2.tvar), fuel, ns0);
      BindArmSpec(o, ns0, g0, exp, act, v1, v2, fuel, v1.node, act, IsNumeric(o, v2.tvar), r, a.nodes, a.g);
    } else {
      OccursInVar(ns0, g0, v2.node, exp, fuel);
      r := Bind(a, v2.node, exp, IsNumeric(o, v1.tvar), fuel, ns0);
      BindArmSpec(o, ns0, g0, exp, act, v1, v2, fuel, v2.node, exp, IsNumeric(o, v1.tvar), r, a.nodes, a.g);
    }
  }

  /** Binding the open side of a binding arm to the other side is what `UnifyRel` asks of
      that arm. */
  lemma BindArmSpec(o: TVarOracle, ns0: seq<UVarData>, g0: Ghosts, exp: Type, act: Type, v1: Type, v2: Type, fuel: nat,
                    x: nat, t: Type, allowed: bool, r: Option<bool>, ns1: seq<UVarData>, g1: Ghosts)
    requires ValidState(ns0, g0) && Wf(exp, g0.numeric) && Wf(act, g0.numeric) && Wf(v1, g0.numeric) && Wf(v2, g0.numeric)
    requires fuel > 0 && x < |ns0| && Wf(t, g0.numeric)
    requires var arm := ArmOf(o, v1, v2);
      || (arm.BindExpected? && x == v1.node && t == act && allowed)
      || (arm.BindActual? && x == v2.node && t == exp && allowed)
      || (arm.NumExpected? && x == v1.node && t == act && allowed == IsNumeric(o, v2.tvar))
      || (arm.NumActual? && x == v2.node && t == exp && allowed == IsNumeric(o, v1.tvar))
    requires BindSpec(ns0, g0, x, t, allowed, fuel, r, ns1, g1)
    ensures UnifyRel(o, ns0, g0, exp, act, v1, v2, fuel, r, ns1, g1)
  {
  }

  /** The arms that unify the components of two types of the same shape. */
  method UnifyShapes(a: Arena, o: TVarOracle, exp: Type, act: Type, v1: Type, v2: Type, fuel: nat,
                     ghost ns0: seq<UVarData>, ghost g0: Ghosts) returns (r: Option<bool>)
    requires a.Valid() && ValidState(ns0, g0) && Compressed(ns0, g0, a) && fuel > 0
    requires Wf(exp, g0.numeric) && Wf(act, g0.numeric) && Wf(v1, g0.numeric) && Wf(v2, g0.numeric)
    requires var arm := ArmOf(o, v1, v2); arm.AppArm? || arm.ArrayArm? || arm.TupleArm? || arm.PtrArm? || arm.FunArm?
    modifies a
    ensures Kept(a, old(a.counter), old(|a.nodes|), old(a.g.numeric))
    ensures UnifySpec(o, ns0, g0, exp, act, v1, v2, fuel, r, a)
    decreases fuel - 1, 5
  {
    ghost var nsc := a.nodes;
    var arm := ArmOf(o, v1, v2);
    if arm.AppArm? {
      r := UnifyAppArm(a, o, v1, v2, fuel);
    } else if arm.ArrayArm? {
      r := UnifyArrayArm(a, o, v1, v2, fuel);
    } else if arm.TupleArm? {
      r := UnifyTupleArm(a, o, v1, v2, fuel);
    } else if arm.PtrArm? {
      r := UnifyPtrArm(a, o, v1, v2, fuel);
    } else {
      r := UnifyFunArm(a, o, v1, v2, fuel);
    }
    ShapeSpec(o, ns0, g0, exp, act, v1, v2, fuel, r, nsc, a.nodes, a.g);
  }

  /** The arm for two type applications. */
  method UnifyAppArm(a: Arena, o: TVarOracle, v1: Type, v2: Type, fuel: nat) returns (r: Option<bool>)
    requires a.Valid() && Wf(v1, a.g.numeric) && Wf(v2, a.g.numeric) && fuel > 0 && ArmOf(o, v1, v2).AppArm?
    modifies a
    ensures Kept(a, old(a.counter), old(|a.nodes|), old(a.g.numeric))
    ensures ShapeRel(o, old(a.nodes), old(a.g), v1, v2, fuel, r, a.nodes, a.g)
    decreases fuel - 1, 3
  {
    ghost var ns, g := a.nodes, a.g;
    r := UnifyApps(a, o, v1, v2, fuel - 1);
    AppShape(o, ns, g, v1, v2, fuel, r, a.nodes, a.g);
  }

  /** The arm for two arrays. */
  method UnifyArrayArm(a: Arena, o: TVarOracle, v1: Type, v2: Type, fuel: nat) returns (r: Option<bool>)
    requires a.Valid() && Wf(v1, a.g.numeric) && Wf(v2, a.g.numeric) && fuel > 0 && ArmOf(o, v1, v2).ArrayArm?
    modifies a
    ensures Kept(a, old(a.counter), old(|a.nodes|), old(a.g.numeric))
    ensures ShapeRel(o, old(a.nodes), old(a.g), v1, v2, fuel, r, a.nodes, a.g)
    decreases fuel - 1, 3
  {
    ghost var ns, g := a.nodes, a.g;
    r := UnifyArrays(a, o, v1, v2, fuel - 1);
    ArrayShape(o, ns, g, v1, v2, fuel, r, a.nodes, a.g);
  }

  /** The arm for two tuples. */
  method UnifyTupleArm(a: Arena, o: TVarOracle, v1: Type, v2: Type, fuel: nat) returns (r: Option<bool>)
    requires a.Valid() && Wf(v1, a.g.numeric) && Wf(v2, a.g.numeric) && fuel > 0 && ArmOf(o, v1, v2).TupleArm?
    modifies a
    ensures Kept(a, old(a.counter), old(|a.nodes|), old(a.g.numeric))
    ensures ShapeRel(o, old(a.nodes), old(a.g), v1, v2, fuel, r, a.nodes, a.g)
    decreases fuel - 1, 3
  {
    ghost var ns, g := a.nodes, a.g;
    r := UnifyAll(a, o, v1.items, v2.items, fuel - 1);
    TupleShape(o, ns, g, v1, v2, fuel, r, a.nodes, a.g);
  }

  /** The arm for two pointers. */
  method UnifyPtrArm(a: Arena, o: TVarOracle, v1: Type, v2: Type, fuel: nat) returns (r: Option<bool>)
    requires a.Valid() && Wf(v1, a.g.numeric) && Wf(v2, a.g.numeric) && fuel > 0 && ArmOf(o, v1, v2).PtrArm?
    modifies a
    ensures Kept(a, old(a.counter), old(|a.nodes|), old(a.g.numeric))
    ensures ShapeRel(o, old(a.nodes), old(a.g), v1, v2, fuel, r, a.nodes, a.g)
    decreases fuel - 1, 3
  {
    ghost var ns, g := a.nodes, a.g;
    PtrArmOf(o, v1, v2, a.g.numeric);
    r := UnifyPtrs(a, o, v1, v2, fuel - 1);
    PtrShape(o, ns, g, v1, v2, fuel, r, a.nodes, a.g);
  }

  /** The arm for two function types. */
  method UnifyFunArm(a: Arena, o: TVarOracle, v1: Type, v2: Type, fuel: nat) returns (r: Option<bool>)
    requires a.Valid() && Wf(v1, a.g.numeric) && Wf(v2, a.g.numeric) && fuel > 0 && ArmOf(o, v1, v2).FunArm?
    modifies a
    ensures Kept(a, old(a.counter), old(|a.nodes|), old(a.g.numeric))
    ensures ShapeRel(o, old(a.nodes), old(a.g), v1, v2, fuel, r, a.nodes, a.g)
    decreases fuel - 1, 3
  {
    ghost var ns, g := a.nodes, a.g;
    r := UnifyFuns(a, o, v1, v2, fuel - 1);
    FunShape(o, ns, g, v1, v2, fuel, r, a.nodes, a.g);
  }

  /** A shape arm run from a state with the classes of the start state is what `UnifyRel`
      asks of that arm. */
  lemma ShapeSpec(o: TVarOracle, ns0: seq<UVarData>, g0: Ghosts, exp: Type, act: Type, v1: Type, v2: Type,
                  fuel: nat, r: Option<bool>, nsc: seq<UVarData>, ns1: seq<UVarData>, g1: Ghosts)
    requires ValidState(ns0, g0) && Wf(exp, g0.numeric) && Wf(act, g0.numeric) && Wf(v1, g0.numeric) && Wf(v2, g0.numeric)
    requires fuel > 0 && SameClasses(ns0, nsc, g0) && ValidState(nsc, g0)
    requires var arm := ArmOf(o, v1, v2); arm.AppArm? || arm.ArrayArm? || arm.TupleArm? || arm.PtrArm? || arm.FunArm?
    requires ShapeRel(o, nsc, g0, v1, v2, fuel, r, ns1, g1)
    ensures UnifyRel(o, ns0, g0, exp, act, v1, v2, fuel, r, ns1, g1)
  {
    assert ShapeFrom(o, ns0, g0, v1, v2, fuel, r, ns1, g1);
  }

  /** `AppRel` one level of fuel down is the type-application arm. */
  lemma AppShape(o: TVarOracle, ns: seq<UVarData>, g: Ghosts, v1: Type, v2: Type, fuel: nat,
                 r: Option<bool>, ns1: seq<UVarData>, g1: Ghosts)
    requires ValidState(ns, g) && Wf(v1, g.numeric) && Wf(v2, g.numeric) && fuel > 0 && ArmOf(o, v1, v2).AppArm?
    requires AppRel(o, ns, g, v1, v2, fuel - 1, r, ns1, g1)
    ensures ShapeRel(o, ns, g, v1, v2, fuel, r, ns1, g1)
  {
  }

  /** `ArrayRel` one level of fuel down is the array arm. */
  lemma ArrayShape(o: TVarOracle, ns: seq<UVarData>, g: Ghosts, v1: Type, v2: Type, fuel: nat,
                 r: Option<bool>, ns1: seq<UVarData>, g1: Ghosts)
    requires ValidState(ns, g) && Wf(v1, g.numeric) && Wf(v2, g.numeric) && fuel > 0 && ArmOf(o, v1, v2).ArrayArm?
    requires ArrayRel(o, ns, g, v1, v2, fuel - 1, r, ns1, g1)
    ensures ShapeRel(o, ns, g, v1, v2, fuel, r, ns1, g1)
  {
  }

  /** Unifying the items pairwise is the tuple arm. */
  lemma TupleShape(o: TVarOracle, ns: seq<UVarData>, g: Ghosts, v1: Type, v2: Type, fuel: nat,
                 r: Option<bool>, ns1: seq<UVarData>, g1: Ghosts)
    requires ValidState(ns, g) && Wf(v1, g.numeric) && Wf(v2, g.numeric) && fuel > 0 && ArmOf(o, v1, v2).TupleArm?
    requires UnifiesAll(o, ns, g, v1.items, v2.items, fuel - 1, r, ns1, g1)
    ensures ShapeRel(o, ns, g, v1, v2, fuel, r, ns1, g1)
  {
  }

  /** The pointer arm is taken by two pointers. */
  lemma PtrArmOf(o: TVarOracle, v1: Type, v2: Type, numeric: seq<bool>)
    requires ArmOf(o, v1, v2).PtrArm? && Wf(v1, numeric) && Wf(v2, numeric)
    ensures (v1.Ptr? || v1.MutPtr?) && (v2.Ptr? || v2.MutPtr?)
    ensures Wf(v1.pointee, numeric) && Wf(v2.pointee, numeric)
  {
  }

  /** Unifying the pointees is the pointer arm. */
  lemma PtrShape(o: TVarOracle, ns: seq<UVarData>, g: Ghosts, v1: Type, v2: Type, fuel: nat,
                 r: Option<bool>, ns1: seq<UVarData>, g1: Ghosts)
    requires ValidState(ns, g) && Wf(v1, g.numeric) && Wf(v2, g.numeric) && fuel > 0 && ArmOf(o, v1, v2).PtrArm?
    requires Unifies(o, ns, g, v1.pointee, v2.pointee, fuel - 1, r, ns1, g1)
    ensures ShapeRel(o, ns, g, v1, v2, fuel, r, ns1, g1)
  {
  }

  /** `FunRel` one level of fuel down is the function arm. */
  lemma FunShape(o: TVarOracle, ns: seq<UVarData>, g: Ghosts, v1: Type, v2: Type, fuel: nat,
                 r: Option<bool>, ns1: seq<UVarData>, g1: Ghosts)
    requires ValidState(ns, g) && Wf(v1, g.numeric) && Wf(v2, g.numeric) && fuel > 0 && ArmOf(o, v1, v2).FunArm?
    requires FunRel(o, ns, g, v1, v2, fuel - 1, r, ns1, g1)
    ensures ShapeRel(o, ns, g, v1, v2, fuel, r, ns1, g1)
  {
  }

  /** `let ret = tv1 == tv2; let tps = …all(…); ret && tps`: the arguments are unified even
      when the constructors differ. */
  method UnifyApps(a: Arena, o: TVarOracle, v1: Type, v2: Type, fuel: nat) returns (r: Option<bool>)
    requires a.Valid() && v1.TypeApp? && v2.TypeApp? && Wf(v1, a.g.numeric) && Wf(v2, a.g.numeric)
    modifies a
    ensures Kept(a, old(a.counter), old(|a.nodes|), old(a.g.numeric))
    ensures r == Some(true) ==> v1.tvar.id == v2.tvar.id
    ensures AppRel(o, old(a.nodes), old(a.g), v1, v2, fuel, r, a.nodes, a.g)
    decreases fuel, 2
  {
    var same := v1.tvar.id == v2.tvar.id;
    var all := UnifyAll(a, o, v1.args, v2.args, fuel);
    r := Both(same, all);
  }

  /** `s1 == s2 && unify(&tp1, &tp2)`: the elements are unified only when the lengths agree. */
  method UnifyArrays(a: Arena, o: TVarOracle, v1: Type, v2: Type, fuel: nat) returns (r: Option<bool>)
    requires a.Valid() && v1.Array? && v2.Array? && Wf(v1, a.g.numeric) && Wf(v2, a.g.numeric)
    modifies a
    ensures Kept(a, old(a.counter), old(|a.nodes|), old(a.g.numeric))
    ensures v1.size != v2.size ==> r == Some(false) && a.nodes == old(a.nodes) && a.g == old(a.g)
    ensures ArrayRel(o, old(a.nodes), old(a.g), v1, v2, fuel, r, a.nodes, a.g)
    decreases fuel, 2
  {
    if v1.size != v2.size {
      r := Some(false);
    } else {
      r := Unify(a, o, v1.elem, v2.elem, fuel);
    }
  }

  /** `*T` expects `*T` or `*mut T`; `*mut T` expects `*mut T`: the pointees are unified. */
  method UnifyPtrs(a: Arena, o: TVarOracle, v1: Type, v2: Type, fuel: nat) returns (r: Option<bool>)
    requires a.Valid() && (v1.Ptr? || v1.MutPtr?) && (v2.Ptr? || v2.MutPtr?)
    requires Wf(v1, a.g.numeric) && Wf(v2, a.g.numeric)
    modifies a
    ensures Kept(a, old(a.counter), old(|a.nodes|), old(a.g.numeric))
    ensures Unifies(o, old(a.nodes), old(a.g), v1.pointee, v2.pointee, fuel, r, a.nodes, a.g)
    decreases fuel, 2
  {
    r := Unify(a, o, v1.pointee, v2.pointee, fuel);
  }

  /** The function arm starts from `items1.len() != items2.len()`, so two function types of
      the same arity never unify; the results and then the arguments are unified anyway. */
  method UnifyFuns(a: Arena, o: TVarOracle, v1: Type, v2: Type, fuel: nat) returns (r: Option<bool>)
    requires a.Valid() && v1.Fun? && v2.Fun? && Wf(v1, a.g.numeric) && Wf(v2, a.g.numeric)
    modifies a
    ensures Kept(a, old(a.counter), old(|a.nodes|), old(a.g.numeric))
    ensures |v1.args| == |v2.args| ==> r != Some(true)
    ensures FunRel(o, old(a.nodes), old(a.g), v1, v2, fuel, r, a.nodes, a.g)
    decreases fuel, 2
  {
    ghost var ns0, g0 := a.nodes, a.g;
    var ret := |v1.args| != |v2.args|;
    var rr := Unify(a, o, v1.ret, v2.ret, fuel);
    ghost var nsm, gm := a.nodes, a.g;
    assert Unifies(o, ns0, g0, v1.ret, v2.ret, fuel, rr, nsm, gm);
    if rr.None? {
      return None;
    }
    if !rr.value {
      ret := false;
    }
    var all := UnifyAll(a, o, v1.args, v2.args, fuel);
    r := Both(ret, all);
  }

  /** `items1.iter().zip(items2.iter()).all(|(it1, it2)| unify(it1, it2))`: pairs up to the
      shorter list, in order, stopping at the first pair that does not succeed. */
  method UnifyAll(a: Arena, o: TVarOracle, ts1: seq<Type>, ts2: seq<Type>, fuel: nat) returns (r: Option<bool>)
    requires a.Valid()
    requires forall k :: 0 <= k < |ts1| ==> Wf(ts1[k], a.g.numeric)
    requires forall k :: 0 <= k < |ts2| ==> Wf(ts2[k], a.g.numeric)
    modifies a
    ensures Kept(a, old(a.counter), old(|a.nodes|), old(a.g.numeric))
    ensures (|ts1| == 0 || |ts2| == 0) ==> r == Some(true) && a.nodes == old(a.nodes) && a.g == old(a.g)
    ensures UnifiesAll(o, old(a.nodes), old(a.g), ts1, ts2, fuel, r, a.nodes, a.g)
    decreases fuel, 1, |ts1|
  {
    if |ts1| == 0 || |ts2| == 0 {
      return Some(true);
    }
    ghost var ns0, g0 := a.nodes, a.g;
    var ok := Unify(a, o, ts1[0], ts2[0], fuel);
    ghost var nsm, gm := a.nodes, a.g;
    assert Unifies(o, ns0, g0, ts1[0], ts2[0], fuel, ok, nsm, gm);
    if ok != Some(true) {
      r := ok;
    } else {
      r := UnifyAll(a, o, ts1[1..], ts2[1..], fuel);
    }
  }
}
