/** The bidirectional type checker (src/typecheck/mod.rs): `check_expr` checks a resolved
    expression against an expected type, unifying as it goes and reporting mismatches, and
    builds the typed expression; `tr_func` checks one function and `translate` every one. */
module Typecheck {
  import opened Wrappers
  import opened Common
  import opened NodeIds
  import opened TVars
  import opened Types
  import opened UVars
  import opened Unification
  import opened SymInfos
  import opened SymTables
  import opened TypecheckEnv
  import R = ResolvedAst
  import T = TypedAst

  /** Why checking stops: the panics the source reaches. */
  datatype Halt =
    | Unreachable      // `env.lookup` of a name no scope binds
    | NeverCoerces     // `return` where the expected type does not unify with never
    | NotEnumParent    // an enum constructor whose parent is not an enum
    | NoScope          // `add_var` with no scope left
    | UnwrapNone       // `find_sym_info` or `find_type_info` of a missing entry
    | Todo             // an arm or an error constructor left to `todo!()`
    | StackOverflow    // unification ran out of depth: the overflow of the source on a cyclic type

  /** The message each panic prints. */
  function Message(h: Halt): string
  {
    match h
    case Unreachable => "internal error: entered unreachable code"
    case NeverCoerces => "internal error: entered unreachable code: never always coerces"
    case NotEnumParent => "internal error: entered unreachable code: parent of an enum cons is enum"
    case NoScope => "there should be at least one scope"
    case UnwrapNone => "called `Option::unwrap()` on a `None` value"
    case Todo => "not yet implemented"
    case StackOverflow => "stack overflow"
  }

  /** What checking yields: `check_expr` and `tr_func` never return `Err` (every `?` passes an
      `Ok` on), so a result is either the value or a panic. */
  datatype Checked<T> = Done(value: T) | Halted(why: Halt)

  // ---- Types without unification variables ----------------------------------------------

  /** `t` mentions no unification variable: what the resolver produces. */
  ghost predicate Closed(t: Type)
  {
    match t
    case UVar(_) => false
    case NumericUVar(_) => false
    case Tuple(items) => forall k :: 0 <= k < |items| ==> Closed(items[k])
    case Array(_, e) => Closed(e)
    case Fun(args, ret) => (forall k :: 0 <= k < |args| ==> Closed(args[k])) && Closed(ret)
    case Ptr(p) => Closed(p)
    case MutPtr(p) => Closed(p)
    case TypeApp(_, _, args) => forall k :: 0 <= k < |args| ==> Closed(args[k])
    case _ => true
  }

  /** A type without unification variables is well formed over any arena. */
  lemma {:induction false} ClosedWf(t: Type, num: seq<bool>)
    requires Closed(t)
    ensures Wf(t, num)
  {
    match t
    case Tuple(items) =>
      forall k | 0 <= k < |items| ensures Wf(items[k], num) { ClosedWf(items[k], num); }
    case Array(_, e) => ClosedWf(e, num);
    case Fun(args, ret) =>
      forall k | 0 <= k < |args| ensures Wf(args[k], num) { ClosedWf(args[k], num); }
      ClosedWf(ret, num);
    case Ptr(p) => ClosedWf(p, num);
    case MutPtr(p) => ClosedWf(p, num);
    case TypeApp(_, _, args) =>
      forall k | 0 <= k < |args| ensures Wf(args[k], num) { ClosedWf(args[k], num); }
    case _ =>
  }

  /** Every type annotation of a `let` inside `e` is closed. */
  ghost predicate AnnotsClosed(e: R.Expr)
  {
    match e
    case Tuple(items, _) => forall k :: 0 <= k < |items| ==> AnnotsClosed(items[k])
    case FunCall(callee, args, _) => AnnotsClosed(callee) && forall k :: 0 <= k < |args| ==> AnnotsClosed(args[k])
    case FieldAccess(inner, _, _) => AnnotsClosed(inner)
    case Block(stmts, last, _) => (forall k :: 0 <= k < |stmts| ==> AnnotsClosed(stmts[k])) && AnnotsClosed(last)
    case Return(value, _) => AnnotsClosed(value)
    case Let(_, _, tp, init, _) => (tp.Some? ==> Closed(tp.value)) && AnnotsClosed(init)
    case Ref(inner, _) => AnnotsClosed(inner)
    case RefMut(inner, _) => AnnotsClosed(inner)
    case Deref(inner, _) => AnnotsClosed(inner)
    case If(c, t, f, _) => AnnotsClosed(c) && AnnotsClosed(t) && AnnotsClosed(f)
    case Assign(l, r, _) => AnnotsClosed(l) && AnnotsClosed(r)
    case _ => true
  }

  /** The types the symbol table hands to the checker are closed. */
  ghost predicate SymsClosed(st: SymTable)
  {
    && (forall id :: id in st.nodeMap ==> KindClosed(st.nodeMap[id].kind))
    && (forall tv :: tv in st.tvarMap && st.tvarMap[tv].kind.StructKind? ==>
          forall f :: f in st.tvarMap[tv].kind.fields ==> Closed(st.tvarMap[tv].kind.fields[f]))
  }

  ghost predicate KindClosed(k: SymKind)
  {
    match k
    case FuncSym(args, ret) => (forall i :: 0 <= i < |args| ==> Closed(args[i])) && Closed(ret)
    case EnumConsSym(args, _) => forall i :: 0 <= i < |args| ==> Closed(args[i])
    case _ => true
  }

  // ---- What every step keeps ---------------------------------------------------------------

  lemma WfGrow(t: Type, n0: seq<bool>, n1: seq<bool>)
    requires Wf(t, n0) && n0 <= n1
    ensures Wf(t, n1)
  {
    assert n1 == n0 + n1[|n0|..];
    WfExtend(t, n0, n1[|n0|..]);
  }

  lemma ScopesWfGrow(scopes: seq<Scope>, n0: seq<bool>, n1: seq<bool>)
    requires ScopesWf(scopes, n0) && n0 <= n1
    ensures ScopesWf(scopes, n1)
  {
    forall i, x | 0 <= i < |scopes| && x in scopes[i] ensures Wf(scopes[i][x].1, n1) {
      WfGrow(scopes[i][x].1, n0, n1);
    }
  }

  lemma PrefixTrans<X>(x: seq<X>, y: seq<X>, z: seq<X>)
    requires x <= y && y <= z
    ensures x <= z
  {
    assert z[..|x|] == y[..|x|];
  }

  /** The binding found by a lookup is well formed when every scope is. */
  lemma {:induction false} LookupWf(scopes: seq<Scope>, name: string, num: seq<bool>)
    requires ScopesWf(scopes, num) && LookupIn(scopes, name).Some?
    ensures Wf(LookupIn(scopes, name).value.1, num)
    decreases |scopes|
  {
    var last := |scopes| - 1;
    if name !in scopes[last] {
      var pre := scopes[..last];
      assert forall i, x :: 0 <= i < |pre| && x in pre[i] ==> pre[i][x] == scopes[i][x];
      LookupWf(pre, name, num);
    }
  }

  lemma ScopesWfBound(scopes: seq<Scope>, name: string, b: (bool, Type), num: seq<bool>)
    requires ScopesWf(scopes, num) && scopes != [] && Wf(b.1, num)
    ensures ScopesWf(Bound(scopes, name, b), num)
  {
  }

  lemma ScopesWfPush(scopes: seq<Scope>, num: seq<bool>)
    requires ScopesWf(scopes, num)
    ensures ScopesWf(scopes + [map[]], num)
  {
  }

  lemma ScopesWfPrefix(scopes: seq<Scope>, n: nat, num: seq<bool>)
    requires ScopesWf(scopes, num) && n <= |scopes|
    ensures ScopesWf(scopes[..n], num)
  {
  }

  // ---- Unify, then report ------------------------------------------------------------------

  /** `unify(exp, act)` led the arena from `ns0`, `g0` to `ns1`, `g1` with the result `u`, and
      the diagnostics from `d0` to `d1` by one type mismatch at `pos` exactly when it failed. */
  ghost predicate UnifiedFrom(o: TVarOracle, ns0: seq<UVarData>, g0: Ghosts, d0: seq<Diagnostic>, exp: Type, act: Type,
                              fuel: nat, pos: Position, u: Option<bool>, ns1: seq<UVarData>, g1: Ghosts, d1: seq<Diagnostic>)
  {
    && ValidState(ns0, g0) && Wf(exp, g0.numeric) && Wf(act, g0.numeric)
    && Unifies(o, ns0, g0, exp, act, fuel, u, ns1, g1)
    && d1 == d0 + (if u == Some(false) then [Diagnostic(TypeMismatch, pos)] else [])
  }

  /** The last step that led to the arena `ns1`, `g1` and the diagnostics `d1` unified `exp`
      with `act`, overflowing exactly when `overflow` holds, and reported a mismatch at `pos`
      exactly when it failed. */
  ghost predicate EndsUnifying(o: TVarOracle, exp: Type, act: Type, fuel: nat, pos: Position, overflow: bool,
                               ns1: seq<UVarData>, g1: Ghosts, d1: seq<Diagnostic>)
  {
    exists ns0: seq<UVarData>, g0: Ghosts, d0: seq<Diagnostic>, u: Option<bool> ::
      (overflow <==> u.None?) && UnifiedFrom(o, ns0, g0, d0, exp, act, fuel, pos, u, ns1, g1, d1)
  }

  /** A step `UnifiedFrom` describes ends unifying. */
  lemma EndsIntro(o: TVarOracle, ns0: seq<UVarData>, g0: Ghosts, d0: seq<Diagnostic>, exp: Type, act: Type,
                  fuel: nat, pos: Position, u: Option<bool>, ns1: seq<UVarData>, g1: Ghosts, d1: seq<Diagnostic>)
    requires UnifiedFrom(o, ns0, g0, d0, exp, act, fuel, pos, u, ns1, g1, d1)
    ensures EndsUnifying(o, exp, act, fuel, pos, u.None?, ns1, g1, d1)
  {
  }

  /** `if !unify(exp_tp, tp) { ctx.report(type_mismatch(pos, …)) }`: `u` is what `unify`
      returned (None when it overflowed), and a mismatch is reported exactly when it failed. */
  method Expect(ctx: Context, a: Arena, o: TVarOracle, exp: Type, act: Type, pos: Position, fuel: nat)
    returns (u: Option<bool>)
    requires a.Valid() && Wf(exp, a.g.numeric) && Wf(act, a.g.numeric)
    modifies ctx, a
    ensures Kept(a, old(a.counter), old(|a.nodes|), old(a.g.numeric))
    ensures ctx.diagnostics == old(ctx.diagnostics) + (if u == Some(false) then [Diagnostic(TypeMismatch, pos)] else [])
    ensures EndsUnifying(o, exp, act, fuel, pos, u.None?, a.nodes, a.g, ctx.diagnostics)
    ensures fuel == 0 ==> u.None?
    ensures fuel > 0 && ArmOf(o, old(ViewIn(a.nodes, a.g, exp)), old(ViewIn(a.nodes, a.g, act))) == NoArm ==> u == Some(false)
    ensures fuel > 0 && ArmOf(o, old(ViewIn(a.nodes, a.g, exp)), old(ViewIn(a.nodes, a.g, act))) == NeverArm ==> u == Some(true)
  {
    ghost var ns0, g0, d0 := a.nodes, a.g, ctx.diagnostics;
    u := Unified(ctx, a, o, exp, act, pos, fuel);
    UnifiesLeaves(o, ns0, g0, exp, act, fuel, u, a.nodes, a.g);
    EndsIntro(o, ns0, g0, d0, exp, act, fuel, pos, u, a.nodes, a.g, ctx.diagnostics);
  }

  /** `Expect` for callers that only need its outcome: a mismatch is reported exactly when
      `unify` failed. */
  method Unified(ctx: Context, a: Arena, o: TVarOracle, exp: Type, act: Type, pos: Position, fuel: nat)
    returns (u: Option<bool>)
    requires a.Valid() && Wf(exp, a.g.numeric) && Wf(act, a.g.numeric)
    modifies ctx, a
    ensures Kept(a, old(a.counter), old(|a.nodes|), old(a.g.numeric))
    ensures UnifiedFrom(o, old(a.nodes), old(a.g), old(ctx.diagnostics), exp, act, fuel, pos, u, a.nodes, a.g, ctx.diagnostics)
  {
    ghost var ns0, g0, d0 := a.nodes, a.g, ctx.diagnostics;
    u := Unify(a, o, exp, act, fuel);
    ghost var ns1, g1 := a.nodes, a.g;
    if u == Some(false) {
      ctx.Report(Diagnostic(TypeMismatch, pos));
    }
    assert a.nodes == ns1 && a.g == g1;
    UnifiedFromIntro(o, ns0, g0, d0, exp, act, fuel, pos, u, ns1, g1, ctx.diagnostics);
  }

  /** The two facts `UnifiedFrom` bundles give it. */
  lemma UnifiedFromIntro(o: TVarOracle, ns0: seq<UVarData>, g0: Ghosts, d0: seq<Diagnostic>, exp: Type, act: Type,
                         fuel: nat, pos: Position, u: Option<bool>, ns1: seq<UVarData>, g1: Ghosts, d1: seq<Diagnostic>)
    requires ValidState(ns0, g0) && Wf(exp, g0.numeric) && Wf(act, g0.numeric)
    requires Unifies(o, ns0, g0, exp, act, fuel, u, ns1, g1)
    requires d1 == d0 + (if u == Some(false) then [Diagnostic(TypeMismatch, pos)] else [])
    ensures UnifiedFrom(o, ns0, g0, d0, exp, act, fuel, pos, u, ns1, g1, d1)
  {
  }

  // ---- check_expr ------------------------------------------------------------------------

  /** The `expected_mutable` report of reading a local. */
  function MutReport(expMut: bool, isMut: bool, pos: Position): (d: seq<Diagnostic>)
    ensures d != [] <==> expMut && !isMut
    ensures d != [] ==> d == [Diagnostic(ExpectedMutable, pos)]
  {
    if expMut && !isMut then [Diagnostic(ExpectedMutable, pos)] else []
  }

  /** Growing diagnostics and nodes in two steps grows them. */
  lemma GrewTrans(ctx: Context, env: TypecheckEnv.Env, a: Arena, d0: seq<Diagnostic>, n0: seq<bool>,
                  d1: seq<Diagnostic>, n1: seq<bool>, ret0: Type, u0: seq<(Type, Position)>)
    requires Grew(ctx, env, a, d1, n1, ret0, u0) && d0 <= d1 && n0 <= n1
    ensures Grew(ctx, env, a, d0, n0, ret0, u0)
  {
    assert ctx.diagnostics[..|d0|] == d1[..|d0|];
    assert a.g.numeric[..|n0|] == n1[..|n0|];
  }

  /** A fresh plain variable keeps everything the checker holds well formed. */
  lemma FreshKeeps(env: TypecheckEnv.Env, a: Arena, n0: seq<bool>, ts: seq<Type>)
    requires n0 <= a.g.numeric && ScopesWf(env.scopes, n0) && Wf(env.expectedRet, n0)
    requires forall k :: 0 <= k < |ts| ==> Wf(ts[k], n0)
    ensures ScopesWf(env.scopes, a.g.numeric) && Wf(env.expectedRet, a.g.numeric)
    ensures forall k :: 0 <= k < |ts| ==> Wf(ts[k], a.g.numeric)
  {
    ScopesWfGrow(env.scopes, n0, a.g.numeric);
    WfGrow(env.expectedRet, n0, a.g.numeric);
    forall k | 0 <= k < |ts| ensures Wf(ts[k], a.g.numeric) { WfGrow(ts[k], n0, a.g.numeric); }
  }

  /** A fresh plain unification variable (`Type::fresh_uvar`), not recorded in the
      environment; the state stays grown from `d0` and `n0` and the types `ts` well formed. */
  method Fresh(ctx: Context, env: TypecheckEnv.Env, a: Arena, ghost d0: seq<Diagnostic>, ghost n0: seq<bool>, ghost ts: seq<Type>) returns (t: Type)
    requires Grew(ctx, env, a, d0, n0, env.expectedRet, env.uvars)
    requires forall k :: 0 <= k < |ts| ==> Wf(ts[k], a.g.numeric)
    modifies a
    ensures Grew(ctx, env, a, d0, n0, env.expectedRet, env.uvars)
    ensures forall k :: 0 <= k < |ts| ==> Wf(ts[k], a.g.numeric)
    ensures t == UVar(old(|a.nodes|)) && Wf(t, a.g.numeric) && a.g.numeric == old(a.g.numeric) + [false]
  {
    ghost var n1 := a.g.numeric;
    var x := a.New(false);
    t := UVar(x);
    FreshKeeps(env, a, n1, ts);
    PrefixTrans(n0, n1, a.g.numeric);
  }

  /** `check_expr` on a sub-expression, from a state grown from diagnostics `d0` and node
      flavours `n0`: it stays grown from them, and the types `ts` stay well formed. */
  method Sub(ctx: Context, st: SymTable, env: TypecheckEnv.Env, a: Arena, o: TVarOracle, e: R.Expr, exp: Type, expMut: bool, fuel: nat, ghost d0: seq<Diagnostic>, ghost n0: seq<bool>, ghost ts: seq<Type>) returns (r: Checked<T.TExpr>)
    requires Grew(ctx, env, a, d0, n0, env.expectedRet, env.uvars) && AnnotsClosed(e) && SymsClosed(st)
    requires forall k :: 0 <= k < |ts| ==> Wf(ts[k], a.g.numeric)
    modifies ctx, env, a
    requires Wf(exp, a.g.numeric)
    ensures Grew(ctx, env, a, d0, n0, old(env.expectedRet), old(env.uvars))
    ensures forall k :: 0 <= k < |ts| ==> Wf(ts[k], a.g.numeric)
    ensures r.Done? ==> ScopesOuter(old(env.scopes), env.scopes)
    ensures IsNever(o, Never().tvar) ==> r != Halted(NeverCoerces)
    decreases e, 7
  {
    ghost var d1, n1 := ctx.diagnostics, a.g.numeric;
    r := CheckExpr(ctx, st, env, a, o, e, exp, expMut, fuel);
    GrewTrans(ctx, env, a, d0, n0, d1, n1, old(env.expectedRet), old(env.uvars));
    forall k | 0 <= k < |ts| ensures Wf(ts[k], a.g.numeric) { WfGrow(ts[k], n1, a.g.numeric); }
  }

  /** The last step of most arms: the expected type is unified with the arm's type `act`
      (a mismatch is reported), and the arm yields `v` unless unification overflowed. */
  method Conclude(ctx: Context, env: TypecheckEnv.Env, a: Arena, o: TVarOracle, exp: Type, act: Type, pos: Position,
                  fuel: nat, v: T.TExpr, ghost d0: seq<Diagnostic>, ghost n0: seq<bool>) returns (r: Checked<T.TExpr>)
    requires Grew(ctx, env, a, d0, n0, env.expectedRet, env.uvars) && Wf(exp, a.g.numeric) && Wf(act, a.g.numeric)
    modifies ctx, a
    ensures Grew(ctx, env, a, d0, n0, env.expectedRet, env.uvars)
    ensures r == Done(v) || r == Halted(StackOverflow)
    ensures ctx.diagnostics == old(ctx.diagnostics) || ctx.diagnostics == old(ctx.diagnostics) + [Diagnostic(TypeMismatch, pos)]
    ensures r.Done? ==> EndsUnifying(o, exp, act, fuel, pos, false, a.nodes, a.g, ctx.diagnostics)
    ensures r.Halted? ==> EndsUnifying(o, exp, act, fuel, pos, true, a.nodes, a.g, ctx.diagnostics)
  {
    ghost var d1, ns1, g1 := ctx.diagnostics, a.nodes, a.g;
    var u := Unified(ctx, a, o, exp, act, pos, fuel);
    EndsIntro(o, ns1, g1, d1, exp, act, fuel, pos, u, a.nodes, a.g, ctx.diagnostics);
    GrewTrans(ctx, env, a, d0, n0, d1, a.g.numeric, env.expectedRet, env.uvars);
    r := if u.None? then Halted(StackOverflow) else Done(v);
  }

  /** The expressions `check_expr` leaves to `todo!()`. */
  predicate TodoExpr(e: R.Expr)
  {
    || e.Str? || e.MethodCall? || e.StructCons? || e.Error? || e.IndexAccess? || e.Match?
    || e.While? || e.Cast? || e.ArrayInitExact? || e.ArrayInitRepeat? || e.Char?
  }

  /** `check_expr`: checks `e` against the expected type `exp`; `expMut` asks for a mutable
      place. Variables and literals here; the dispatch goes on, by kind of expression,
      through `CheckCompound`, `CheckControl`, `CheckBinding` and `CheckPlace`. */
  method CheckExpr(ctx: Context, st: SymTable, env: TypecheckEnv.Env, a: Arena, o: TVarOracle, e: R.Expr, exp: Type, expMut: bool, fuel: nat) returns (r: Checked<T.TExpr>)
    requires Ready(env, a, exp) && AnnotsClosed(e) && SymsClosed(st)
    modifies ctx, env, a
    ensures Grew(ctx, env, a, old(ctx.diagnostics), old(a.g.numeric), old(env.expectedRet), old(env.uvars))
    ensures r.Done? ==> ScopesOuter(old(env.scopes), env.scopes)
    ensures IsNever(o, Never().tvar) ==> r != Halted(NeverCoerces)
    ensures TodoExpr(e) ==> r == Halted(Todo)
    decreases e, 6
  {
    if e.Var? && e.sym.LocalRef? {
      r := CheckLocal(ctx, env, a, o, e.sym.name, e.pos, exp, expMut, fuel);
    } else if e.Var? {
      r := CheckGlobal(ctx, st, env, a, o, e.sym.id, e.pos, exp, fuel);
    } else if e.NumLit? {
      r := CheckNumLit(ctx, env, a, o, e.n, e.pos, exp, fuel);
    } else {
      r := CheckCompound(ctx, st, env, a, o, e, exp, expMut, fuel);
    }
  }

  /** Tuples, calls and field access. */
  method CheckCompound(ctx: Context, st: SymTable, env: TypecheckEnv.Env, a: Arena, o: TVarOracle, e: R.Expr, exp: Type, expMut: bool, fuel: nat) returns (r: Checked<T.TExpr>)
    requires Ready(env, a, exp) && AnnotsClosed(e) && SymsClosed(st)
    modifies ctx, env, a
    ensures Grew(ctx, env, a, old(ctx.diagnostics), old(a.g.numeric), old(env.expectedRet), old(env.uvars))
    ensures r.Done? ==> ScopesOuter(old(env.scopes), env.scopes)
    ensures IsNever(o, Never().tvar) ==> r != Halted(NeverCoerces)
    ensures TodoExpr(e) ==> r == Halted(Todo)
    decreases e, 5
  {
    if e.Tuple? {
      r := CheckTuple(ctx, st, env, a, o, e, expMut, fuel);
    } else if e.FunCall? {
      r := CheckCall(ctx, st, env, a, o, e, exp, fuel);
    } else if e.FieldAccess? {
      r := CheckField(ctx, st, env, a, o, e, exp, expMut, fuel);
    } else {
      r := CheckControl(ctx, st, env, a, o, e, exp, expMut, fuel);
    }
  }

  /** `return`, blocks and `if`. */
  method CheckControl(ctx: Context, st: SymTable, env: TypecheckEnv.Env, a: Arena, o: TVarOracle, e: R.Expr, exp: Type, expMut: bool, fuel: nat) returns (r: Checked<T.TExpr>)
    requires Ready(env, a, exp) && AnnotsClosed(e) && SymsClosed(st)
    modifies ctx, env, a
    ensures Grew(ctx, env, a, old(ctx.diagnostics), old(a.g.numeric), old(env.expectedRet), old(env.uvars))
    ensures r.Done? ==> ScopesOuter(old(env.scopes), env.scopes)
    ensures IsNever(o, Never().tvar) ==> r != Halted(NeverCoerces)
    ensures TodoExpr(e) ==> r == Halted(Todo)
    decreases e, 4
  {
    if e.Return? {
      r := CheckReturn(ctx, st, env, a, o, e, exp, fuel);
    } else if e.Block? {
      r := CheckBlock(ctx, st, env, a, o, e, exp, expMut, fuel);
    } else if e.If? {
      r := CheckIf(ctx, st, env, a, o, e, exp, expMut, fuel);
    } else {
      r := CheckBinding(ctx, st, env, a, o, e, exp, expMut, fuel);
    }
  }

  /** `let` and assignment. */
  method CheckBinding(ctx: Context, st: SymTable, env: TypecheckEnv.Env, a: Arena, o: TVarOracle, e: R.Expr, exp: Type, expMut: bool, fuel: nat) returns (r: Checked<T.TExpr>)
    requires Ready(env, a, exp) && AnnotsClosed(e) && SymsClosed(st)
    modifies ctx, env, a
    ensures Grew(ctx, env, a, old(ctx.diagnostics), old(a.g.numeric), old(env.expectedRet), old(env.uvars))
    ensures r.Done? ==> ScopesOuter(old(env.scopes), env.scopes)
    ensures IsNever(o, Never().tvar) ==> r != Halted(NeverCoerces)
    ensures TodoExpr(e) ==> r == Halted(Todo)
    decreases e, 3
  {
    if e.Let? {
      r := CheckLet(ctx, st, env, a, o, e, exp, fuel);
    } else if e.Assign? {
      r := CheckAssign(ctx, st, env, a, o, e, exp, fuel);
    } else {
      r := CheckPlace(ctx, st, env, a, o, e, exp, expMut, fuel);
    }
  }

  /** References and dereference; every other expression (strings, method calls, struct
      construction, indexing, `match`, `while`, casts, array initialisers, characters) is
      `todo!()`. */
  method CheckPlace(ctx: Context, st: SymTable, env: TypecheckEnv.Env, a: Arena, o: TVarOracle, e: R.Expr, exp: Type, expMut: bool, fuel: nat) returns (r: Checked<T.TExpr>)
    requires Ready(env, a, exp) && AnnotsClosed(e) && SymsClosed(st)
    modifies ctx, env, a
    ensures Grew(ctx, env, a, old(ctx.diagnostics), old(a.g.numeric), old(env.expectedRet), old(env.uvars))
    ensures r.Done? ==> ScopesOuter(old(env.scopes), env.scopes)
    ensures IsNever(o, Never().tvar) ==> r != Halted(NeverCoerces)
    ensures TodoExpr(e) ==> r == Halted(Todo)
    decreases e, 2
  {
    if e.Ref? || e.RefMut? {
      r := CheckRef(ctx, st, env, a, o, e, exp, fuel);
    } else if e.Deref? {
      r := CheckDeref(ctx, st, env, a, o, e, exp, expMut, fuel);
    } else {
      r := Halted(Todo);
    }
  }

  /** A local variable: `expected_mutable` when a mutable place is expected of an immutable
      binding, then the expected type is unified with the binding's type. A name no scope
      binds is unreachable. */
  method CheckLocal(ctx: Context, env: TypecheckEnv.Env, a: Arena, o: TVarOracle, name: string, pos: Position,
                    exp: Type, expMut: bool, fuel: nat) returns (r: Checked<T.TExpr>)
    requires Ready(env, a, exp)
    modifies ctx, a
    ensures Grew(ctx, env, a, old(ctx.diagnostics), old(a.g.numeric), old(env.expectedRet), old(env.uvars))
    ensures a.g.numeric == old(a.g.numeric) && |a.nodes| == old(|a.nodes|)
    ensures LookupIn(env.scopes, name).None? ==> r == Halted(Unreachable) && ctx.diagnostics == old(ctx.diagnostics)
    ensures LookupIn(env.scopes, name).Some? ==>
      var (m, t) := LookupIn(env.scopes, name).value;
      && (r.Done? || r == Halted(StackOverflow)) && (fuel == 0 ==> !r.Done?)
      && (r.Done? ==> r.value == T.LocalVar(name, t))
      && (r.Done? ==> EndsUnifying(o, exp, t, fuel, pos, false, a.nodes, a.g, ctx.diagnostics))
      && (ctx.diagnostics == old(ctx.diagnostics) + MutReport(expMut, m, pos) ||
          ctx.diagnostics == old(ctx.diagnostics) + MutReport(expMut, m, pos) + [Diagnostic(TypeMismatch, pos)])
      && (fuel > 0 && Wf(t, old(a.g.numeric)) &&
          ArmOf(o, old(ViewIn(a.nodes, a.g, exp)), old(ViewIn(a.nodes, a.g, t))) == NoArm ==>
            ctx.diagnostics == old(ctx.diagnostics) + MutReport(expMut, m, pos) + [Diagnostic(TypeMismatch, pos)])
      && (fuel > 0 && Wf(t, old(a.g.numeric)) &&
          ArmOf(o, old(ViewIn(a.nodes, a.g, exp)), old(ViewIn(a.nodes, a.g, t))) == NeverArm ==>
            ctx.diagnostics == old(ctx.diagnostics) + MutReport(expMut, m, pos))
  {
    var found := env.Lookup(name);
    if found.Panic? {
      return Halted(Unreachable);
    }
    var (m, t) := found.value;
    LookupWf(env.scopes, name, a.g.numeric);
    ghost var d0 := ctx.diagnostics;
    if expMut && !m {
      ctx.Report(Diagnostic(ExpectedMutable, pos));
    }
    assert ctx.diagnostics == d0 + MutReport(expMut, m, pos);
    var u := Expect(ctx, a, o, exp, t, pos, fuel);
    if u.None? {
      return Halted(StackOverflow);
    }
    r := Done(T.LocalVar(name, t));
  }

  /** The type of the constructor `id` of the enum `parent`: the enum itself, or a function
      to it when the constructor takes arguments. */
  function ConsType(args: seq<Type>, parent: SymInfo): (t: Type)
    requires parent.kind.EnumSym?
    ensures args == [] ==> t == NamedVar(parent.kind.tvar, parent.name)
    ensures args != [] ==> t == Fun(args, NamedVar(parent.kind.tvar, parent.name))
  {
    var tp := NamedVar(parent.kind.tvar, parent.name);
    if args == [] then tp else Fun(args, tp)
  }

  /** A global symbol (`find_sym_info` unwraps): a function has its signature's type; an enum
      constructor the type `ConsType` of its parent enum; other kinds are `todo!()`. */
  method CheckGlobal(ctx: Context, st: SymTable, env: TypecheckEnv.Env, a: Arena, o: TVarOracle, id: NodeID, pos: Position,
                     exp: Type, fuel: nat) returns (r: Checked<T.TExpr>)
    requires Ready(env, a, exp)
    modifies ctx, a
    ensures Grew(ctx, env, a, old(ctx.diagnostics), old(a.g.numeric), old(env.expectedRet), old(env.uvars))
    requires SymsClosed(st)
    ensures a.g.numeric == old(a.g.numeric) && |a.nodes| == old(|a.nodes|)
    ensures ctx.diagnostics == old(ctx.diagnostics) || ctx.diagnostics == old(ctx.diagnostics) + [Diagnostic(TypeMismatch, pos)]
    ensures r.Halted? ==> r.why in {UnwrapNone, NotEnumParent, Todo, StackOverflow}
    ensures id !in st.nodeMap ==> r == Halted(UnwrapNone)
    ensures id in st.nodeMap && st.nodeMap[id].kind.FuncSym? ==>
      (r.Done? || r == Halted(StackOverflow)) &&
      (r.Done? ==> r.value == T.GlobalVar(id, Fun(st.nodeMap[id].kind.args, st.nodeMap[id].kind.ret)))
    ensures id in st.nodeMap && st.nodeMap[id].kind.EnumConsSym? ==>
      var parent := st.nodeMap[id].kind.parent;
      && (parent !in st.nodeMap ==> r == Halted(UnwrapNone))
      && (parent in st.nodeMap && !st.nodeMap[parent].kind.EnumSym? ==> r == Halted(NotEnumParent))
      && (r.Done? ==> r.value == T.GlobalVar(id, ConsType(st.nodeMap[id].kind.args, st.nodeMap[parent])))
    ensures id in st.nodeMap && (st.nodeMap[id].kind.StructSym? || st.nodeMap[id].kind.EnumSym?) ==> r == Halted(Todo)
    ensures r.Done? ==> r.value.GlobalVar? && EndsUnifying(o, exp, r.value.tp, fuel, pos, false, a.nodes, a.g, ctx.diagnostics)
  {
    if id !in st.nodeMap {
      return Halted(UnwrapNone);
    }
    var sym := st.nodeMap[id];
    var tp: Type;
    match sym.kind {
      case FuncSym(args, ret) =>
        tp := Fun(args, ret);
      case EnumConsSym(args, parent) =>
        if parent !in st.nodeMap {
          return Halted(UnwrapNone);
        }
        var p := st.nodeMap[parent];
        if !p.kind.EnumSym? {
          return Halted(NotEnumParent);
        }
        tp := ConsType(args, p);
      case StructSym(_) =>
        return Halted(Todo);
      case EnumSym(_) =>
        return Halted(Todo);
    }
    assert KindClosed(sym.kind);
    ClosedWf(tp, a.g.numeric);
    var u := Expect(ctx, a, o, exp, tp, pos, fuel);
    if u.None? {
      return Halted(StackOverflow);
    }
    r := Done(T.GlobalVar(id, tp));
  }

  /** A number literal: a fresh numeric variable, unified with the expected type. */
  method CheckNumLit(ctx: Context, env: TypecheckEnv.Env, a: Arena, o: TVarOracle, n: nat, pos: Position, exp: Type, fuel: nat)
    returns (r: Checked<T.TExpr>)
    requires Ready(env, a, exp)
    modifies ctx, a
    ensures Grew(ctx, env, a, old(ctx.diagnostics), old(a.g.numeric), old(env.expectedRet), old(env.uvars))
    ensures a.g.numeric == old(a.g.numeric) + [true]
    ensures r.Done? || r == Halted(StackOverflow)
    ensures fuel == 0 ==> !r.Done?
    ensures r.Done? ==> r.value == T.NumLit(n, Types.NumericUVar(old(|a.nodes|)))
    ensures r.Done? ==> EndsUnifying(o, exp, Types.NumericUVar(old(|a.nodes|)), fuel, pos, false, a.nodes, a.g, ctx.diagnostics)
    ensures ctx.diagnostics == old(ctx.diagnostics) || ctx.diagnostics == old(ctx.diagnostics) + [Diagnostic(TypeMismatch, pos)]
  {
    ghost var n0 := a.g.numeric;
    var x := a.New(true);
    var tp := Types.NumericUVar(x);
    FreshKeeps(env, a, n0, []);
    WfGrow(exp, n0, a.g.numeric);
    var u := Expect(ctx, a, o, exp, tp, pos, fuel);
    if u.None? {
      return Halted(StackOverflow);
    }
    r := Done(T.NumLit(n, tp));
  }

  /** A call: the callee and the parameter types (`CheckCallee`), then each argument checked
      against its parameter (`CheckArgs`); surplus arguments are reported one by one, and the
      expected type is unified with the return type. */
  method CheckCall(ctx: Context, st: SymTable, env: TypecheckEnv.Env, a: Arena, o: TVarOracle, e: R.Expr, exp: Type, fuel: nat) returns (r: Checked<T.TExpr>)
    requires Ready(env, a, exp) && AnnotsClosed(e) && SymsClosed(st)
    modifies ctx, env, a
    requires e.FunCall?
    ensures Grew(ctx, env, a, old(ctx.diagnostics), old(a.g.numeric), old(env.expectedRet), old(env.uvars))
    ensures r.Done? ==> ScopesOuter(old(env.scopes), env.scopes)
    ensures IsNever(o, Never().tvar) ==> r != Halted(NeverCoerces)
    ensures r.Done? ==> r.value.FunCall? && |r.value.args| == |r.value.argsTp| <= |e.args|
    ensures r.Done? ==> EndsUnifying(o, exp, r.value.retTp, fuel, e.pos, false, a.nodes, a.g, ctx.diagnostics)
    ensures r.Done? ==> exists d :: || ctx.diagnostics == d + Surplus(e.args, |r.value.argsTp|, |e.args|)
                                  || ctx.diagnostics == d + Surplus(e.args, |r.value.argsTp|, |e.args|) + [Diagnostic(TypeMismatch, e.pos)]
    decreases e, 1
  {
    ghost var d0, n0 := ctx.diagnostics, a.g.numeric;
    var head := CheckCallee(ctx, st, env, a, o, e, exp, fuel, d0, n0);
    if !head.Done? {
      return Halted(head.why);
    }
    var (callee, argsTp, ret) := head.value;
    ghost var keep := argsTp + [ret, exp];
    KeepWf(argsTp, ret, exp, a.g.numeric);
    var args := CheckArgs(ctx, st, env, a, o, e, argsTp, fuel, d0, n0, keep);
    if !args.Done? {
      return Halted(args.why);
    }
    assert keep[|argsTp|] == ret && keep[|argsTp| + 1] == exp;
    ghost var d3 := ctx.diagnostics;
    ReportSurplus(ctx, e.args, |argsTp|);
    PrefixTrans(d0, d3, ctx.diagnostics);
    r := Conclude(ctx, env, a, o, exp, ret, e.pos, fuel, T.FunCall(callee, args.value, argsTp, ret), d0, n0);
    assert ctx.diagnostics == d3 + Surplus(e.args, |argsTp|, |e.args|) ||
           ctx.diagnostics == d3 + Surplus(e.args, |argsTp|, |e.args|) + [Diagnostic(TypeMismatch, e.pos)];
  }

  /** The parameter types, the return type and the expected type of a call, in one list. */
  lemma KeepWf(args: seq<Type>, ret: Type, exp: Type, num: seq<bool>)
    requires Wf(Fun(args, ret), num) && Wf(exp, num)
    ensures forall k :: 0 <= k < |args| + 2 ==> Wf((args + [ret, exp])[k], num)
  {
    forall k | 0 <= k < |args| + 2 ensures Wf((args + [ret, exp])[k], num) {
      if k < |args| {
        assert (args + [ret, exp])[k] == args[k];
      }
    }
  }

  /** The callee of the call `e`, checked against a fresh variable that must then view as a
      function type, whose parameter and return types are returned; a callee that is not a
      function reaches an error constructor that is `todo!()`. */
  method CheckCallee(ctx: Context, st: SymTable, env: TypecheckEnv.Env, a: Arena, o: TVarOracle, e: R.Expr, exp: Type, fuel: nat, ghost d0: seq<Diagnostic>, ghost n0: seq<bool>)
    returns (r: Checked<(T.TExpr, seq<Type>, Type)>)
    requires Grew(ctx, env, a, d0, n0, env.expectedRet, env.uvars) && AnnotsClosed(e) && SymsClosed(st)
    requires e.FunCall? && Wf(exp, a.g.numeric)
    modifies ctx, env, a
    ensures Grew(ctx, env, a, d0, n0, old(env.expectedRet), old(env.uvars))
    ensures r.Done? ==> ScopesOuter(old(env.scopes), env.scopes)
    ensures IsNever(o, Never().tvar) ==> r != Halted(NeverCoerces)
    ensures r.Done? ==> Wf(Fun(r.value.1, r.value.2), a.g.numeric) && Wf(exp, a.g.numeric)
    decreases e, 0
  {
    var fnTp := Fresh(ctx, env, a, d0, n0, [exp]);
    var callee := Sub(ctx, st, env, a, o, e.callee, fnTp, false, fuel, d0, n0, [exp, fnTp]);
    if !callee.Done? {
      return Halted(callee.why);
    }
    assert Wf([exp, fnTp][1], a.g.numeric);
    var v := a.View(fnTp);
    if !v.Fun? {
      return Halted(Todo);
    }
    assert Wf([exp, fnTp][0], a.g.numeric);
    r := Done((callee.value, v.args, v.ret));
  }

  /** The arguments of the call `e` checked against the parameter types `argsTp`, in order;
      an argument missing for a parameter stops at `todo!()`. */
  method CheckArgs(ctx: Context, st: SymTable, env: TypecheckEnv.Env, a: Arena, o: TVarOracle, e: R.Expr, argsTp: seq<Type>, fuel: nat, ghost d0: seq<Diagnostic>, ghost n0: seq<bool>, ghost ts: seq<Type>) returns (r: Checked<seq<T.TExpr>>)
    requires Grew(ctx, env, a, d0, n0, env.expectedRet, env.uvars) && AnnotsClosed(e) && SymsClosed(st)
    requires forall k :: 0 <= k < |ts| ==> Wf(ts[k], a.g.numeric)
    modifies ctx, env, a
    requires e.FunCall? && argsTp <= ts
    ensures Grew(ctx, env, a, d0, n0, old(env.expectedRet), old(env.uvars))
    ensures forall k :: 0 <= k < |ts| ==> Wf(ts[k], a.g.numeric)
    ensures r.Done? ==> ScopesOuter(old(env.scopes), env.scopes)
    ensures IsNever(o, Never().tvar) ==> r != Halted(NeverCoerces)
    ensures r.Done? ==> |r.value| == |argsTp| <= |e.args|
    ensures |e.args| < |argsTp| ==> !r.Done?
    decreases e, 0
  {
    var out: seq<T.TExpr> := [];
    var i := 0;
    while i < |argsTp|
      invariant 0 <= i <= |argsTp| && |out| == i && i <= |e.args|
      invariant Grew(ctx, env, a, d0, n0, old(env.expectedRet), old(env.uvars))
      invariant forall k :: 0 <= k < |ts| ==> Wf(ts[k], a.g.numeric)
      invariant ScopesOuter(old(env.scopes), env.scopes)
    {
      if i == |e.args| {
        return Halted(Todo);
      }
      assert argsTp[i] == ts[i];
      var x := Sub(ctx, st, env, a, o, e.args[i], argsTp[i], false, fuel, d0, n0, ts);
      if !x.Done? {
        return Halted(x.why);
      }
      out := out + [x.value];
      i := i + 1;
    }
    r := Done(out);
  }

  /** The `unexpected_argument` reports for the arguments from index `n` up to `i`: the
      argument at index `k` is numbered `k + 1`. */
  function Surplus(args: seq<R.Expr>, n: nat, i: nat): (d: seq<Diagnostic>)
    requires i <= |args|
    decreases i
  {
    if i <= n then [] else Surplus(args, n, i - 1) + [Diagnostic(UnexpectedArgument(i), args[i - 1].pos)]
  }

  /** One report per surplus argument, in order, the first numbered `n + 1`. */
  lemma {:induction false} SurplusAt(args: seq<R.Expr>, n: nat, i: nat)
    requires n <= i <= |args|
    ensures |Surplus(args, n, i)| == i - n
    ensures forall k :: n <= k < i ==> Surplus(args, n, i)[k - n] == Diagnostic(UnexpectedArgument(k + 1), args[k].pos)
    decreases i
  {
    if i > n {
      SurplusAt(args, n, i - 1);
    }
  }

  /** `while let Some(arg) = args_iter.next()`: reports every argument beyond the first `n`. */
  method ReportSurplus(ctx: Context, args: seq<R.Expr>, n: nat)
    modifies ctx
    ensures ctx.diagnostics == old(ctx.diagnostics) + Surplus(args, n, |args|)
  {
    var i := n;
    if i < |args| {
      while i < |args|
        invariant n <= i <= |args|
        invariant ctx.diagnostics == old(ctx.diagnostics) + Surplus(args, n, i)
      {
        ctx.Report(Diagnostic(UnexpectedArgument(i + 1), args[i].pos));
        i := i + 1;
      }
    }
  }


  /** The field `field` of a value of the (viewed) type `v`: a named or plain type variable
      has its type information looked up (`find_type_info` unwraps); `None` when `v` is not
      such a variable, is not a struct, or has no such field. */
  function FieldOf(st: SymTable, v: Type, field: string): (r: Checked<Option<Type>>)
    ensures r.Halted? <==> (v.NamedVar? || v.Var?) && v.tvar !in st.tvarMap
    ensures r.Halted? ==> r.why == UnwrapNone
    ensures r.Done? && r.value.Some? <==>
      && (v.NamedVar? || v.Var?) && v.tvar in st.tvarMap && st.tvarMap[v.tvar].kind.StructKind?
      && field in st.tvarMap[v.tvar].kind.fields
    ensures r.Done? && r.value.Some? ==> r.value.value == st.tvarMap[v.tvar].kind.fields[field]
  {
    if !(v.NamedVar? || v.Var?) then Done(None)
    else if v.tvar !in st.tvarMap then Halted(UnwrapNone)
    else
      var info := st.tvarMap[v.tvar];
      if info.kind.StructKind? && field in info.kind.fields then Done(Some(info.kind.fields[field])) else Done(None)
  }

  /** A field access: the object and its type (`CheckObject`) must have the field
      (`FieldOf`); otherwise `no_such_field` is reported and the result is the error
      expression. */
  method CheckField(ctx: Context, st: SymTable, env: TypecheckEnv.Env, a: Arena, o: TVarOracle, e: R.Expr, exp: Type, expMut: bool, fuel: nat) returns (r: Checked<T.TExpr>)
    requires Ready(env, a, exp) && AnnotsClosed(e) && SymsClosed(st)
    modifies ctx, env, a
    requires e.FieldAccess?
    ensures Grew(ctx, env, a, old(ctx.diagnostics), old(a.g.numeric), old(env.expectedRet), old(env.uvars))
    ensures r.Done? ==> ScopesOuter(old(env.scopes), env.scopes)
    ensures IsNever(o, Never().tvar) ==> r != Halted(NeverCoerces)
    ensures r.Done? && r.value.FieldAccess? ==>
      && r.value.fieldName == e.field
      && exists tv :: tv in st.tvarMap && st.tvarMap[tv].kind.StructKind? && e.field in st.tvarMap[tv].kind.fields &&
           r.value.fieldTp == st.tvarMap[tv].kind.fields[e.field]
    ensures r.Done? && !r.value.FieldAccess? ==>
      r.value == T.Error && |ctx.diagnostics| > 0 && ctx.diagnostics[|ctx.diagnostics| - 1] == Diagnostic(NoSuchField(e.field), e.pos)
    ensures r.Done? && r.value.FieldAccess? ==> EndsUnifying(o, exp, r.value.fieldTp, fuel, e.pos, false, a.nodes, a.g, ctx.diagnostics)
    decreases e, 1
  {
    ghost var d0, n0 := ctx.diagnostics, a.g.numeric;
    var obj := CheckObject(ctx, st, env, a, o, e, exp, expMut, fuel, d0, n0);
    if !obj.Done? {
      return Halted(obj.why);
    }
    var (inner, v) := obj.value;
    var found := FieldOf(st, v, e.field);
    if found.Halted? {
      return Halted(found.why);
    }
    if found.value.None? {
      ghost var d2 := ctx.diagnostics;
      ctx.Report(Diagnostic(NoSuchField(e.field), e.pos));
      PrefixTrans(d0, d2, ctx.diagnostics);
      return Done(T.Error);
    }
    var fieldTp := found.value.value;
    assert SymsClosed(st);
    ClosedWf(fieldTp, a.g.numeric);
    r := Conclude(ctx, env, a, o, exp, fieldTp, e.pos, fuel, T.FieldAccess(inner, e.field, fieldTp), d0, n0);
  }

  /** The object of the field access `e`, checked against a fresh variable, and the view of
      that variable afterwards. */
  method CheckObject(ctx: Context, st: SymTable, env: TypecheckEnv.Env, a: Arena, o: TVarOracle, e: R.Expr, exp: Type, expMut: bool, fuel: nat, ghost d0: seq<Diagnostic>, ghost n0: seq<bool>)
    returns (r: Checked<(T.TExpr, Type)>)
    requires Grew(ctx, env, a, d0, n0, env.expectedRet, env.uvars) && AnnotsClosed(e) && SymsClosed(st)
    requires e.FieldAccess? && Wf(exp, a.g.numeric)
    modifies ctx, env, a
    ensures Grew(ctx, env, a, d0, n0, old(env.expectedRet), old(env.uvars)) && Wf(exp, a.g.numeric)
    ensures r.Done? ==> ScopesOuter(old(env.scopes), env.scopes)
    ensures IsNever(o, Never().tvar) ==> r != Halted(NeverCoerces)
    decreases e, 0
  {
    var tp := Fresh(ctx, env, a, d0, n0, [exp]);
    var inner := Sub(ctx, st, env, a, o, e.inner, tp, expMut, fuel, d0, n0, [exp, tp]);
    assert Wf([exp, tp][0], a.g.numeric) && Wf([exp, tp][1], a.g.numeric);
    if !inner.Done? {
      return Halted(inner.why);
    }
    var v := a.View(tp);
    r := Done((inner.value, v));
  }

  /** `return`: the value is checked against the function's return type; the expected type
      must unify with never, or the source reaches `unreachable!`. Nothing is reported. */
  method CheckReturn(ctx: Context, st: SymTable, env: TypecheckEnv.Env, a: Arena, o: TVarOracle, e: R.Expr, exp: Type, fuel: nat) returns (r: Checked<T.TExpr>)
    requires Ready(env, a, exp) && AnnotsClosed(e) && SymsClosed(st)
    modifies ctx, env, a
    requires e.Return?
    ensures Grew(ctx, env, a, old(ctx.diagnostics), old(a.g.numeric), old(env.expectedRet), old(env.uvars))
    ensures r.Done? ==> ScopesOuter(old(env.scopes), env.scopes)
    ensures IsNever(o, Never().tvar) ==> r != Halted(NeverCoerces)
    ensures r.Done? ==> r.value.Return? && r.value.retTp == env.expectedRet
    decreases e, 1
  {
    ghost var d0, n0 := ctx.diagnostics, a.g.numeric;
    var tp := env.expectedRet;
    var x := Sub(ctx, st, env, a, o, e.value, tp, false, fuel, d0, n0, [exp]);
    if !x.Done? {
      return Halted(x.why);
    }
    assert Wf([exp][0], a.g.numeric);
    var u := Unify(a, o, exp, Never(), fuel);
    if u.None? {
      return Halted(StackOverflow);
    }
    if u == Some(false) {
      return Halted(NeverCoerces);
    }
    r := Done(T.Return(x.value, tp));
  }

  /** A block: in a new scope, every statement is checked against unit and the last
      expression against the expected type; the scope is then left, and the block has the
      expected type. */
  method CheckBlock(ctx: Context, st: SymTable, env: TypecheckEnv.Env, a: Arena, o: TVarOracle, e: R.Expr, exp: Type, expMut: bool, fuel: nat) returns (r: Checked<T.TExpr>)
    requires Ready(env, a, exp) && AnnotsClosed(e) && SymsClosed(st)
    modifies ctx, env, a
    requires e.Block?
    ensures Grew(ctx, env, a, old(ctx.diagnostics), old(a.g.numeric), old(env.expectedRet), old(env.uvars))
    ensures r.Done? ==> ScopesOuter(old(env.scopes), env.scopes)
    ensures IsNever(o, Never().tvar) ==> r != Halted(NeverCoerces)
    ensures r.Done? ==> env.scopes == old(env.scopes)
    ensures r.Done? ==> r.value.Block? && |r.value.exprs| == |e.stmts| && r.value.blockTp == exp
    decreases e, 1
  {
    ghost var d0, n0, s0 := ctx.diagnostics, a.g.numeric, env.scopes;
    env.NewScope();
    ScopesWfPush(s0, n0);
    var stmts := CheckStmts(ctx, st, env, a, o, e, fuel, d0, n0, [exp]);
    if !stmts.Done? {
      return Halted(stmts.why);
    }
    assert Wf([exp][0], a.g.numeric);
    var last := Sub(ctx, st, env, a, o, e.last, exp, expMut, fuel, d0, n0, []);
    if !last.Done? {
      return Halted(last.why);
    }
    assert env.scopes[..|s0|] == s0;
    ScopesWfPrefix(env.scopes, |s0|, a.g.numeric);
    env.LeaveScope();
    r := Done(T.Block(stmts.value, last.value, exp));
  }

  /** The statements of the block `e`, each checked against unit, in order. */
  method CheckStmts(ctx: Context, st: SymTable, env: TypecheckEnv.Env, a: Arena, o: TVarOracle, e: R.Expr, fuel: nat, ghost d0: seq<Diagnostic>, ghost n0: seq<bool>, ghost ts: seq<Type>) returns (r: Checked<seq<T.TExpr>>)
    requires Grew(ctx, env, a, d0, n0, env.expectedRet, env.uvars) && AnnotsClosed(e) && SymsClosed(st)
    requires forall k :: 0 <= k < |ts| ==> Wf(ts[k], a.g.numeric)
    modifies ctx, env, a
    requires e.Block?
    ensures Grew(ctx, env, a, d0, n0, old(env.expectedRet), old(env.uvars))
    ensures forall k :: 0 <= k < |ts| ==> Wf(ts[k], a.g.numeric)
    ensures r.Done? ==> ScopesOuter(old(env.scopes), env.scopes)
    ensures IsNever(o, Never().tvar) ==> r != Halted(NeverCoerces)
    ensures r.Done? ==> |r.value| == |e.stmts|
    decreases e, 0
  {
    var out: seq<T.TExpr> := [];
    var i := 0;
    while i < |e.stmts|
      invariant 0 <= i <= |e.stmts| && |out| == i
      invariant Grew(ctx, env, a, d0, n0, old(env.expectedRet), old(env.uvars))
      invariant forall k :: 0 <= k < |ts| ==> Wf(ts[k], a.g.numeric)
      invariant ScopesOuter(old(env.scopes), env.scopes)
    {
      var x := Sub(ctx, st, env, a, o, e.stmts[i], Unit(), false, fuel, d0, n0, ts);
      if !x.Done? {
        return Halted(x.why);
      }
      out := out + [x.value];
      i := i + 1;
    }
    r := Done(out);
  }

  /** `let`: the initializer is checked (`CheckInit`) against the annotation or else a fresh
      variable; only then is the name bound, in the innermost scope, with that type. The
      `let` itself has unit type. With no scope at all, binding panics. */
  method CheckLet(ctx: Context, st: SymTable, env: TypecheckEnv.Env, a: Arena, o: TVarOracle, e: R.Expr, exp: Type, fuel: nat) returns (r: Checked<T.TExpr>)
    requires Ready(env, a, exp) && AnnotsClosed(e) && SymsClosed(st)
    modifies ctx, env, a
    requires e.Let?
    ensures Grew(ctx, env, a, old(ctx.diagnostics), old(a.g.numeric), old(env.expectedRet), old(env.uvars))
    ensures r.Done? ==> ScopesOuter(old(env.scopes), env.scopes)
    ensures IsNever(o, Never().tvar) ==> r != Halted(NeverCoerces)
    ensures old(env.scopes) == [] ==> !r.Done?
    ensures r.Done? ==> r.value.Let? && r.value.name == e.name && r.value.isMut == e.isMut
    ensures r.Done? && e.tp.Some? ==> r.value.tp == e.tp.value
    ensures r.Done? && e.tp.None? ==> r.value.tp == UVar(old(|a.nodes|))
    ensures r.Done? ==> env.scopes == Bound(old(env.scopes), e.name, (e.isMut, r.value.tp))
    ensures r.Done? ==> EndsUnifying(o, exp, Unit(), fuel, e.pos, false, a.nodes, a.g, ctx.diagnostics)
    decreases e, 1
  {
    ghost var d0, n0, s0 := ctx.diagnostics, a.g.numeric, env.scopes;
    var tp := LetType(ctx, env, a, e, d0, n0, [exp]);
    var x := CheckInit(ctx, st, env, a, o, e, tp, fuel, d0, n0, [exp, tp]);
    if !x.Done? {
      return Halted(x.why);
    }
    assert Wf([exp, tp][0], a.g.numeric) && Wf([exp, tp][1], a.g.numeric);
    var ok := env.AddVar(e.name, e.isMut, tp);
    if !ok {
      return Halted(NoScope);
    }
    ScopesWfBound(s0, e.name, (e.isMut, tp), a.g.numeric);
    r := Conclude(ctx, env, a, o, exp, Unit(), e.pos, fuel, T.Let(e.name, e.isMut, tp, x.value), d0, n0);
  }

  /** The type a `let` binds: its annotation, or else a fresh variable. */
  method LetType(ctx: Context, env: TypecheckEnv.Env, a: Arena, e: R.Expr, ghost d0: seq<Diagnostic>, ghost n0: seq<bool>,
                 ghost ts: seq<Type>) returns (tp: Type)
    requires Grew(ctx, env, a, d0, n0, env.expectedRet, env.uvars) && e.Let? && AnnotsClosed(e)
    requires forall k :: 0 <= k < |ts| ==> Wf(ts[k], a.g.numeric)
    modifies a
    ensures Grew(ctx, env, a, d0, n0, env.expectedRet, env.uvars) && Wf(tp, a.g.numeric)
    ensures forall k :: 0 <= k < |ts| ==> Wf(ts[k], a.g.numeric)
    ensures e.tp.Some? ==> tp == e.tp.value && a.g.numeric == old(a.g.numeric)
    ensures e.tp.None? ==> tp == UVar(old(|a.nodes|)) && a.g.numeric == old(a.g.numeric) + [false]
  {
    if e.tp.Some? {
      tp := e.tp.value;
      ClosedWf(tp, a.g.numeric);
    } else {
      tp := Fresh(ctx, env, a, d0, n0, ts);
    }
  }

  /** The initializer of the `let` `e`, checked against `tp` in a scope of its own, which is
      left afterwards: its bindings do not outlive it. */
  method CheckInit(ctx: Context, st: SymTable, env: TypecheckEnv.Env, a: Arena, o: TVarOracle, e: R.Expr, tp: Type, fuel: nat, ghost d0: seq<Diagnostic>, ghost n0: seq<bool>, ghost ts: seq<Type>) returns (r: Checked<T.TExpr>)
    requires Grew(ctx, env, a, d0, n0, env.expectedRet, env.uvars) && AnnotsClosed(e) && SymsClosed(st)
    requires forall k :: 0 <= k < |ts| ==> Wf(ts[k], a.g.numeric)
    modifies ctx, env, a
    requires e.Let? && Wf(tp, a.g.numeric)
    ensures Grew(ctx, env, a, d0, n0, old(env.expectedRet), old(env.uvars))
    ensures forall k :: 0 <= k < |ts| ==> Wf(ts[k], a.g.numeric)
    ensures r.Done? ==> ScopesOuter(old(env.scopes), env.scopes)
    ensures IsNever(o, Never().tvar) ==> r != Halted(NeverCoerces)
    ensures r.Done? ==> env.scopes == old(env.scopes)
    decreases e, 0
  {
    ghost var s0 := env.scopes;
    env.NewScope();
    ScopesWfPush(s0, a.g.numeric);
    r := Sub(ctx, st, env, a, o, e.init, tp, false, fuel, d0, n0, ts);
    if !r.Done? {
      return;
    }
    assert env.scopes[..|s0|] == s0;
    ScopesWfPrefix(env.scopes, |s0|, a.g.numeric);
    env.LeaveScope();
  }

  /** `if`: the condition is checked against bool, then both branches (`CheckBranches`)
      against one shared fresh variable, which is the type of the `if`. */
  method CheckIf(ctx: Context, st: SymTable, env: TypecheckEnv.Env, a: Arena, o: TVarOracle, e: R.Expr, exp: Type, expMut: bool, fuel: nat) returns (r: Checked<T.TExpr>)
    requires Ready(env, a, exp) && AnnotsClosed(e) && SymsClosed(st)
    modifies ctx, env, a
    requires e.If?
    ensures Grew(ctx, env, a, old(ctx.diagnostics), old(a.g.numeric), old(env.expectedRet), old(env.uvars))
    ensures r.Done? ==> ScopesOuter(old(env.scopes), env.scopes)
    ensures IsNever(o, Never().tvar) ==> r != Halted(NeverCoerces)
    ensures r.Done? ==> r.value.If? && r.value.blockTp == UVar(old(|a.nodes|))
    ensures r.Done? ==> EndsUnifying(o, exp, r.value.blockTp, fuel, e.pos, false, a.nodes, a.g, ctx.diagnostics)
    decreases e, 1
  {
    ghost var d0, n0 := ctx.diagnostics, a.g.numeric;
    var tp := Fresh(ctx, env, a, d0, n0, [exp]);
    var pr := Sub(ctx, st, env, a, o, e.cond, Bool(), false, fuel, d0, n0, [exp, tp]);
    if !pr.Done? {
      return Halted(pr.why);
    }
    assert Wf([exp, tp][1], a.g.numeric);
    var br := CheckBranches(ctx, st, env, a, o, e, tp, expMut, fuel, d0, n0, [exp, tp]);
    if !br.Done? {
      return Halted(br.why);
    }
    assert Wf([exp, tp][0], a.g.numeric) && Wf([exp, tp][1], a.g.numeric);
    r := Conclude(ctx, env, a, o, exp, tp, e.pos, fuel, T.If(pr.value, br.value.0, br.value.1, tp), d0, n0);
  }

  /** The branches of the `if` `e`, each checked against `tp`: the else branch first, then
      the then branch; the pair holds them as (then, else). */
  method CheckBranches(ctx: Context, st: SymTable, env: TypecheckEnv.Env, a: Arena, o: TVarOracle, e: R.Expr, tp: Type, expMut: bool, fuel: nat, ghost d0: seq<Diagnostic>, ghost n0: seq<bool>, ghost ts: seq<Type>) returns (r: Checked<(T.TExpr, T.TExpr)>)
    requires Grew(ctx, env, a, d0, n0, env.expectedRet, env.uvars) && AnnotsClosed(e) && SymsClosed(st)
    requires forall k :: 0 <= k < |ts| ==> Wf(ts[k], a.g.numeric)
    modifies ctx, env, a
    requires e.If? && Wf(tp, a.g.numeric)
    ensures Grew(ctx, env, a, d0, n0, old(env.expectedRet), old(env.uvars))
    ensures forall k :: 0 <= k < |ts| ==> Wf(ts[k], a.g.numeric)
    ensures r.Done? ==> ScopesOuter(old(env.scopes), env.scopes)
    ensures IsNever(o, Never().tvar) ==> r != Halted(NeverCoerces)
    decreases e, 0
  {
    var el := Sub(ctx, st, env, a, o, e.elseBranch, tp, expMut, fuel, d0, n0, ts + [tp]);
    assert (ts + [tp])[|ts|] == tp;
    assert forall k :: 0 <= k < |ts| ==> ts[k] == (ts + [tp])[k];
    if !el.Done? {
      return Halted(el.why);
    }
    var th := Sub(ctx, st, env, a, o, e.thenBranch, tp, expMut, fuel, d0, n0, ts);
    if !th.Done? {
      return Halted(th.why);
    }
    r := Done((th.value, el.value));
  }

  /** Assignment: both sides are checked against one shared fresh variable, the left side as
      a mutable place; the assignment has unit type. */
  method CheckAssign(ctx: Context, st: SymTable, env: TypecheckEnv.Env, a: Arena, o: TVarOracle, e: R.Expr, exp: Type, fuel: nat) returns (r: Checked<T.TExpr>)
    requires Ready(env, a, exp) && AnnotsClosed(e) && SymsClosed(st)
    modifies ctx, env, a
    requires e.Assign?
    ensures Grew(ctx, env, a, old(ctx.diagnostics), old(a.g.numeric), old(env.expectedRet), old(env.uvars))
    ensures r.Done? ==> ScopesOuter(old(env.scopes), env.scopes)
    ensures IsNever(o, Never().tvar) ==> r != Halted(NeverCoerces)
    ensures r.Done? ==> r.value.Assign? && r.value.assignTp == UVar(old(|a.nodes|))
    ensures r.Done? ==> EndsUnifying(o, exp, Unit(), fuel, e.pos, false, a.nodes, a.g, ctx.diagnostics)
    decreases e, 1
  {
    ghost var d0, n0 := ctx.diagnostics, a.g.numeric;
    var tp := Fresh(ctx, env, a, d0, n0, [exp]);
    var lv := Sub(ctx, st, env, a, o, e.lhs, tp, true, fuel, d0, n0, [exp, tp]);
    if !lv.Done? {
      return Halted(lv.why);
    }
    assert Wf([exp, tp][0], a.g.numeric) && Wf([exp, tp][1], a.g.numeric);
    var rv := Sub(ctx, st, env, a, o, e.rhs, tp, false, fuel, d0, n0, [exp]);
    if !rv.Done? {
      return Halted(rv.why);
    }
    assert Wf([exp][0], a.g.numeric);
    r := Conclude(ctx, env, a, o, exp, Unit(), e.pos, fuel, T.Assign(lv.value, rv.value, tp), d0, n0);
  }

  /** `&e` and `&mut e`: the operand is checked against a fresh variable `t` (as a mutable
      place for `&mut`), and the expression has type `*t` (`*mut t`). */
  method CheckRef(ctx: Context, st: SymTable, env: TypecheckEnv.Env, a: Arena, o: TVarOracle, e: R.Expr, exp: Type, fuel: nat) returns (r: Checked<T.TExpr>)
    requires Ready(env, a, exp) && AnnotsClosed(e) && SymsClosed(st)
    modifies ctx, env, a
    requires e.Ref? || e.RefMut?
    ensures Grew(ctx, env, a, old(ctx.diagnostics), old(a.g.numeric), old(env.expectedRet), old(env.uvars))
    ensures r.Done? ==> ScopesOuter(old(env.scopes), env.scopes)
    ensures IsNever(o, Never().tvar) ==> r != Halted(NeverCoerces)
    ensures r.Done? && e.Ref? ==> r.value.Ref? && r.value.tp == Ptr(UVar(old(|a.nodes|)))
    ensures r.Done? && e.RefMut? ==> r.value.RefMut? && r.value.tp == MutPtr(UVar(old(|a.nodes|)))
    ensures r.Done? ==> EndsUnifying(o, exp, r.value.tp, fuel, e.pos, false, a.nodes, a.g, ctx.diagnostics)
    decreases e, 1
  {
    ghost var d0, n0 := ctx.diagnostics, a.g.numeric;
    var tp := Fresh(ctx, env, a, d0, n0, [exp]);
    var x := Sub(ctx, st, env, a, o, e.inner, tp, e.RefMut?, fuel, d0, n0, [exp, tp]);
    if !x.Done? {
      return Halted(x.why);
    }
    assert Wf([exp, tp][0], a.g.numeric) && Wf([exp, tp][1], a.g.numeric);
    var pt := if e.RefMut? then MutPtr(tp) else Ptr(tp);
    r := Conclude(ctx, env, a, o, exp, pt, e.pos, fuel, if e.RefMut? then T.RefMut(x.value, pt) else T.Ref(x.value, pt), d0, n0);
  }

  /** `*e`: with a fresh variable `t`, the operand is checked against `*mut t` when a mutable
      place is expected and against `*t` otherwise; the expression has type `t`. */
  method CheckDeref(ctx: Context, st: SymTable, env: TypecheckEnv.Env, a: Arena, o: TVarOracle, e: R.Expr, exp: Type, expMut: bool, fuel: nat) returns (r: Checked<T.TExpr>)
    requires Ready(env, a, exp) && AnnotsClosed(e) && SymsClosed(st)
    modifies ctx, env, a
    requires e.Deref?
    ensures Grew(ctx, env, a, old(ctx.diagnostics), old(a.g.numeric), old(env.expectedRet), old(env.uvars))
    ensures r.Done? ==> ScopesOuter(old(env.scopes), env.scopes)
    ensures IsNever(o, Never().tvar) ==> r != Halted(NeverCoerces)
    ensures r.Done? ==> r.value.Deref? && r.value.inTp == UVar(old(|a.nodes|))
    ensures r.Done? ==> EndsUnifying(o, exp, r.value.inTp, fuel, e.pos, false, a.nodes, a.g, ctx.diagnostics)
    decreases e, 1
  {
    ghost var d0, n0 := ctx.diagnostics, a.g.numeric;
    var inTp := Fresh(ctx, env, a, d0, n0, [exp]);
    var tp := if expMut then MutPtr(inTp) else Ptr(inTp);
    var x := Sub(ctx, st, env, a, o, e.inner, tp, false, fuel, d0, n0, [exp, inTp]);
    if !x.Done? {
      return Halted(x.why);
    }
    assert Wf([exp, inTp][0], a.g.numeric) && Wf([exp, inTp][1], a.g.numeric);
    r := Conclude(ctx, env, a, o, exp, inTp, e.pos, fuel, T.Deref(x.value, inTp), d0, n0);
  }

  /** A tuple: each element is checked against its own fresh variable; the tuple is never
      unified with the expected type. */
  method CheckTuple(ctx: Context, st: SymTable, env: TypecheckEnv.Env, a: Arena, o: TVarOracle, e: R.Expr,
                    expMut: bool, fuel: nat) returns (r: Checked<T.TExpr>)
    requires Ready(env, a, Unit()) && AnnotsClosed(e) && SymsClosed(st)
    modifies ctx, env, a
    requires e.Tuple?
    ensures Grew(ctx, env, a, old(ctx.diagnostics), old(a.g.numeric), old(env.expectedRet), old(env.uvars))
    ensures r.Done? ==> ScopesOuter(old(env.scopes), env.scopes)
    ensures IsNever(o, Never().tvar) ==> r != Halted(NeverCoerces)
    ensures r.Done? ==> r.value.Tuple? && |r.value.items| == |e.items|
    decreases e, 1
  {
    ghost var d0, n0 := ctx.diagnostics, a.g.numeric;
    var items := CheckItems(ctx, st, env, a, o, e, expMut, fuel, d0, n0, []);
    if !items.Done? {
      return Halted(items.why);
    }
    r := Done(T.Tuple(items.value));
  }

  /** The elements of the tuple `e`, each checked against a fresh variable, in order. */
  method CheckItems(ctx: Context, st: SymTable, env: TypecheckEnv.Env, a: Arena, o: TVarOracle, e: R.Expr, expMut: bool, fuel: nat, ghost d0: seq<Diagnostic>, ghost n0: seq<bool>, ghost ts: seq<Type>) returns (r: Checked<seq<T.TExpr>>)
    requires Grew(ctx, env, a, d0, n0, env.expectedRet, env.uvars) && AnnotsClosed(e) && SymsClosed(st)
    requires forall k :: 0 <= k < |ts| ==> Wf(ts[k], a.g.numeric)
    modifies ctx, env, a
    requires e.Tuple?
    ensures Grew(ctx, env, a, d0, n0, old(env.expectedRet), old(env.uvars))
    ensures forall k :: 0 <= k < |ts| ==> Wf(ts[k], a.g.numeric)
    ensures r.Done? ==> ScopesOuter(old(env.scopes), env.scopes)
    ensures IsNever(o, Never().tvar) ==> r != Halted(NeverCoerces)
    ensures r.Done? ==> |r.value| == |e.items|
    decreases e, 0
  {
    var out: seq<T.TExpr> := [];
    var i := 0;
    while i < |e.items|
      invariant 0 <= i <= |e.items| && |out| == i
      invariant Grew(ctx, env, a, d0, n0, old(env.expectedRet), old(env.uvars))
      invariant forall k :: 0 <= k < |ts| ==> Wf(ts[k], a.g.numeric)
      invariant ScopesOuter(old(env.scopes), env.scopes)
    {
      var tp := Fresh(ctx, env, a, d0, n0, ts);
      var x := Sub(ctx, st, env, a, o, e.items[i], tp, expMut, fuel, d0, n0, ts);
      if !x.Done? {
        return Halted(x.why);
      }
      out := out + [x.value];
      i := i + 1;
    }
    r := Done(out);
  }

  // ---- tr_func and translate ------------------------------------------------------------

  /** The types a resolved function hands to the checker are closed. */
  ghost predicate FuncClosed(f: R.Func)
  {
    Closed(f.retType) && (forall k :: 0 <= k < |f.args| ==> Closed(f.args[k].tp)) && AnnotsClosed(f.body)
  }

  /** `tr_func`: a new environment expecting the declared return type, every parameter bound
      in its one scope, the body checked against the return type, then `finish`, which has
      nothing to do: the checker records no variable in the environment. */
  method TrFunc(ctx: Context, st: SymTable, a: Arena, o: TVarOracle, f: R.Func, fuel: nat) returns (r: Checked<T.TFunc>)
    requires a.Valid() && FuncClosed(f) && SymsClosed(st)
    modifies ctx, a
    ensures a.Valid() && old(ctx.diagnostics) <= ctx.diagnostics && old(a.g.numeric) <= a.g.numeric
    ensures IsNever(o, Never().tvar) ==> r != Halted(NeverCoerces)
    ensures r.Done? ==> r.value.id == f.id && r.value.name == f.name && r.value.retType == f.retType
    ensures r.Done? ==> |r.value.args| == |f.args|
    ensures r.Done? ==> forall k :: 0 <= k < |f.args| ==> r.value.args[k] == (f.args[k].name, f.args[k].isMut, f.args[k].tp)
  {
    var env := new TypecheckEnv.Env(f.retType);
    ClosedWf(f.retType, a.g.numeric);
    var args: seq<(string, bool, Type)> := [];
    var i := 0;
    while i < |f.args|
      invariant 0 <= i <= |f.args| && |args| == i
      invariant forall k :: 0 <= k < i ==> args[k] == (f.args[k].name, f.args[k].isMut, f.args[k].tp)
      invariant env.scopes != [] && ScopesWf(env.scopes, a.g.numeric)
      invariant env.expectedRet == f.retType && env.uvars == []
      invariant a.Valid() && a.g.numeric == old(a.g.numeric) && ctx.diagnostics == old(ctx.diagnostics)
    {
      var arg := f.args[i];
      ClosedWf(arg.tp, a.g.numeric);
      ScopesWfBound(env.scopes, arg.name, (arg.isMut, arg.tp), a.g.numeric);
      var _ := env.AddVar(arg.name, arg.isMut, arg.tp);
      args := args + [(arg.name, arg.isMut, arg.tp)];
      i := i + 1;
    }
    var body := CheckExpr(ctx, st, env, a, o, f.body, f.retType, false, fuel);
    if !body.Done? {
      return Halted(body.why);
    }
    assert Viewed(a.nodes, a.g, env.uvars) == [];
    var fin := env.Finish(ctx, a);
    assert fin == Ok(());
    r := Done(T.TFunc(f.id, f.name, args, f.retType, body.value));
  }

  /** `translate`: every function checked in order; the first that stops stops the whole. */
  method Translate(ctx: Context, st: SymTable, a: Arena, o: TVarOracle, fs: seq<R.Func>, fuel: nat) returns (r: Checked<seq<T.TFunc>>)
    requires a.Valid() && SymsClosed(st) && forall i :: 0 <= i < |fs| ==> FuncClosed(fs[i])
    modifies ctx, a
    ensures a.Valid() && old(ctx.diagnostics) <= ctx.diagnostics
    ensures IsNever(o, Never().tvar) ==> r != Halted(NeverCoerces)
    ensures r.Done? ==> |r.value| == |fs|
    ensures r.Done? ==> forall i :: 0 <= i < |fs| ==>
      r.value[i].id == fs[i].id && r.value[i].name == fs[i].name && r.value[i].retType == fs[i].retType
  {
    var out: seq<T.TFunc> := [];
    var i := 0;
    while i < |fs|
      invariant 0 <= i <= |fs| && |out| == i && a.Valid() && old(ctx.diagnostics) <= ctx.diagnostics
      invariant forall k :: 0 <= k < i ==> out[k].id == fs[k].id && out[k].name == fs[k].name && out[k].retType == fs[k].retType
    {
      ghost var d1 := ctx.diagnostics;
      var x := TrFunc(ctx, st, a, o, fs[i], fuel);
      PrefixTrans(old(ctx.diagnostics), d1, ctx.diagnostics);
      if !x.Done? {
        return Halted(x.why);
      }
      out := out + [x.value];
      i := i + 1;
    }
    r := Done(out);
  }
}
