/** Name resolution of expressions, match clauses and patterns (src/resolve/mod.rs:314-572):
    every path becomes a local or a declaration reference, blocks and match clauses open local
    scopes, and `let` and pattern variables are added to the innermost one. */
module ResolveExpr {
  import opened Wrappers
  import opened Common
  import opened NodeIds
  import opened TVars
  import opened SymInfos
  import opened ResolveEnv
  import R = ResolvedAst
  import P = ParsedAst
  import Ty = Types

  /** The local scopes after translating an expression: as many scopes, the outer ones as
      they were, and the innermost one with possibly more names (from `let`s and patterns). */
  ghost predicate ScopesExtend(a: seq<set<string>>, b: seq<set<string>>)
  {
    |b| == |a| && (forall i :: 0 <= i < |a| - 1 ==> b[i] == a[i]) && (|a| > 0 ==> a[|a| - 1] <= b[|a| - 1])
  }

  lemma ScopesExtendTrans(a: seq<set<string>>, b: seq<set<string>>, c: seq<set<string>>)
    requires ScopesExtend(a, b) && ScopesExtend(b, c)
    ensures ScopesExtend(a, c)
  {
  }

  /** Expressions leave the module, the symbol table and the type table alone. */
  ghost predicate SameTables(env: Env, cm: NodeID, nm: map<NodeID, SymInfo>, tm: map<TVar, TypeInfo>)
    reads env
  {
    env.currentModule == cm && env.nodeMap == nm && env.tvarMap == tm
  }

  /** The names a struct literal initialises. */
  function FieldNames(fields: seq<(Ident, P.Expr)>): set<string>
  {
    set i | 0 <= i < |fields| :: fields[i].0.data
  }

  /** The resolved expression `x` has the form the resolver gives `e`, all the way down: the
      matching constructor at the same position, every sub-expression the translation of the
      corresponding part of `e`, `()` for an omitted block tail, `return` value or `else`, the
      last initialiser of each name of a struct literal as that field's value, and the types
      of casts and annotations as `resolve_type` builds them. A path becomes a reference or an
      error node, and a struct literal an error node when its path does not resolve; with
      `allResolved` neither happens anywhere in `x`, whose only error nodes are then the ones
      the parser left in `e`. */
  predicate Corresponds(e: P.Expr, x: R.Expr, allResolved: bool := false)
    decreases e, 1
  {
    x.pos == e.pos && NodeCorresponds(e, x, allResolved)
  }

  /** The constructor and the parts of `x` are those the resolver gives `e` (see
      `Corresponds`). */
  predicate NodeCorresponds(e: P.Expr, x: R.Expr, allResolved: bool)
    decreases e, 0
  {
    match e
    case EError(pos) => x.Error?
    case EVar(_, _) => x.Var? || (!allResolved && x.Error?)
    case ENumber(n, _) => x.NumLit? && x.n == n
    case EChar(c, _) => x.Char? && x.c == c
    case EString(s, _) => x.Str? && x.s == s
    case ETuple(items, _) =>
      x.Tuple? && |x.items| == |items| && forall i :: 0 <= i < |items| ==> Corresponds(items[i], x.items[i], allResolved)
    case EFunCall(callee, args, _) =>
      x.FunCall? && Corresponds(callee, x.callee, allResolved)
      && |x.args| == |args| && forall i :: 0 <= i < |args| ==> Corresponds(args[i], x.args[i], allResolved)
    case EMethodCall(recv, name, args, _) =>
      x.MethodCall? && x.methodName == name.data && Corresponds(recv, x.recv, allResolved)
      && |x.args| == |args| && forall i :: 0 <= i < |args| ==> Corresponds(args[i], x.args[i], allResolved)
    case EFieldAccess(inner, field, _) => x.FieldAccess? && x.field == field.data && Corresponds(inner, x.inner, allResolved)
    case EClosedBlock(stmts, pos) =>
      x.Block? && |x.stmts| == |stmts| && (forall i :: 0 <= i < |stmts| ==> Corresponds(stmts[i], x.stmts[i], allResolved))
      && x.last == R.UnitAt(pos)
    case EOpenBlock(stmts, last, _) =>
      x.Block? && |x.stmts| == |stmts| && (forall i :: 0 <= i < |stmts| ==> Corresponds(stmts[i], x.stmts[i], allResolved))
      && Corresponds(last, x.last, allResolved)
    case EReturn(v, pos) => x.Return? && if v.None? then x.value == R.UnitAt(pos) else Corresponds(v.value, x.value, allResolved)
    case ELet(name, isMut, tp, init, _) =>
      x.Let? && x.name == name.data && x.isMut == isMut && (x.tp.Some? <==> tp.Some?)
      && (tp.Some? ==> Mirrors(tp.value, x.tp.value)) && Corresponds(init, x.init, allResolved)
    case EMatch(scrutinee, clauses, _) =>
      x.Match? && Corresponds(scrutinee, x.scrutinee, allResolved) && |x.clauses| == |clauses|
      && forall i :: 0 <= i < |clauses| ==> ClauseCorresponds(clauses[i], x.clauses[i], allResolved)
    case ERef(inner, _) => x.Ref? && Corresponds(inner, x.inner, allResolved)
    case ERefMut(inner, _) => x.RefMut? && Corresponds(inner, x.inner, allResolved)
    case EDeref(inner, _) => x.Deref? && Corresponds(inner, x.inner, allResolved)
    case EIf(cond, th, el, pos) =>
      x.If? && Corresponds(cond, x.cond, allResolved) && Corresponds(th, x.thenBranch, allResolved)
      && if el.None? then x.elseBranch == R.UnitAt(pos) else Corresponds(el.value, x.elseBranch, allResolved)
    case EWhile(cond, body, _) => x.While? && Corresponds(cond, x.cond, allResolved) && Corresponds(body, x.body, allResolved)
    case EStructCons(_, fields, _) =>
      (!allResolved && x.Error?) ||
      (x.StructCons? && FieldsCorrespond(fields, x.fields, allResolved))
    case EAssign(lhs, rhs, _) => x.Assign? && Corresponds(lhs, x.lhs, allResolved) && Corresponds(rhs, x.rhs, allResolved)
    case EArrayInitExact(items, _) =>
      x.ArrayInitExact? && |x.items| == |items| && forall i :: 0 <= i < |items| ==> Corresponds(items[i], x.items[i], allResolved)
    case EArrayInitRepeat(item, n, _) => x.ArrayInitRepeat? && x.size == n && Corresponds(item, x.item, allResolved)
    case EIndexAccess(arr, index, _) => x.IndexAccess? && Corresponds(arr, x.arr, allResolved) && Corresponds(index, x.index, allResolved)
    case ECast(inner, target, _) => x.Cast? && Mirrors(target, x.target) && Corresponds(inner, x.inner, allResolved)
  }

  /** A resolved match clause at the clause's position, its pattern at the pattern's position,
      and its body the translation of the clause's body. */
  predicate ClauseCorresponds(cl: P.Clause, y: R.Clause, allResolved: bool := false)
    decreases cl
  {
    y.pos == cl.pos && y.pattern.pos == cl.pattern.pos && Corresponds(cl.body, y.body, allResolved)
  }

  /** The fields of a resolved struct literal are the names initialised, each holding the
      translation of its last initialiser. */
  predicate FieldsCorrespond(fields: seq<(Ident, P.Expr)>, m: map<string, R.Expr>, allResolved: bool)
    decreases fields
  {
    m.Keys == FieldNames(fields)
    && forall i :: 0 <= i < |fields| && LastOf(fields, i, |fields|) && fields[i].0.data in m ==>
         FieldCorresponds(fields[i], m[fields[i].0.data], allResolved)
  }

  /** A struct literal's field value is the translation of its initialiser. */
  predicate FieldCorresponds(field: (Ident, P.Expr), y: R.Expr, allResolved: bool := false)
    decreases field
  {
    Corresponds(field.1, y, allResolved)
  }

  /** `tr_expr`. A path that does not resolve is reported and becomes an error node. */
  method TrExpr(ctx: Context, env: Env, e: P.Expr) returns (r: Res<R.Expr>)
    modifies ctx, env
    ensures SameTables(env, old(env.currentModule), old(env.nodeMap), old(env.tvarMap))
    ensures old(ctx.diagnostics) <= ctx.diagnostics
    ensures r.Ok? ==> ScopesExtend(old(env.localScopes), env.localScopes) && Corresponds(e, r.value)
    ensures r.Ok? && |ctx.diagnostics| == |old(ctx.diagnostics)| ==> Corresponds(e, r.value, true)
    ensures e.EVar? && old(env.FindSymbol(e.path)).Ok? ==> r == Ok(R.Var(old(env.FindSymbol(e.path)).value, e.pos))
    ensures e.EVar? && old(env.FindSymbol(e.path)).Err? ==>
      r == Ok(R.Error(e.pos)) && ctx.diagnostics == old(ctx.diagnostics) + [old(env.FindSymbol(e.path)).diag]
    decreases e, 4
  {
    if e.EVar? {
      r := TrVar(ctx, env, e);
    } else {
      r := TrCompound(ctx, env, e);
    }
  }

  /** The arms of `tr_expr` other than a path. */
  method TrCompound(ctx: Context, env: Env, e: P.Expr) returns (r: Res<R.Expr>)
    requires !e.EVar?
    modifies ctx, env
    ensures SameTables(env, old(env.currentModule), old(env.nodeMap), old(env.tvarMap))
    ensures old(ctx.diagnostics) <= ctx.diagnostics
    ensures r.Ok? ==> ScopesExtend(old(env.localScopes), env.localScopes) && Corresponds(e, r.value)
    ensures r.Ok? && |ctx.diagnostics| == |old(ctx.diagnostics)| ==> Corresponds(e, r.value, true)
    decreases e, 3
  {
    if e.ELet? {
      r := TrLet(ctx, env, e);
    } else if e.EClosedBlock? || e.EOpenBlock? {
      r := TrBlock(ctx, env, e);
    } else if e.EStructCons? {
      r := TrStructCons(ctx, env, e);
    } else if e.EMatch? {
      r := TrMatch(ctx, env, e);
    } else if e.EIf? {
      r := TrIf(ctx, env, e);
    } else {
      r := TrOther(ctx, env, e);
    }
  }

  /** A path: it becomes the reference it resolves to, or is reported and becomes an error
      node. */
  method TrVar(ctx: Context, env: Env, e: P.Expr) returns (r: Res<R.Expr>)
    requires e.EVar?
    modifies ctx
    ensures old(ctx.diagnostics) <= ctx.diagnostics
    ensures r.Ok? ==> Corresponds(e, r.value)
    ensures r.Ok? && |ctx.diagnostics| == |old(ctx.diagnostics)| ==> Corresponds(e, r.value, true)
    ensures env.FindSymbol(e.path).Ok? ==> r == Ok(R.Var(env.FindSymbol(e.path).value, e.pos))
    ensures env.FindSymbol(e.path).Err? ==>
      r == Ok(R.Error(e.pos)) && ctx.diagnostics == old(ctx.diagnostics) + [env.FindSymbol(e.path).diag]
  {
    var sym := env.FindSymbol(e.path);
    match sym {
      case Ok(s) => r := Ok(R.Var(s, e.pos));
      case Err(d) =>
        ctx.Report(d);
        r := Ok(R.Error(e.pos));
      case Abort(why) => r := Abort(why);
    }
  }

  /** `tr_expr` on a sub-expression, when only the shape of the result matters. */
  method TrSub(ctx: Context, env: Env, e: P.Expr) returns (r: Res<R.Expr>)
    modifies ctx, env
    ensures SameTables(env, old(env.currentModule), old(env.nodeMap), old(env.tvarMap))
    ensures old(ctx.diagnostics) <= ctx.diagnostics
    ensures r.Ok? ==> ScopesExtend(old(env.localScopes), env.localScopes) && Corresponds(e, r.value)
    ensures r.Ok? && |ctx.diagnostics| == |old(ctx.diagnostics)| ==> Corresponds(e, r.value, true)
    decreases e, 5
  {
    r := TrExpr(ctx, env, e);
  }

  /** The arms of `tr_expr` that translate their parts from left to right and rebuild the
      node; the first part that fails ends the translation with its failure. */
  method TrOther(ctx: Context, env: Env, e: P.Expr) returns (r: Res<R.Expr>)
    requires !(e.EVar? || e.ELet? || e.EClosedBlock? || e.EOpenBlock? || e.EStructCons? || e.EMatch? || e.EIf?)
    modifies ctx, env
    ensures SameTables(env, old(env.currentModule), old(env.nodeMap), old(env.tvarMap))
    ensures old(ctx.diagnostics) <= ctx.diagnostics
    ensures r.Ok? ==> ScopesExtend(old(env.localScopes), env.localScopes) && Corresponds(e, r.value)
    ensures r.Ok? && |ctx.diagnostics| == |old(ctx.diagnostics)| ==> Corresponds(e, r.value, true)
    decreases e, 2
  {
    match e
    case EError(pos) => r := Ok(R.Error(pos));
    case ENumber(n, pos) => r := Ok(R.NumLit(n, pos));
    case EChar(c, pos) => r := Ok(R.Char(c, pos));
    case EString(s, pos) => r := Ok(R.Str(s, pos));
    case ETuple(_, _) => r := TrItems(ctx, env, e);
    case EArrayInitExact(_, _) => r := TrItems(ctx, env, e);
    case EFunCall(_, _, _) => r := TrCall(ctx, env, e);
    case EMethodCall(_, _, _, _) => r := TrCall(ctx, env, e);
    case EReturn(_, _) => r := TrUnary(ctx, env, e);
    case EFieldAccess(_, _, _) => r := TrUnary(ctx, env, e);
    case ERef(_, _) => r := TrUnary(ctx, env, e);
    case ERefMut(_, _) => r := TrUnary(ctx, env, e);
    case EDeref(_, _) => r := TrUnary(ctx, env, e);
    case EArrayInitRepeat(_, _, _) => r := TrUnary(ctx, env, e);
    case ECast(_, _, _) => r := TrCast(ctx, env, e);
    case EAssign(_, _, _) => r := TrBinary(ctx, env, e);
    case EWhile(_, _, _) => r := TrBinary(ctx, env, e);
    case EIndexAccess(_, _, _) => r := TrBinary(ctx, env, e);
  }

  /** Tuples and array literals: their items, left to right. */
  method TrItems(ctx: Context, env: Env, e: P.Expr) returns (r: Res<R.Expr>)
    requires e.ETuple? || e.EArrayInitExact?
    modifies ctx, env
    ensures SameTables(env, old(env.currentModule), old(env.nodeMap), old(env.tvarMap))
    ensures old(ctx.diagnostics) <= ctx.diagnostics
    ensures r.Ok? ==> ScopesExtend(old(env.localScopes), env.localScopes) && Corresponds(e, r.value)
    ensures r.Ok? && |ctx.diagnostics| == |old(ctx.diagnostics)| ==> Corresponds(e, r.value, true)
    decreases e, 1
  {
    var xs := TrExprs(ctx, env, e, e.items);
    if !xs.Ok? { return Fail(xs); }
    r := Ok(ItemsNode(e, xs.value));
    ItemsCorrespond(e, xs.value, false);
    if |ctx.diagnostics| == |old(ctx.diagnostics)| { ItemsCorrespond(e, xs.value, true); }
  }

  /** A tuple or an array literal around its translated items. */
  function ItemsNode(e: P.Expr, xs: seq<R.Expr>): R.Expr
    requires e.ETuple? || e.EArrayInitExact?
  {
    if e.ETuple? then R.Tuple(xs, e.pos) else R.ArrayInitExact(xs, e.pos)
  }

  lemma ItemsCorrespond(e: P.Expr, xs: seq<R.Expr>, allResolved: bool)
    requires e.ETuple? || e.EArrayInitExact?
    requires |xs| == |e.items| && forall i :: 0 <= i < |xs| ==> Corresponds(e.items[i], xs[i], allResolved)
    ensures Corresponds(e, ItemsNode(e, xs), allResolved)
  {
  }

  /** Function and method calls: the callee or receiver first, then the arguments. */
  method TrCall(ctx: Context, env: Env, e: P.Expr) returns (r: Res<R.Expr>)
    requires e.EFunCall? || e.EMethodCall?
    modifies ctx, env
    ensures SameTables(env, old(env.currentModule), old(env.nodeMap), old(env.tvarMap))
    ensures old(ctx.diagnostics) <= ctx.diagnostics
    ensures r.Ok? ==> ScopesExtend(old(env.localScopes), env.localScopes) && Corresponds(e, r.value)
    ensures r.Ok? && |ctx.diagnostics| == |old(ctx.diagnostics)| ==> Corresponds(e, r.value, true)
    decreases e, 1
  {
    var head := TrSub(ctx, env, CallHead(e));
    if !head.Ok? { return Fail(head); }
    ghost var mid := env.localScopes;
    ghost var d1 := ctx.diagnostics;
    var xs := TrExprs(ctx, env, e, e.args);
    if !xs.Ok? { return Fail(xs); }
    ScopesExtendTrans(old(env.localScopes), mid, env.localScopes);
    r := Ok(CallNode(e, head.value, xs.value));
    CallCorresponds(e, head.value, xs.value, false);
    if |ctx.diagnostics| == |old(ctx.diagnostics)| {
      assert |d1| == |old(ctx.diagnostics)|;
      CallCorresponds(e, head.value, xs.value, true);
    }
  }

  /** The callee of a function call, or the receiver of a method call. */
  function CallHead(e: P.Expr): (head: P.Expr)
    requires e.EFunCall? || e.EMethodCall?
    ensures head < e
  {
    if e.EFunCall? then e.callee else e.recv
  }

  /** A call rebuilt around its translated callee or receiver and arguments. */
  function CallNode(e: P.Expr, head: R.Expr, xs: seq<R.Expr>): R.Expr
    requires e.EFunCall? || e.EMethodCall?
  {
    if e.EFunCall? then R.FunCall(head, xs, e.pos) else R.MethodCall(head, e.methodName.data, xs, e.pos)
  }

  lemma CallCorresponds(e: P.Expr, head: R.Expr, xs: seq<R.Expr>, allResolved: bool)
    requires e.EFunCall? || e.EMethodCall?
    requires Corresponds(CallHead(e), head, allResolved)
    requires |xs| == |e.args| && forall i :: 0 <= i < |xs| ==> Corresponds(e.args[i], xs[i], allResolved)
    ensures Corresponds(e, CallNode(e, head, xs), allResolved)
  {
  }

  /** The arms with one sub-expression: `return`, field access, `&`, `&mut`, `*` and
      `[x; n]`. */
  method TrUnary(ctx: Context, env: Env, e: P.Expr) returns (r: Res<R.Expr>)
    requires e.EReturn? || e.EFieldAccess? || e.ERef? || e.ERefMut? || e.EDeref? || e.EArrayInitRepeat?
    modifies ctx, env
    ensures SameTables(env, old(env.currentModule), old(env.nodeMap), old(env.tvarMap))
    ensures old(ctx.diagnostics) <= ctx.diagnostics
    ensures r.Ok? ==> ScopesExtend(old(env.localScopes), env.localScopes) && Corresponds(e, r.value)
    ensures r.Ok? && |ctx.diagnostics| == |old(ctx.diagnostics)| ==> Corresponds(e, r.value, true)
    decreases e, 1
  {
    if e.EReturn? && e.value.None? {
      return Ok(R.Return(R.UnitAt(e.pos), e.pos));
    }
    var x := TrSub(ctx, env, UnaryOperand(e));
    if !x.Ok? { return Fail(x); }
    r := Ok(RebuildUnary(e, x.value));
    UnaryCorresponds(e, x.value, false);
    if |ctx.diagnostics| == |old(ctx.diagnostics)| { UnaryCorresponds(e, x.value, true); }
  }

  /** The one sub-expression of a `TrUnary` arm. */
  function UnaryOperand(e: P.Expr): (operand: P.Expr)
    requires e.EReturn? ==> e.value.Some?
    requires e.EReturn? || e.EFieldAccess? || e.ERef? || e.ERefMut? || e.EDeref? || e.EArrayInitRepeat?
    ensures operand < e
  {
    match e
    case EReturn(v, _) => v.value
    case EFieldAccess(inner, _, _) => inner
    case ERef(inner, _) => inner
    case ERefMut(inner, _) => inner
    case EDeref(inner, _) => inner
    case EArrayInitRepeat(item, _, _) => item
  }

  /** A `TrUnary` arm rebuilt around its translated operand. */
  function RebuildUnary(e: P.Expr, x: R.Expr): (y: R.Expr)
    requires e.EReturn? ==> e.value.Some?
    requires e.EReturn? || e.EFieldAccess? || e.ERef? || e.ERefMut? || e.EDeref? || e.EArrayInitRepeat?
  {
    match e
    case EReturn(_, pos) => R.Return(x, pos)
    case EFieldAccess(_, field, pos) => R.FieldAccess(x, field.data, pos)
    case ERef(_, pos) => R.Ref(x, pos)
    case ERefMut(_, pos) => R.RefMut(x, pos)
    case EDeref(_, pos) => R.Deref(x, pos)
    case EArrayInitRepeat(_, size, pos) => R.ArrayInitRepeat(x, size, pos)
  }

  lemma UnaryCorresponds(e: P.Expr, x: R.Expr, allResolved: bool)
    requires e.EReturn? ==> e.value.Some?
    requires e.EReturn? || e.EFieldAccess? || e.ERef? || e.ERefMut? || e.EDeref? || e.EArrayInitRepeat?
    requires Corresponds(UnaryOperand(e), x, allResolved)
    ensures Corresponds(e, RebuildUnary(e, x), allResolved)
  {
    match e
    case EReturn(_, _) => ReturnCorresponds(e, x, allResolved);
    case EFieldAccess(_, _, _) => FieldAccessCorresponds(e, x, allResolved);
    case ERef(_, _) => RefCorresponds(e, x, allResolved);
    case ERefMut(_, _) => RefMutCorresponds(e, x, allResolved);
    case EDeref(_, _) => DerefCorresponds(e, x, allResolved);
    case EArrayInitRepeat(_, _, _) => RepeatCorresponds(e, x, allResolved);
  }

  lemma ReturnCorresponds(e: P.Expr, x: R.Expr, allResolved: bool)
    requires e.EReturn? && e.value.Some? && Corresponds(e.value.value, x, allResolved)
    ensures Corresponds(e, R.Return(x, e.pos), allResolved)
  {
  }

  lemma FieldAccessCorresponds(e: P.Expr, x: R.Expr, allResolved: bool)
    requires e.EFieldAccess? && Corresponds(e.inner, x, allResolved)
    ensures Corresponds(e, R.FieldAccess(x, e.field.data, e.pos), allResolved)
  {
  }

  lemma RefCorresponds(e: P.Expr, x: R.Expr, allResolved: bool)
    requires e.ERef? && Corresponds(e.inner, x, allResolved)
    ensures Corresponds(e, R.Ref(x, e.pos), allResolved)
  {
  }

  lemma RefMutCorresponds(e: P.Expr, x: R.Expr, allResolved: bool)
    requires e.ERefMut? && Corresponds(e.inner, x, allResolved)
    ensures Corresponds(e, R.RefMut(x, e.pos), allResolved)
  {
  }

  lemma DerefCorresponds(e: P.Expr, x: R.Expr, allResolved: bool)
    requires e.EDeref? && Corresponds(e.inner, x, allResolved)
    ensures Corresponds(e, R.Deref(x, e.pos), allResolved)
  {
  }

  lemma RepeatCorresponds(e: P.Expr, x: R.Expr, allResolved: bool)
    requires e.EArrayInitRepeat? && Corresponds(e.item, x, allResolved)
    ensures Corresponds(e, R.ArrayInitRepeat(x, e.size, e.pos), allResolved)
  {
  }

  /** Casts: the operand first, then the target type. */
  method TrCast(ctx: Context, env: Env, e: P.Expr) returns (r: Res<R.Expr>)
    requires e.ECast?
    modifies ctx, env
    ensures SameTables(env, old(env.currentModule), old(env.nodeMap), old(env.tvarMap))
    ensures old(ctx.diagnostics) <= ctx.diagnostics
    ensures r.Ok? ==> ScopesExtend(old(env.localScopes), env.localScopes) && Corresponds(e, r.value)
    ensures r.Ok? && |ctx.diagnostics| == |old(ctx.diagnostics)| ==> Corresponds(e, r.value, true)
    decreases e, 1
  {
    var x := TrSub(ctx, env, e.inner);
    if !x.Ok? { return Fail(x); }
    ghost var d1 := ctx.diagnostics;
    var tp := ReportType(ctx, env, e.target);
    if !tp.Ok? { return Fail(tp); }
    r := Ok(R.Cast(x.value, tp.value, e.pos));
    CastCorresponds(e, x.value, tp.value, false);
    if |ctx.diagnostics| == |old(ctx.diagnostics)| {
      assert |d1| == |old(ctx.diagnostics)|;
      CastCorresponds(e, x.value, tp.value, true);
    }
  }

  lemma CastCorresponds(e: P.Expr, x: R.Expr, tp: Ty.Type, allResolved: bool)
    requires e.ECast? && Corresponds(e.inner, x, allResolved) && Mirrors(e.target, tp)
    ensures Corresponds(e, R.Cast(x, tp, e.pos), allResolved)
  {
  }

  /** The arms with two sub-expressions, translated left to right: assignment, `while` and
      indexing. */
  method TrBinary(ctx: Context, env: Env, e: P.Expr) returns (r: Res<R.Expr>)
    requires e.EAssign? || e.EWhile? || e.EIndexAccess?
    modifies ctx, env
    ensures SameTables(env, old(env.currentModule), old(env.nodeMap), old(env.tvarMap))
    ensures old(ctx.diagnostics) <= ctx.diagnostics
    ensures r.Ok? ==> ScopesExtend(old(env.localScopes), env.localScopes) && Corresponds(e, r.value)
    ensures r.Ok? && |ctx.diagnostics| == |old(ctx.diagnostics)| ==> Corresponds(e, r.value, true)
    decreases e, 1
  {
    var (left, right) := BinaryOperands(e);
    var first := TrSub(ctx, env, left);
    if !first.Ok? { return Fail(first); }
    ghost var mid := env.localScopes;
    ghost var d1 := ctx.diagnostics;
    var second := TrSub(ctx, env, right);
    if !second.Ok? { return Fail(second); }
    ScopesExtendTrans(old(env.localScopes), mid, env.localScopes);
    r := Ok(BinaryNode(e, first.value, second.value));
    BinaryCorresponds(e, first.value, second.value, false);
    if |ctx.diagnostics| == |old(ctx.diagnostics)| {
      assert |d1| == |old(ctx.diagnostics)|;
      BinaryCorresponds(e, first.value, second.value, true);
    }
  }

  /** The two sub-expressions of a `TrBinary` arm, in the order they are translated. */
  function BinaryOperands(e: P.Expr): (operands: (P.Expr, P.Expr))
    requires e.EAssign? || e.EWhile? || e.EIndexAccess?
    ensures operands.0 < e && operands.1 < e
  {
    match e
    case EAssign(lhs, rhs, _) => (lhs, rhs)
    case EWhile(cond, body, _) => (cond, body)
    case EIndexAccess(arr, index, _) => (arr, index)
  }

  /** A `TrBinary` arm rebuilt around its translated operands. */
  function BinaryNode(e: P.Expr, a: R.Expr, b: R.Expr): R.Expr
    requires e.EAssign? || e.EWhile? || e.EIndexAccess?
  {
    match e
    case EAssign(_, _, pos) => R.Assign(a, b, pos)
    case EWhile(_, _, pos) => R.While(a, b, pos)
    case EIndexAccess(_, _, pos) => R.IndexAccess(a, b, pos)
  }

  lemma BinaryCorresponds(e: P.Expr, a: R.Expr, b: R.Expr, allResolved: bool)
    requires e.EAssign? || e.EWhile? || e.EIndexAccess?
    requires Corresponds(BinaryOperands(e).0, a, allResolved) && Corresponds(BinaryOperands(e).1, b, allResolved)
    ensures Corresponds(e, BinaryNode(e, a, b), allResolved)
  {
    match e
    case EAssign(_, _, _) => AssignCorresponds(e, a, b, allResolved);
    case EWhile(_, _, _) => WhileCorresponds(e, a, b, allResolved);
    case EIndexAccess(_, _, _) => IndexCorresponds(e, a, b, allResolved);
  }

  lemma AssignCorresponds(e: P.Expr, a: R.Expr, b: R.Expr, allResolved: bool)
    requires e.EAssign? && Corresponds(e.lhs, a, allResolved) && Corresponds(e.rhs, b, allResolved)
    ensures Corresponds(e, R.Assign(a, b, e.pos), allResolved)
  {
  }

  lemma WhileCorresponds(e: P.Expr, a: R.Expr, b: R.Expr, allResolved: bool)
    requires e.EWhile? && Corresponds(e.cond, a, allResolved) && Corresponds(e.body, b, allResolved)
    ensures Corresponds(e, R.While(a, b, e.pos), allResolved)
  {
  }

  lemma IndexCorresponds(e: P.Expr, a: R.Expr, b: R.Expr, allResolved: bool)
    requires e.EIndexAccess? && Corresponds(e.arr, a, allResolved) && Corresponds(e.index, b, allResolved)
    ensures Corresponds(e, R.IndexAccess(a, b, e.pos), allResolved)
  {
  }

  /** A sequence of expressions, translated in order (`collect` into a `Result`). */
  method TrExprs(ctx: Context, env: Env, node: P.Expr, es: seq<P.Expr>) returns (r: Res<seq<R.Expr>>)
    requires forall k :: 0 <= k < |es| ==> es[k] < node
    modifies ctx, env
    ensures SameTables(env, old(env.currentModule), old(env.nodeMap), old(env.tvarMap))
    ensures old(ctx.diagnostics) <= ctx.diagnostics
    ensures r.Ok? ==> ScopesExtend(old(env.localScopes), env.localScopes)
    ensures r.Ok? ==> |r.value| == |es| && forall i :: 0 <= i < |es| ==> Corresponds(es[i], r.value[i])
    ensures r.Ok? && |ctx.diagnostics| == |old(ctx.diagnostics)| ==>
      forall i :: 0 <= i < |es| ==> Corresponds(es[i], r.value[i], true)
    decreases node, 0
  {
    var out: seq<R.Expr> := [];
    var i := 0;
    while i < |es|
      invariant 0 <= i <= |es| && |out| == i
      invariant forall k :: 0 <= k < i ==> Corresponds(es[k], out[k])
      invariant |ctx.diagnostics| == |old(ctx.diagnostics)| ==> forall k :: 0 <= k < i ==> Corresponds(es[k], out[k], true)
      invariant SameTables(env, old(env.currentModule), old(env.nodeMap), old(env.tvarMap))
      invariant old(ctx.diagnostics) <= ctx.diagnostics
      invariant ScopesExtend(old(env.localScopes), env.localScopes)
    {
      ghost var before := env.localScopes;
      var x := TrSub(ctx, env, es[i]);
      if !x.Ok? { return Fail(x); }
      ScopesExtendTrans(old(env.localScopes), before, env.localScopes);
      out := out + [x.value];
      i := i + 1;
    }
    r := Ok(out);
  }

  /** Blocks open a local scope for their statements and close it afterwards; a closed block
      (ending in `;`) gets `()` as its value. */
  method TrBlock(ctx: Context, env: Env, e: P.Expr) returns (r: Res<R.Expr>)
    requires e.EClosedBlock? || e.EOpenBlock?
    modifies ctx, env
    ensures SameTables(env, old(env.currentModule), old(env.nodeMap), old(env.tvarMap))
    ensures old(ctx.diagnostics) <= ctx.diagnostics
    ensures r.Ok? ==> env.localScopes == old(env.localScopes) && Corresponds(e, r.value)
    ensures r.Ok? && |ctx.diagnostics| == |old(ctx.diagnostics)| ==> Corresponds(e, r.value, true)
    decreases e, 2
  {
    env.NewScope();
    ghost var inner := env.localScopes;
    var xs := TrExprs(ctx, env, e, e.stmts);
    if !xs.Ok? { return Fail(xs); }
    ghost var d1 := ctx.diagnostics;
    var last: R.Expr;
    if e.EOpenBlock? {
      ghost var mid := env.localScopes;
      var x := TrSub(ctx, env, e.last);
      if !x.Ok? { return Fail(x); }
      ScopesExtendTrans(inner, mid, env.localScopes);
      last := x.value;
    } else {
      last := R.UnitAt(e.pos);
    }
    var ok := env.LeaveScope();
    assert ok;
    assert env.localScopes == old(env.localScopes);
    r := Ok(R.Block(xs.value, last, e.pos));
    BlockCorresponds(e, xs.value, last, false);
    if |ctx.diagnostics| == |old(ctx.diagnostics)| {
      assert |d1| == |old(ctx.diagnostics)|;
      BlockCorresponds(e, xs.value, last, true);
    }
  }

  lemma BlockCorresponds(e: P.Expr, xs: seq<R.Expr>, last: R.Expr, allResolved: bool)
    requires e.EClosedBlock? || e.EOpenBlock?
    requires |xs| == |e.stmts| && forall i :: 0 <= i < |xs| ==> Corresponds(e.stmts[i], xs[i], allResolved)
    requires if e.EOpenBlock? then Corresponds(e.last, last, allResolved) else last == R.UnitAt(e.pos)
    ensures Corresponds(e, R.Block(xs, last, e.pos), allResolved)
  {
  }

  /** The optional type annotation of a `let`, resolved and its errors reported. */
  method TrAnnotation(ctx: Context, env: Env, tp: Option<P.RType>) returns (r: Res<Option<Ty.Type>>)
    modifies ctx
    ensures old(ctx.diagnostics) <= ctx.diagnostics
    ensures r.Ok? ==> (r.value.Some? <==> tp.Some?) && (tp.Some? ==> Mirrors(tp.value, r.value.value))
  {
    if tp.None? {
      return Ok(None);
    }
    var t := ReportType(ctx, env, tp.value);
    if !t.Ok? { return Fail(t); }
    r := Ok(Some(t.value));
  }

  /** A one-segment path naming a variable of the innermost scope is that local. */
  lemma FindsInnermost(env: Env, path: Path)
    requires |path| == 1 && |env.localScopes| > 0 && path[0].data in env.localScopes[|env.localScopes| - 1]
    ensures env.FindSymbol(path) == Ok(R.LocalRef(path[0].data))
  {
    assert path[0].data in env.localScopes[|env.localScopes| - 1];
  }

  /** `let`: the name is added to the innermost scope before the annotation and the
      initialiser are translated, so the initialiser already sees it; with no local scope
      open the resolver panics. */
  method TrLet(ctx: Context, env: Env, e: P.Expr) returns (r: Res<R.Expr>)
    requires e.ELet?
    modifies ctx, env
    ensures SameTables(env, old(env.currentModule), old(env.nodeMap), old(env.tvarMap))
    ensures old(ctx.diagnostics) <= ctx.diagnostics
    ensures r.Ok? ==> ScopesExtend(old(env.localScopes), env.localScopes) && Corresponds(e, r.value)
    ensures r.Ok? && |ctx.diagnostics| == |old(ctx.diagnostics)| ==> Corresponds(e, r.value, true)
    ensures old(env.localScopes) == [] ==> r.Abort?
    ensures r.Ok? ==> |env.localScopes| > 0 && e.name.data in env.localScopes[|env.localScopes| - 1]
    ensures r.Ok? && e.init.EVar? && |e.init.path| == 1 && e.init.path[0].data == e.name.data ==>
      r.value.Let? && r.value.init == R.Var(R.LocalRef(e.name.data), e.init.pos)
    decreases e, 2
  {
    var ok := env.AddLocal(e.name.data);
    if !ok { return Abort("cant add without a local scope"); }
    ghost var added := env.localScopes;
    assert ScopesExtend(old(env.localScopes), added);
    var n := |added|;
    assert e.name.data in added[n - 1];
    r := TrLetInit(ctx, env, e);
    if r.Ok? {
      ScopesExtendTrans(old(env.localScopes), added, env.localScopes);
    }
  }

  /** The annotation and the initialiser of a `let` whose name is already in the innermost
      scope. */
  method TrLetInit(ctx: Context, env: Env, e: P.Expr) returns (r: Res<R.Expr>)
    requires e.ELet? && |env.localScopes| > 0 && e.name.data in env.localScopes[|env.localScopes| - 1]
    modifies ctx, env
    ensures SameTables(env, old(env.currentModule), old(env.nodeMap), old(env.tvarMap))
    ensures old(ctx.diagnostics) <= ctx.diagnostics
    ensures r.Ok? ==> ScopesExtend(old(env.localScopes), env.localScopes) && Corresponds(e, r.value)
    ensures r.Ok? && |ctx.diagnostics| == |old(ctx.diagnostics)| ==> Corresponds(e, r.value, true)
    ensures r.Ok? && e.init.EVar? && |e.init.path| == 1 && e.init.path[0].data == e.name.data ==>
      r.value.Let? && r.value.init == R.Var(R.LocalRef(e.name.data), e.init.pos)
    decreases e, 1
  {
    var tp := TrAnnotation(ctx, env, e.tp);
    if !tp.Ok? { return Fail(tp); }
    if e.init.EVar? && |e.init.path| == 1 && e.init.path[0].data == e.name.data {
      FindsInnermost(env, e.init.path);
    }
    ghost var d1 := ctx.diagnostics;
    var init := TrExpr(ctx, env, e.init);
    if !init.Ok? { return Fail(init); }
    r := Ok(LetNode(e, tp.value, init.value));
    LetCorresponds(e, tp.value, init.value, false);
    if |ctx.diagnostics| == |old(ctx.diagnostics)| {
      assert |d1| == |old(ctx.diagnostics)|;
      LetCorresponds(e, tp.value, init.value, true);
    }
  }

  /** The resolved `let` around its resolved annotation and initialiser. */
  function LetNode(e: P.Expr, tp: Option<Ty.Type>, init: R.Expr): (x: R.Expr)
    requires e.ELet? && (tp.Some? <==> e.tp.Some?) && (e.tp.Some? ==> Mirrors(e.tp.value, tp.value))
    ensures x.Let? && x.init == init
  {
    R.Let(e.name.data, e.isMut, tp, init, e.pos)
  }

  lemma LetCorresponds(e: P.Expr, tp: Option<Ty.Type>, init: R.Expr, allResolved: bool)
    requires e.ELet? && (tp.Some? <==> e.tp.Some?) && (e.tp.Some? ==> Mirrors(e.tp.value, tp.value))
    requires Corresponds(e.init, init, allResolved)
    ensures Corresponds(e, LetNode(e, tp, init), allResolved)
  {
  }

  /** `if`: condition, then branch, and the else branch or `()`. */
  method TrIf(ctx: Context, env: Env, e: P.Expr) returns (r: Res<R.Expr>)
    requires e.EIf?
    modifies ctx, env
    ensures SameTables(env, old(env.currentModule), old(env.nodeMap), old(env.tvarMap))
    ensures old(ctx.diagnostics) <= ctx.diagnostics
    ensures r.Ok? ==> ScopesExtend(old(env.localScopes), env.localScopes) && Corresponds(e, r.value)
    ensures r.Ok? && |ctx.diagnostics| == |old(ctx.diagnostics)| ==> Corresponds(e, r.value, true)
    decreases e, 2
  {
    var cond := TrSub(ctx, env, e.cond);
    if !cond.Ok? { return Fail(cond); }
    ghost var s1 := env.localScopes;
    ghost var d1 := ctx.diagnostics;
    var th := TrSub(ctx, env, e.thenBranch);
    if !th.Ok? { return Fail(th); }
    ScopesExtendTrans(old(env.localScopes), s1, env.localScopes);
    ghost var d2 := ctx.diagnostics;
    var el := R.UnitAt(e.pos);
    if e.elseBranch.Some? {
      ghost var s2 := env.localScopes;
      var x := TrSub(ctx, env, e.elseBranch.value);
      if !x.Ok? { return Fail(x); }
      ScopesExtendTrans(old(env.localScopes), s2, env.localScopes);
      el := x.value;
    }
    r := Ok(R.If(cond.value, th.value, el, e.pos));
    IfCorresponds(e, cond.value, th.value, el, false);
    if |ctx.diagnostics| == |old(ctx.diagnostics)| {
      assert |d1| == |d2| == |old(ctx.diagnostics)|;
      IfCorresponds(e, cond.value, th.value, el, true);
    }
  }

  lemma IfCorresponds(e: P.Expr, cond: R.Expr, th: R.Expr, el: R.Expr, allResolved: bool)
    requires e.EIf? && Corresponds(e.cond, cond, allResolved) && Corresponds(e.thenBranch, th, allResolved)
    requires if e.elseBranch.Some? then Corresponds(e.elseBranch.value, el, allResolved) else el == R.UnitAt(e.pos)
    ensures Corresponds(e, R.If(cond, th, el, e.pos), allResolved)
  {
  }

  /** A struct literal: a path that does not resolve is reported and the literal becomes an
      error node; a local name is not a type (the resolver panics). */
  method TrStructCons(ctx: Context, env: Env, e: P.Expr) returns (r: Res<R.Expr>)
    requires e.EStructCons?
    modifies ctx, env
    ensures SameTables(env, old(env.currentModule), old(env.nodeMap), old(env.tvarMap))
    ensures old(ctx.diagnostics) <= ctx.diagnostics
    ensures r.Ok? ==> ScopesExtend(old(env.localScopes), env.localScopes) && Corresponds(e, r.value)
    ensures r.Ok? && |ctx.diagnostics| == |old(ctx.diagnostics)| ==> Corresponds(e, r.value, true)
    ensures old(env.FindSymbol(e.path)).Err? ==>
      r == Ok(R.Error(e.pos)) && ctx.diagnostics == old(ctx.diagnostics) + [old(env.FindSymbol(e.path)).diag]
    ensures old(env.FindSymbol(e.path)).Ok? && old(env.FindSymbol(e.path)).value.LocalRef? ==> r.Abort?
    ensures r.Ok? && old(env.FindSymbol(e.path)).Ok? ==> r.value.StructCons? && r.value.id == old(env.FindSymbol(e.path)).value.id
    decreases e, 2
  {
    var sym := env.FindSymbol(e.path);
    if sym.Err? {
      ctx.Report(sym.diag);
      return Ok(R.Error(e.pos));
    } else if sym.Abort? {
      return Abort(sym.reason);
    }
    match sym.value {
      case LocalRef(_) => r := Abort("local type definitons not supported");
      case GlobalRef(id) =>
        forall k | 0 <= k < |e.fields| ensures e.fields[k].1 < e {
          assert e.fields[k] in e.fields;
        }
        var fields: Res<map<string, R.Expr>>;
        ghost var trs: seq<R.Expr>;
        fields, trs := TrFields(ctx, env, e, e.fields, e.pos);
        if !fields.Ok? { return Fail(fields); }
        r := Ok(R.StructCons(id, fields.value, e.pos));
        StructCorresponds(e, id, fields.value, trs, false);
        if |ctx.diagnostics| == |old(ctx.diagnostics)| {
          StructCorresponds(e, id, fields.value, trs, true);
        }
    }
  }

  lemma StructCorresponds(e: P.Expr, id: NodeID, m: map<string, R.Expr>, trs: seq<R.Expr>, allResolved: bool)
    requires e.EStructCons? && m.Keys == FieldNames(e.fields) && |trs| == |e.fields|
    requires forall i :: 0 <= i < |e.fields| ==> Corresponds(e.fields[i].1, trs[i], allResolved)
    requires forall i :: 0 <= i < |e.fields| && LastOf(e.fields, i, |e.fields|) ==> m[e.fields[i].0.data] == trs[i]
    ensures Corresponds(e, R.StructCons(id, m, e.pos), allResolved)
  {
    assert FieldsCorrespond(e.fields, m, allResolved);
  }

  /** The field initialisers of a struct literal, in order, collected into a map: a name given
      twice keeps its last value and is reported once per repetition. */
  method TrFields(ctx: Context, env: Env, node: P.Expr, fields: seq<(Ident, P.Expr)>, pos: Position)
    returns (r: Res<map<string, R.Expr>>, ghost trs: seq<R.Expr>)
    requires forall k :: 0 <= k < |fields| ==> fields[k].1 < node
    modifies ctx, env
    ensures SameTables(env, old(env.currentModule), old(env.nodeMap), old(env.tvarMap))
    ensures old(ctx.diagnostics) <= ctx.diagnostics
    ensures r.Ok? ==> ScopesExtend(old(env.localScopes), env.localScopes)
    ensures r.Ok? ==> r.value.Keys == FieldNames(fields) && |trs| == |fields|
    ensures r.Ok? ==> forall i :: 0 <= i < |fields| ==> Corresponds(fields[i].1, trs[i])
    ensures r.Ok? && |ctx.diagnostics| == |old(ctx.diagnostics)| ==>
      forall i :: 0 <= i < |fields| ==> Corresponds(fields[i].1, trs[i], true)
    ensures r.Ok? ==> forall i :: 0 <= i < |fields| && LastOf(fields, i, |fields|) ==> r.value[fields[i].0.data] == trs[i]
    ensures r.Ok? ==> forall i :: 0 <= i < |fields| && !FirstOf(fields, i) ==>
      ReportedSince(ctx.diagnostics, |old(ctx.diagnostics)|, Diagnostic(FieldDuplicate(fields[i].0.data), pos))
    decreases node, 1
  {
    r, trs := TrFieldsLoop(ctx, env, node, fields, pos);
    if r.Ok? {
      assert fields[..|fields|] == fields;
    }
  }

  /** The loop of `TrFields`: every initialiser translated in order and inserted. */
  method TrFieldsLoop(ctx: Context, env: Env, node: P.Expr, fields: seq<(Ident, P.Expr)>, pos: Position)
    returns (r: Res<map<string, R.Expr>>, ghost trs: seq<R.Expr>)
    requires forall k :: 0 <= k < |fields| ==> fields[k].1 < node
    modifies ctx, env
    ensures SameTables(env, old(env.currentModule), old(env.nodeMap), old(env.tvarMap))
    ensures old(ctx.diagnostics) <= ctx.diagnostics
    ensures r.Ok? ==> ScopesExtend(old(env.localScopes), env.localScopes)
    ensures r.Ok? ==> FieldsSoFar(fields, |fields|, r.value, trs, ctx.diagnostics, |old(ctx.diagnostics)|, pos)
    decreases node, 0
  {
    var m: map<string, R.Expr> := map[];
    trs := [];
    var i := 0;
    while i < |fields|
      invariant 0 <= i <= |fields|
      invariant FieldsSoFar(fields, i, m, trs, ctx.diagnostics, |old(ctx.diagnostics)|, pos)
      invariant SameTables(env, old(env.currentModule), old(env.nodeMap), old(env.tvarMap))
      invariant old(ctx.diagnostics) <= ctx.diagnostics
      invariant ScopesExtend(old(env.localScopes), env.localScopes)
    {
      ghost var before := env.localScopes;
      var next;
      next, trs := TrField(ctx, env, fields, i, m, trs, pos, |old(ctx.diagnostics)|);
      if !next.Ok? { return Fail(next), trs; }
      ScopesExtendTrans(old(env.localScopes), before, env.localScopes);
      m := next.value;
      i := i + 1;
    }
    r := Ok(m);
  }

  /** What the first `i` field initialisers have produced: the map over their names, their
      translations, the last value of each name in the map, and every repeated name reported
      since index `from`. */
  ghost predicate FieldsSoFar(fields: seq<(Ident, P.Expr)>, i: nat, m: map<string, R.Expr>, trs: seq<R.Expr>,
                              diags: seq<Diagnostic>, from: nat, pos: Position)
    requires i <= |fields|
  {
    |trs| == i && m.Keys == FieldNames(fields[..i])
    && (forall k :: 0 <= k < i && LastOf(fields, k, i) ==> m[fields[k].0.data] == trs[k])
    && (forall k :: 0 <= k < i && !FirstOf(fields, k) ==>
         ReportedSince(diags, from, Diagnostic(FieldDuplicate(fields[k].0.data), pos)))
    && (forall k :: 0 <= k < i ==> Corresponds(fields[k].1, trs[k]))
    && (|diags| == from ==> forall k :: 0 <= k < i ==> Corresponds(fields[k].1, trs[k], true))
  }

  /** One field initialiser: its translation, then its insertion into the map. */
  method TrField(ctx: Context, env: Env, fields: seq<(Ident, P.Expr)>, i: nat, m: map<string, R.Expr>,
                 ghost trs: seq<R.Expr>, pos: Position, ghost from: nat)
    returns (r: Res<map<string, R.Expr>>, ghost trs': seq<R.Expr>)
    requires i < |fields| && from <= |ctx.diagnostics|
    requires FieldsSoFar(fields, i, m, trs, ctx.diagnostics, from, pos)
    modifies ctx, env
    ensures SameTables(env, old(env.currentModule), old(env.nodeMap), old(env.tvarMap))
    ensures old(ctx.diagnostics) <= ctx.diagnostics
    ensures r.Ok? ==> ScopesExtend(old(env.localScopes), env.localScopes)
    ensures r.Ok? ==> FieldsSoFar(fields, i + 1, r.value, trs', ctx.diagnostics, from, pos)
    ensures r.Ok? ==> trs' == trs + [trs'[i]]
    decreases fields[i].1, 6
  {
    trs' := trs;
    var x := TrSub(ctx, env, fields[i].1);
    if !x.Ok? { return Fail(x), trs'; }
    ghost var d1 := ctx.diagnostics;
    var m' := InsertField(ctx, fields, i, m, x.value, pos);
    FieldsSoFarStep(fields, i, m, trs, x.value, old(ctx.diagnostics), d1, from, pos);
    trs' := trs + [x.value];
    r := Ok(m');
  }

  lemma FieldsSoFarStep(fields: seq<(Ident, P.Expr)>, i: nat, m: map<string, R.Expr>, trs: seq<R.Expr>, x: R.Expr,
                        d0: seq<Diagnostic>, d1: seq<Diagnostic>, from: nat, pos: Position)
    requires i < |fields| && FieldsSoFar(fields, i, m, trs, d0, from, pos)
    requires d0 <= d1 && from <= |d0|
    requires Corresponds(fields[i].1, x) && (|d1| == from ==> Corresponds(fields[i].1, x, true))
    ensures FieldsSoFar(fields, i + 1, m[fields[i].0.data := x], trs + [x],
      d1 + (if FirstOf(fields, i) then [] else [Diagnostic(FieldDuplicate(fields[i].0.data), pos)]), from, pos)
  {
    FieldNamesStep(fields, i);
    LastWinsStep(fields, i, m, trs, x);
    DuplicatesStep(fields, i, d0, d1, from, pos);
    CorrespondsStep(fields, i, trs, x, |d0| == from, |d1| == from);
  }
  /** One more translated initialiser keeps the field-by-field correspondence. */
  lemma CorrespondsStep(fields: seq<(Ident, P.Expr)>, i: nat, trs: seq<R.Expr>, x: R.Expr, clean0: bool, clean1: bool)
    requires i < |fields| && |trs| == i
    requires clean1 ==> clean0
    requires forall k :: 0 <= k < i ==> Corresponds(fields[k].1, trs[k])
    requires clean0 ==> forall k :: 0 <= k < i ==> Corresponds(fields[k].1, trs[k], true)
    requires Corresponds(fields[i].1, x) && (clean1 ==> Corresponds(fields[i].1, x, true))
    ensures forall k :: 0 <= k < i + 1 ==> Corresponds(fields[k].1, (trs + [x])[k])
    ensures clean1 ==> forall k :: 0 <= k < i + 1 ==> Corresponds(fields[k].1, (trs + [x])[k], true)
  {
  }

  lemma LastWinsStep(fields: seq<(Ident, P.Expr)>, i: nat, m: map<string, R.Expr>, trs: seq<R.Expr>, x: R.Expr)
    requires i < |fields| && |trs| == i && m.Keys == FieldNames(fields[..i])
    requires forall k :: 0 <= k < i && LastOf(fields, k, i) ==> m[fields[k].0.data] == trs[k]
    ensures forall k :: 0 <= k < i + 1 && LastOf(fields, k, i + 1) ==>
      fields[k].0.data in m[fields[i].0.data := x] && m[fields[i].0.data := x][fields[k].0.data] == (trs + [x])[k]
  {
    var name := fields[i].0.data;
    var m' := m[name := x];
    var trs' := trs + [x];
    forall k | 0 <= k < i + 1 && LastOf(fields, k, i + 1)
      ensures fields[k].0.data in m' && m'[fields[k].0.data] == trs'[k]
    {
      if k < i {
        assert fields[k].0.data != name;
        assert LastOf(fields, k, i);
        EarlierNameKept(fields, i, k, m);
        assert trs'[k] == trs[k];
      }
    }
  }

  /** The name of an earlier initialiser is a key of the map built so far. */
  lemma EarlierNameKept(fields: seq<(Ident, P.Expr)>, i: nat, k: nat, m: map<string, R.Expr>)
    requires k < i <= |fields| && m.Keys == FieldNames(fields[..i])
    ensures fields[k].0.data in m
  {
    assert fields[..i][k] == fields[k];
  }

  lemma DuplicatesStep(fields: seq<(Ident, P.Expr)>, i: nat, d0: seq<Diagnostic>, d1: seq<Diagnostic>, from: nat, pos: Position)
    requires i < |fields| && d0 <= d1 && from <= |d0|
    requires forall k :: 0 <= k < i && !FirstOf(fields, k) ==>
      ReportedSince(d0, from, Diagnostic(FieldDuplicate(fields[k].0.data), pos))
    ensures forall k :: 0 <= k < i + 1 && !FirstOf(fields, k) ==>
      ReportedSince(d1 + (if FirstOf(fields, i) then [] else [Diagnostic(FieldDuplicate(fields[i].0.data), pos)]),
        from, Diagnostic(FieldDuplicate(fields[k].0.data), pos))
  {
    var d2 := d1 + (if FirstOf(fields, i) then [] else [Diagnostic(FieldDuplicate(fields[i].0.data), pos)]);
    forall k | 0 <= k < i + 1 && !FirstOf(fields, k)
      ensures ReportedSince(d2, from, Diagnostic(FieldDuplicate(fields[k].0.data), pos))
    {
      if k < i {
        var j :| from <= j < |d0| && d0[j] == Diagnostic(FieldDuplicate(fields[k].0.data), pos);
        assert d1[j] == d0[j];
        assert d2[j] == d1[j];
      } else {
        assert d2[|d1|] == Diagnostic(FieldDuplicate(fields[i].0.data), pos);
      }
    }
  }

  /** One insertion into the map of a struct literal, reporting a field named twice. */
  method InsertField(ctx: Context, fields: seq<(Ident, P.Expr)>, i: nat, m: map<string, R.Expr>,
                     x: R.Expr, pos: Position)
    returns (m': map<string, R.Expr>)
    requires i < |fields|
    requires m.Keys == FieldNames(fields[..i])
    modifies ctx
    ensures m' == m[fields[i].0.data := x] && m'.Keys == FieldNames(fields[..i + 1])
    ensures ctx.diagnostics == old(ctx.diagnostics) + if FirstOf(fields, i) then [] else [Diagnostic(FieldDuplicate(fields[i].0.data), pos)]
  {
    FieldNamesStep(fields, i);
    var name := fields[i].0.data;
    if name in m {
      ctx.Report(Diagnostic(FieldDuplicate(name), pos));
    }
    m' := m[name := x];
  }

  /** `d` is among the diagnostics reported from index `from` on. */
  ghost predicate ReportedSince(diags: seq<Diagnostic>, from: nat, d: Diagnostic)
  {
    exists j :: from <= j < |diags| && diags[j] == d
  }

  /** Field `i` is not named again before position `end`. */
  predicate LastOf(fields: seq<(Ident, P.Expr)>, i: nat, end: nat)
    requires i < |fields| && end <= |fields|
  {
    forall j :: i < j < end ==> fields[j].0.data != fields[i].0.data
  }

  /** Field `i` is the first to carry its name. */
  predicate FirstOf(fields: seq<(Ident, P.Expr)>, i: nat)
    requires i < |fields|
  {
    forall j :: 0 <= j < i ==> fields[j].0.data != fields[i].0.data
  }

  lemma FieldNamesStep(fields: seq<(Ident, P.Expr)>, i: nat)
    requires i < |fields|
    ensures FieldNames(fields[..i + 1]) == FieldNames(fields[..i]) + {fields[i].0.data}
    ensures fields[i].0.data in FieldNames(fields[..i]) <==> !FirstOf(fields, i)
  {
    assert fields[..i + 1] == fields[..i] + [fields[i]];
    if !FirstOf(fields, i) {
      var j :| 0 <= j < i && fields[j].0.data == fields[i].0.data;
      assert fields[..i][j] == fields[j];
    }
  }

  /** `match`: the scrutinee, then each clause in its own local scope. */
  method TrMatch(ctx: Context, env: Env, e: P.Expr) returns (r: Res<R.Expr>)
    requires e.EMatch?
    modifies ctx, env
    ensures SameTables(env, old(env.currentModule), old(env.nodeMap), old(env.tvarMap))
    ensures old(ctx.diagnostics) <= ctx.diagnostics
    ensures r.Ok? ==> ScopesExtend(old(env.localScopes), env.localScopes) && Corresponds(e, r.value)
    ensures r.Ok? && |ctx.diagnostics| == |old(ctx.diagnostics)| ==> Corresponds(e, r.value, true)
    decreases e, 2
  {
    var scrut := TrSub(ctx, env, e.scrutinee);
    if !scrut.Ok? { return Fail(scrut); }
    ghost var d1 := ctx.diagnostics;
    forall k | 0 <= k < |e.clauses| ensures e.clauses[k] < e {
      assert e.clauses[k] in e.clauses;
    }
    var cls := TrClauses(ctx, env, e, e.clauses);
    if !cls.Ok? { return Fail(cls); }
    r := Ok(R.Match(scrut.value, cls.value, e.pos));
    MatchCorresponds(e, scrut.value, cls.value, false);
    if |ctx.diagnostics| == |old(ctx.diagnostics)| {
      assert |d1| == |old(ctx.diagnostics)|;
      MatchCorresponds(e, scrut.value, cls.value, true);
    }
  }

  /** The clauses of a `match`, in order, each in its own local scope. */
  method TrClauses(ctx: Context, env: Env, node: P.Expr, cls: seq<P.Clause>) returns (r: Res<seq<R.Clause>>)
    requires forall k :: 0 <= k < |cls| ==> cls[k] < node
    modifies ctx, env
    ensures SameTables(env, old(env.currentModule), old(env.nodeMap), old(env.tvarMap))
    ensures old(ctx.diagnostics) <= ctx.diagnostics
    ensures r.Ok? ==> env.localScopes == old(env.localScopes)
    ensures r.Ok? ==> |r.value| == |cls| && forall i :: 0 <= i < |cls| ==> ClauseCorresponds(cls[i], r.value[i])
    ensures r.Ok? && |ctx.diagnostics| == |old(ctx.diagnostics)| ==>
      forall i :: 0 <= i < |cls| ==> ClauseCorresponds(cls[i], r.value[i], true)
    decreases node, 1
  {
    var out: seq<R.Clause> := [];
    var i := 0;
    while i < |cls|
      invariant 0 <= i <= |cls| && |out| == i
      invariant forall k :: 0 <= k < i ==> ClauseCorresponds(cls[k], out[k])
      invariant |ctx.diagnostics| == |old(ctx.diagnostics)| ==> forall k :: 0 <= k < i ==> ClauseCorresponds(cls[k], out[k], true)
      invariant SameTables(env, old(env.currentModule), old(env.nodeMap), old(env.tvarMap))
      invariant old(ctx.diagnostics) <= ctx.diagnostics
      invariant env.localScopes == old(env.localScopes)
    {
      var cl := TrClause(ctx, env, cls[i]);
      if !cl.Ok? { return Fail(cl); }
      out := out + [cl.value];
      i := i + 1;
    }
    r := Ok(out);
  }

  lemma MatchCorresponds(e: P.Expr, scrut: R.Expr, cls: seq<R.Clause>, allResolved: bool)
    requires e.EMatch? && Corresponds(e.scrutinee, scrut, allResolved) && |cls| == |e.clauses|
    requires forall k :: 0 <= k < |cls| ==> ClauseCorresponds(e.clauses[k], cls[k], allResolved)
    ensures Corresponds(e, R.Match(scrut, cls, e.pos), allResolved)
  {
  }

  /** `tr_clause`: the pattern's variables go into a fresh local scope that the body sees and
      that is closed again afterwards. */
  method TrClause(ctx: Context, env: Env, cl: P.Clause) returns (r: Res<R.Clause>)
    modifies ctx, env
    ensures SameTables(env, old(env.currentModule), old(env.nodeMap), old(env.tvarMap))
    ensures old(ctx.diagnostics) <= ctx.diagnostics
    ensures r.Ok? ==> env.localScopes == old(env.localScopes)
    ensures r.Ok? ==> ClauseCorresponds(cl, r.value)
    ensures r.Ok? && |ctx.diagnostics| == |old(ctx.diagnostics)| ==> ClauseCorresponds(cl, r.value, true)
    decreases cl, 0
  {
    env.NewScope();
    ghost var inner := env.localScopes;
    var pat := TrPattern(ctx, env, cl.pattern);
    if !pat.Ok? { return Fail(pat); }
    ghost var mid := env.localScopes;
    var body := TrSub(ctx, env, cl.body);
    if !body.Ok? { return Fail(body); }
    ScopesExtendTrans(inner, mid, env.localScopes);
    var ok := env.LeaveScope();
    assert ok;
    assert env.localScopes == old(env.localScopes);
    r := Ok(R.Clause(pat.value, body.value, cl.pos));
  }

  /** The variables a resolved pattern binds. */
  function BoundVars(p: R.Pattern): (s: set<string>)
    ensures p.PVar? ==> s == {p.name}
    ensures p.PError? || p.PWildcard? || p.PNumber? ==> s == {}
  {
    match p
    case PVar(name, _) => {name}
    case PTuple(items, _) => set i, x | 0 <= i < |items| && x in BoundVars(items[i]) :: x
    case PTupleCons(_, items, _) => set i, x | 0 <= i < |items| && x in BoundVars(items[i]) :: x
    case _ => {}
  }

  /** `tr_pattern`: a variable is added to the innermost local scope (the resolver panics with
      none open); a constructor path is resolved, and one that names a local variable or does
      not resolve is reported and becomes an error pattern. Every variable the resulting
      pattern binds is then in scope. */
  method TrPattern(ctx: Context, env: Env, p: P.Pattern) returns (r: Res<R.Pattern>)
    modifies ctx, env
    ensures SameTables(env, old(env.currentModule), old(env.nodeMap), old(env.tvarMap))
    ensures old(ctx.diagnostics) <= ctx.diagnostics
    ensures r.Ok? ==> ScopesExtend(old(env.localScopes), env.localScopes) && r.value.pos == p.pos
    ensures r.Ok? && old(env.localScopes) != [] ==> BoundVars(r.value) <= env.localScopes[|env.localScopes| - 1]
    ensures p.PVar? ==> (r.Ok? <==> old(env.localScopes) != []) && (r.Ok? ==> r.value == R.PVar(p.name.data, p.pos))
    ensures p.PTupleCons? && old(env.FindSymbol(p.path)).Ok? && old(env.FindSymbol(p.path)).value.LocalRef? ==>
      r == Ok(R.PError(p.pos)) && ctx.diagnostics == old(ctx.diagnostics) + [Diagnostic(LocalType, p.pos)]
    ensures p.PTupleCons? && old(env.FindSymbol(p.path)).Err? ==>
      r == Ok(R.PError(p.pos)) && ctx.diagnostics == old(ctx.diagnostics) + [old(env.FindSymbol(p.path)).diag]
    decreases p, 1
  {
    match p
    case PWildcard(pos) => r := Ok(R.PWildcard(pos));
    case PNumber(n, pos) => r := Ok(R.PNumber(n, pos));
    case PVar(name, pos) =>
      var ok := env.AddLocal(name.data);
      if !ok { return Abort("cant add without a local scope"); }
      r := Ok(R.PVar(name.data, pos));
    case PTuple(items, pos) =>
      var xs := TrPatterns(ctx, env, p, items);
      if !xs.Ok? { return Fail(xs); }
      r := Ok(R.PTuple(xs.value, pos));
    case PTupleCons(path, items, pos) =>
      var sym := env.FindSymbol(path);
      if sym.Err? {
        ctx.Report(sym.diag);
        return Ok(R.PError(pos));
      } else if sym.Abort? {
        return Abort(sym.reason);
      }
      match sym.value {
        case LocalRef(_) =>
          ctx.Report(Diagnostic(LocalType, pos));
          r := Ok(R.PError(pos));
        case GlobalRef(id) =>
          var xs := TrPatterns(ctx, env, p, items);
          if !xs.Ok? { return Fail(xs); }
          r := Ok(R.PTupleCons(id, xs.value, pos));
      }
  }

  /** The sub-patterns of a tuple or constructor pattern, in order. */
  method TrPatterns(ctx: Context, env: Env, node: P.Pattern, ps: seq<P.Pattern>) returns (r: Res<seq<R.Pattern>>)
    requires forall k :: 0 <= k < |ps| ==> ps[k] < node
    modifies ctx, env
    ensures SameTables(env, old(env.currentModule), old(env.nodeMap), old(env.tvarMap))
    ensures old(ctx.diagnostics) <= ctx.diagnostics
    ensures r.Ok? ==> ScopesExtend(old(env.localScopes), env.localScopes) && |r.value| == |ps|
    ensures r.Ok? ==> forall i :: 0 <= i < |ps| ==> r.value[i].pos == ps[i].pos
    ensures r.Ok? && old(env.localScopes) != [] ==>
      forall i :: 0 <= i < |ps| ==> BoundVars(r.value[i]) <= env.localScopes[|env.localScopes| - 1]
    decreases node, 0
  {
    var out: seq<R.Pattern> := [];
    var i := 0;
    while i < |ps|
      invariant 0 <= i <= |ps| && |out| == i
      invariant forall k :: 0 <= k < i ==> out[k].pos == ps[k].pos
      invariant SameTables(env, old(env.currentModule), old(env.nodeMap), old(env.tvarMap))
      invariant old(ctx.diagnostics) <= ctx.diagnostics
      invariant ScopesExtend(old(env.localScopes), env.localScopes)
      invariant old(env.localScopes) != [] ==>
        forall k :: 0 <= k < i ==> BoundVars(out[k]) <= env.localScopes[|env.localScopes| - 1]
    {
      ghost var before := env.localScopes;
      var x := TrPattern(ctx, env, ps[i]);
      if !x.Ok? { return Fail(x); }
      ScopesExtendTrans(old(env.localScopes), before, env.localScopes);
      out := out + [x.value];
      i := i + 1;
    }
    r := Ok(out);
  }
}
