/** Name resolution of declarations (src/resolve/mod.rs:17-312): type variables for structs and
    enums, the symbol and type records of every declaration, and the resolved functions. */
module Resolve {
  import opened Wrappers
  import opened Common
  import opened NodeIds
  import opened TVars
  import opened SymInfos
  import opened ResolveEnv
  import opened ResolveExpr
  import Ty = Types
  import R = ResolvedAst
  import P = ParsedAst
  import T = ModTreeAst

  // ---------------------------------------------------------------------------------------
  // Type variables (generate_tvars, get_tvar_maybe_builtin)
  // ---------------------------------------------------------------------------------------

  predicate IsBuiltinAttr(a: P.Attribute)
  {
    a.name.data == "builtin"
  }

  /** The name a `#[builtin(name)]` attribute gives, scanning the attributes in order: the last
      such attribute wins, and the first one without an argument panics (`args[0]`). */
  function BuiltinName(attrs: seq<P.Attribute>): (r: Panicking<Option<Ident>>)
    ensures r.Value? && r.value.Some? ==> |attrs| > 0
  {
    if attrs == [] then Value(None)
    else
      var n := |attrs|;
      var prev := BuiltinName(attrs[..n - 1]);
      if prev.Panic? then prev
      else if !IsBuiltinAttr(attrs[n - 1]) then prev
      else if attrs[n - 1].args == [] then Panic("index out of bounds: the len is 0 but the index is 0")
      else Value(Some(attrs[n - 1].args[0]))
  }

  /** What the scan finds: a panic exactly when some `builtin` attribute has no argument;
      nothing exactly when there is no `builtin` attribute; otherwise the first argument of the
      last one. */
  lemma BuiltinNameSpec(attrs: seq<P.Attribute>)
    ensures BuiltinName(attrs).Panic? <==> exists i :: 0 <= i < |attrs| && IsBuiltinAttr(attrs[i]) && attrs[i].args == []
    ensures BuiltinName(attrs) == Value(None) <==> forall i :: 0 <= i < |attrs| ==> !IsBuiltinAttr(attrs[i])
    ensures BuiltinName(attrs).Value? && BuiltinName(attrs).value.Some? ==>
      exists i :: 0 <= i < |attrs| && IsBuiltinAttr(attrs[i]) && LastBuiltin(attrs, i)
        && attrs[i].args != [] && BuiltinName(attrs).value.value == attrs[i].args[0]
  {
    BuiltinPanics(attrs);
    BuiltinNone(attrs);
    BuiltinFound(attrs);
  }

  /** The scan panics exactly when some `builtin` attribute has no argument. */
  lemma {:induction false} BuiltinPanics(attrs: seq<P.Attribute>)
    ensures BuiltinName(attrs).Panic? <==> exists i :: 0 <= i < |attrs| && IsBuiltinAttr(attrs[i]) && attrs[i].args == []
  {
    if attrs != [] {
      var n := |attrs|;
      var init := attrs[..n - 1];
      BuiltinPanics(init);
      assert forall i :: 0 <= i < n - 1 ==> init[i] == attrs[i];
    }
  }

  /** The scan finds nothing exactly when there is no `builtin` attribute. */
  lemma {:induction false} BuiltinNone(attrs: seq<P.Attribute>)
    ensures BuiltinName(attrs) == Value(None) <==> forall i :: 0 <= i < |attrs| ==> !IsBuiltinAttr(attrs[i])
  {
    if attrs != [] {
      var n := |attrs|;
      var init := attrs[..n - 1];
      BuiltinNone(init);
      assert forall i :: 0 <= i < n - 1 ==> init[i] == attrs[i];
    }
  }

  /** A name found is the first argument of the last `builtin` attribute. */
  lemma {:induction false} BuiltinFound(attrs: seq<P.Attribute>)
    ensures BuiltinName(attrs).Value? && BuiltinName(attrs).value.Some? ==>
      exists i :: 0 <= i < |attrs| && IsBuiltinAttr(attrs[i]) && LastBuiltin(attrs, i)
        && attrs[i].args != [] && BuiltinName(attrs).value.value == attrs[i].args[0]
  {
    if attrs != [] {
      var n := |attrs|;
      var init := attrs[..n - 1];
      BuiltinFound(init);
      var r := BuiltinName(attrs);
      if BuiltinName(init).Value? && !IsBuiltinAttr(attrs[n - 1]) && r.value.Some? {
        var i :| 0 <= i < n - 1 && IsBuiltinAttr(init[i]) && LastBuiltin(init, i)
          && init[i].args != [] && r.value.value == init[i].args[0];
        assert init[i] == attrs[i];
        assert LastBuiltin(attrs, i);
      }
      if r.Value? && r.value.Some? && IsBuiltinAttr(attrs[n - 1]) {
        assert LastBuiltin(attrs, n - 1);
      }
    }
  }

  /** No `builtin` attribute follows position `i`. */
  predicate LastBuiltin(attrs: seq<P.Attribute>, i: nat)
  {
    forall j :: i < j < |attrs| ==> !IsBuiltinAttr(attrs[j])
  }

  /** `get_tvar_maybe_builtin`: the reserved type variable of a builtin type, or a fresh one. */
  method GetTvarMaybeBuiltin(gen: TVarGen, attrs: seq<P.Attribute>) returns (r: Panicking<TVar>)
    requires gen.Valid()
    modifies gen
    ensures gen.Valid()
    ensures BuiltinName(attrs).Panic? ==> r.Panic? && gen.counter == old(gen.counter)
    ensures BuiltinName(attrs).Value? && BuiltinName(attrs).value.Some? ==>
      r == OfBuiltin(BuiltinName(attrs).value.value.data) && gen.counter == old(gen.counter)
    ensures BuiltinName(attrs) == Value(None) ==>
      r == Value(TVar(gen.counter, Proper)) && gen.counter == old(gen.counter) + 1
  {
    var name: Option<Ident> := None;
    var i := 0;
    while i < |attrs|
      invariant 0 <= i <= |attrs|
      invariant BuiltinName(attrs[..i]) == Value(name)
    {
      assert attrs[..i + 1][..i] == attrs[..i];
      if IsBuiltinAttr(attrs[i]) {
        if attrs[i].args == [] {
          assert attrs[..i + 1][i] == attrs[i];
          BuiltinNameSpec(attrs[..i + 1]);
          BuiltinNameSpec(attrs);
          return Panic("index out of bounds: the len is 0 but the index is 0");
        }
        name := Some(attrs[i].args[0]);
      }
      i := i + 1;
    }
    assert attrs[..i] == attrs;
    if name.Some? {
      r := OfBuiltin(name.value.data);
    } else {
      var tv := gen.New(Proper);
      r := Value(tv);
    }
  }

  /** The ids of the structs and enums declared in `items` and their submodules: the
      declarations that get a type variable. */
  function TypeIdsOf(items: seq<T.ModuleItem>): set<NodeID>
    decreases items, 1
  {
    set i, id | 0 <= i < |items| && id in ItemTypeIds(items[i]) :: id
  }

  function ItemTypeIds(item: T.ModuleItem): set<NodeID>
    decreases item, 0
  {
    match item
    case SubModule(sub) => TypeIdsOf(sub.items)
    case FuncItem(_) => {}
    case StructItem(s) => {s.id}
    case EnumItem(e) => {e.id}
  }

  lemma TypeIdsOfSnoc(items: seq<T.ModuleItem>, i: nat)
    requires i < |items|
    ensures TypeIdsOf(items[..i + 1]) == TypeIdsOf(items[..i]) + ItemTypeIds(items[i])
  {
    assert forall k :: 0 <= k < i ==> items[..i + 1][k] == items[..i][k];
    assert items[..i + 1][i] == items[i];
  }

  /** `generate_tvars`: every struct and enum of the module tree, and nothing else, gets a type
      variable; the entries already in the map for other ids are kept. */
  method GenerateTvars(gen: TVarGen, tvars: map<NodeID, TVar>, m: T.Module)
    returns (r: Panicking<map<NodeID, TVar>>)
    requires gen.Valid()
    modifies gen
    ensures gen.Valid() && gen.counter >= old(gen.counter)
    ensures r.Value? ==> r.value.Keys == tvars.Keys + TypeIdsOf(m.items)
    ensures r.Value? ==> forall id :: id in tvars && id !in TypeIdsOf(m.items) ==> r.value[id] == tvars[id]
    ensures r.Value? ==> forall id :: id in TypeIdsOf(m.items) ==> r.value[id].kind == Proper
    decreases m
  {
    var items := m.items;
    var acc := tvars;
    var i := 0;
    while i < |items|
      invariant 0 <= i <= |items|
      invariant gen.Valid() && gen.counter >= old(gen.counter)
      invariant acc.Keys == tvars.Keys + TypeIdsOf(items[..i])
      invariant forall id :: id in tvars && id !in TypeIdsOf(items[..i]) ==> acc[id] == tvars[id]
      invariant forall id :: id in TypeIdsOf(items[..i]) ==> acc[id].kind == Proper
    {
      TypeIdsOfSnoc(items, i);
      assert items[i] in m.items;
      var next := GenerateItemTvars(gen, acc, items[i]);
      if next.Panic? { return Panic(next.reason); }
      acc := next.value;
      i := i + 1;
    }
    assert items[..i] == items;
    r := Value(acc);
  }

  /** One item of `generate_tvars`. */
  method GenerateItemTvars(gen: TVarGen, tvars: map<NodeID, TVar>, item: T.ModuleItem)
    returns (r: Panicking<map<NodeID, TVar>>)
    requires gen.Valid()
    modifies gen
    ensures gen.Valid() && gen.counter >= old(gen.counter)
    ensures r.Value? ==> r.value.Keys == tvars.Keys + ItemTypeIds(item)
    ensures r.Value? ==> forall id :: id in tvars && id !in ItemTypeIds(item) ==> r.value[id] == tvars[id]
    ensures r.Value? ==> forall id :: id in ItemTypeIds(item) ==> r.value[id].kind == Proper
    decreases item
  {
    match item {
      case SubModule(sub) =>
        r := GenerateTvars(gen, tvars, sub);
      case FuncItem(_) =>
        r := Value(tvars);
      case StructItem(s) =>
        var tv := GetTvarMaybeBuiltin(gen, s.attributes);
        if tv.Panic? { return Panic(tv.reason); }
        r := Value(tvars[s.id := tv.value]);
      case EnumItem(e) =>
        var tv := GetTvarMaybeBuiltin(gen, e.attributes);
        if tv.Panic? { return Panic(tv.reason); }
        r := Value(tvars[e.id := tv.value]);
    }
  }

  // ---------------------------------------------------------------------------------------
  // Functions (tr_func)
  // ---------------------------------------------------------------------------------------

  /** A `self` parameter in one of its three forms. */
  predicate IsSelf(a: P.FnArg)
  {
    !a.Named?
  }

  predicate HasSelf(args: seq<P.FnArg>)
  {
    exists i :: 0 <= i < |args| && IsSelf(args[i])
  }

  /** The resolved parameter `x` is what the resolver makes of `a` inside the type `parent`
      (when it has one): a named parameter keeps its name, mutability and type syntax, and
      `self`, `&self` and `&mut self` get the type `Self`, a pointer to it, or a mutable one. */
  predicate ArgMatches(a: P.FnArg, x: R.FnArg, parent: Option<(TVar, string)>)
  {
    x.pos == a.pos &&
    match a
    case Named(isMut, name, tp, _) => x.isMut == isMut && x.name == name.data && Mirrors(tp, x.tp)
    case NSelf(isMut, _) =>
      parent.Some? && x == R.FnArg(isMut, "self", Ty.NamedVar(parent.value.0, parent.value.1), a.pos)
    case PtrSelf(_) =>
      parent.Some? && x == R.FnArg(false, "self", Ty.Ptr(Ty.NamedVar(parent.value.0, parent.value.1)), a.pos)
    case MutPtrSelf(_) =>
      parent.Some? && x == R.FnArg(false, "self", Ty.MutPtr(Ty.NamedVar(parent.value.0, parent.value.1)), a.pos)
  }

  /** The declared return type, or `()` when there is none. */
  predicate RetMatches(rt: Option<P.RType>, t: Ty.Type)
  {
    if rt.Some? then Mirrors(rt.value, t) else t == Ty.Unit()
  }

  function ArgTypes(args: seq<R.FnArg>): (tps: seq<Ty.Type>)
    ensures |tps| == |args| && forall i :: 0 <= i < |args| ==> tps[i] == args[i].tp
  {
    seq(|args|, i requires 0 <= i < |args| => args[i].tp)
  }

  /** The symbol record of a function: its name, position and signature, extern and mangling
      as its attributes say. */
  function FuncInfo(f: T.Func, args: seq<R.FnArg>, ret: Ty.Type): SymInfo
  {
    SymInfo(f.name.data, f.pos, FuncSym(ArgTypes(args), ret), None,
            HasAttr(f.attributes, "extern"), !HasAttr(f.attributes, "no_mangle"))
  }

  /** The parameters of a function, in order: each name is added to the function's scope
      before its type is resolved; a `self` parameter outside a struct or enum is reported and
      ends the translation with `None`. */
  method TrArgs(ctx: Context, env: Env, args: seq<P.FnArg>, parent: Option<(TVar, string)>)
    returns (r: Res<Option<seq<R.FnArg>>>)
    requires env.localScopes != []
    modifies ctx, env
    ensures SameTables(env, old(env.currentModule), old(env.nodeMap), old(env.tvarMap))
    ensures old(ctx.diagnostics) <= ctx.diagnostics
    ensures r.Ok? ==> ScopesExtend(old(env.localScopes), env.localScopes)
    ensures r.Ok? && parent.Some? ==> r.value.Some?
    ensures r.Ok? && parent.None? ==> (r.value.None? <==> HasSelf(args))
    ensures r.Ok? && r.value.Some? ==> (|r.value.value| == |args|
      && (forall i :: 0 <= i < |args| ==> ArgMatches(args[i], r.value.value[i], parent))
      && (forall i :: 0 <= i < |args| ==> r.value.value[i].name in env.localScopes[|env.localScopes| - 1]))
    ensures r.Ok? && r.value.None? ==> ("self" in env.localScopes[|env.localScopes| - 1]
      && |ctx.diagnostics| > 0
      && exists i :: 0 <= i < |args| && IsSelf(args[i]) && ctx.diagnostics[|ctx.diagnostics| - 1] == Diagnostic(SelfOnFreeFunction, args[i].pos))
  {
    var out: seq<R.FnArg> := [];
    var i := 0;
    while i < |args|
      invariant 0 <= i <= |args| && |out| == i
      invariant SameTables(env, old(env.currentModule), old(env.nodeMap), old(env.tvarMap))
      invariant old(ctx.diagnostics) <= ctx.diagnostics
      invariant ScopesExtend(old(env.localScopes), env.localScopes)
      invariant forall k :: 0 <= k < i ==> ArgMatches(args[k], out[k], parent)
      invariant forall k :: 0 <= k < i ==> out[k].name in env.localScopes[|env.localScopes| - 1]
      invariant parent.None? ==> forall k :: 0 <= k < i ==> !IsSelf(args[k])
    {
      var name := if args[i].Named? then args[i].name.data else "self";
      ghost var before := env.localScopes;
      var ok := env.AddLocal(name);
      assert ok;
      assert ScopesExtend(before, env.localScopes);
      ScopesExtendTrans(old(env.localScopes), before, env.localScopes);
      var x: R.FnArg;
      match args[i] {
        case Named(isMut, _, tp, pos) =>
          var t := ReportType(ctx, env, tp);
          if !t.Ok? { return Fail(t); }
          x := R.FnArg(isMut, name, t.value, pos);
        case NSelf(isMut, pos) =>
          if parent.None? {
            ctx.Report(Diagnostic(SelfOnFreeFunction, pos));
            return Ok(None);
          }
          x := R.FnArg(isMut, name, Ty.NamedVar(parent.value.0, parent.value.1), pos);
        case PtrSelf(pos) =>
          if parent.None? {
            ctx.Report(Diagnostic(SelfOnFreeFunction, pos));
            return Ok(None);
          }
          x := R.FnArg(false, name, Ty.Ptr(Ty.NamedVar(parent.value.0, parent.value.1)), pos);
        case MutPtrSelf(pos) =>
          if parent.None? {
            ctx.Report(Diagnostic(SelfOnFreeFunction, pos));
            return Ok(None);
          }
          x := R.FnArg(false, name, Ty.MutPtr(Ty.NamedVar(parent.value.0, parent.value.1)), pos);
      }
      out := out + [x];
      i := i + 1;
    }
    r := Ok(Some(out));
  }

  /** The part of `tr_func` before the body: a new local scope, the return type, then the
      parameters. */
  method TrSignature(ctx: Context, env: Env, f: T.Func, parent: Option<(TVar, string)>)
    returns (r: Res<Option<(seq<R.FnArg>, Ty.Type)>>)
    modifies ctx, env
    ensures SameTables(env, old(env.currentModule), old(env.nodeMap), old(env.tvarMap))
    ensures old(ctx.diagnostics) <= ctx.diagnostics
    ensures r.Ok? ==> (|env.localScopes| == |old(env.localScopes)| + 1
      && env.localScopes[..|old(env.localScopes)|] == old(env.localScopes))
    ensures r.Ok? ==> (r.value.None? <==> parent.None? && HasSelf(f.args))
    ensures r.Ok? && r.value.Some? ==> (|r.value.value.0| == |f.args| && RetMatches(f.retType, r.value.value.1)
      && (forall i :: 0 <= i < |f.args| ==> ArgMatches(f.args[i], r.value.value.0[i], parent)))
    ensures r.Ok? && r.value.None? ==> ("self" in env.localScopes[|env.localScopes| - 1]
      && |ctx.diagnostics| > 0
      && exists i :: 0 <= i < |f.args| && IsSelf(f.args[i]) && ctx.diagnostics[|ctx.diagnostics| - 1] == Diagnostic(SelfOnFreeFunction, f.args[i].pos))
  {
    env.NewScope();
    ghost var inner := env.localScopes;
    var ret := Ty.Unit();
    if f.retType.Some? {
      var t := ReportType(ctx, env, f.retType.value);
      if !t.Ok? { return Fail(t); }
      ret := t.value;
    }
    var args := TrArgs(ctx, env, f.args, parent);
    if !args.Ok? { return Fail(args); }
    assert env.localScopes[..|old(env.localScopes)|] == old(env.localScopes) by {
      assert forall k :: 0 <= k < |old(env.localScopes)| ==> env.localScopes[k] == inner[k];
    }
    if args.value.None? {
      return Ok(None);
    }
    r := Ok(Some((args.value.value, ret)));
  }

  /** The part of `tr_func` after the parameters: the function's symbol record, then its body;
      a function without a body is reported unless it is `extern`, and yields `None`. Either
      way the function's scope is closed. */
  method TrFuncBody(ctx: Context, env: Env, f: T.Func, args: seq<R.FnArg>, ret: Ty.Type)
    returns (r: Res<Option<R.Func>>, ghost mid: seq<Diagnostic>)
    requires env.localScopes != []
    modifies ctx, env
    ensures env.currentModule == old(env.currentModule) && env.tvarMap == old(env.tvarMap)
    ensures env.nodeMap == old(env.nodeMap)[f.id := FuncInfo(f, args, ret)]
    ensures old(ctx.diagnostics) == mid && mid <= ctx.diagnostics
    ensures f.body.None? ==> (r == Ok(None)
      && ctx.diagnostics == mid + (if HasAttr(f.attributes, "extern") then [] else [Diagnostic(FunctionWithNoBody, f.pos)]))
    ensures r.Ok? ==> env.localScopes == old(env.localScopes)[..|old(env.localScopes)| - 1]
    ensures f.body.Some? && r.Ok? ==> (r.value.Some? && r.value.value == R.Func(f.id, args, f.name.data, ret, r.value.value.body, f.pos)
      && Corresponds(f.body.value, r.value.value.body))
  {
    mid := ctx.diagnostics;
    var info := WithAttributes(Build(f.name.data, f.pos, FuncSym(ArgTypes(args), ret)), f.attributes);
    env.AddSymInfo(f.id, info);
    if f.body.None? {
      if !info.isExtern {
        ctx.Report(Diagnostic(FunctionWithNoBody, f.pos));
      }
      var ok := env.LeaveScope();
      assert ok;
      return Ok(None), mid;
    }
    ghost var before := env.localScopes;
    var body := TrExpr(ctx, env, f.body.value);
    if !body.Ok? { return Fail(body), mid; }
    var ok := env.LeaveScope();
    assert ok;
    assert env.localScopes == before[..|before| - 1];
    r := Ok(Some(R.Func(f.id, args, f.name.data, ret, body.value, f.pos)));
  }

  /** `tr_func` as the source has it: a `self` parameter on a free function is reported and
      the translation returns `None` without closing the function's scope, which then stays
      open (holding the parameter names met so far, `self` included) for every later
      declaration. */
  method TrFuncAsWritten(ctx: Context, env: Env, f: T.Func, parent: Option<(TVar, string)>)
    returns (r: Res<Option<R.Func>>)
    modifies ctx, env
    ensures old(ctx.diagnostics) <= ctx.diagnostics
    ensures r.Ok? && parent.None? && HasSelf(f.args) ==> (r == Ok(None)
      && |env.localScopes| == |old(env.localScopes)| + 1 && env.localScopes[..|old(env.localScopes)|] == old(env.localScopes)
      && "self" in env.localScopes[|old(env.localScopes)|])
  {
    var sig := TrSignature(ctx, env, f, parent);
    if !sig.Ok? { return Fail(sig); }
    if sig.value.None? {
      return Ok(None);
    }
    var body, _ := TrFuncBody(ctx, env, f, sig.value.value.0, sig.value.value.1);
    r := body;
  }

  /** `tr_func` with the scope closed on every path: a free function with a `self` parameter
      is reported and yields `None`; a function without a body yields `None` and is reported
      unless `extern`; otherwise the resolved function, with its symbol record entered. */
  method TrFunc(ctx: Context, env: Env, f: T.Func, parent: Option<(TVar, string)>)
    returns (r: Res<Option<R.Func>>, ghost mid: seq<Diagnostic>)
    modifies ctx, env
    ensures env.currentModule == old(env.currentModule) && env.tvarMap == old(env.tvarMap)
    ensures old(env.nodeMap).Keys <= env.nodeMap.Keys
    ensures old(ctx.diagnostics) <= mid <= ctx.diagnostics
    ensures r.Ok? ==> env.localScopes == old(env.localScopes)
    ensures r.Ok? && parent.None? && HasSelf(f.args) ==> (r == Ok(None) && env.nodeMap == old(env.nodeMap)
      && |ctx.diagnostics| > 0 && ctx.diagnostics[|ctx.diagnostics| - 1].kind == SelfOnFreeFunction)
    ensures r.Ok? && !(parent.None? && HasSelf(f.args)) ==> f.id in env.nodeMap
    ensures r.Ok? && !(parent.None? && HasSelf(f.args)) && f.body.None? ==> (r == Ok(None)
      && ctx.diagnostics == mid + (if HasAttr(f.attributes, "extern") then [] else [Diagnostic(FunctionWithNoBody, f.pos)]))
    ensures r.Ok? && r.value.Some? ==> (f.body.Some? && r.value.value.id == f.id && r.value.value.name == f.name.data
      && |r.value.value.args| == |f.args| && RetMatches(f.retType, r.value.value.retType)
      && (forall i :: 0 <= i < |f.args| ==> ArgMatches(f.args[i], r.value.value.args[i], parent))
      && Corresponds(f.body.value, r.value.value.body)
      && env.nodeMap == old(env.nodeMap)[f.id := FuncInfo(f, r.value.value.args, r.value.value.retType)])
    ensures r.Ok? && r.value.None? ==> f.body.None? || (parent.None? && HasSelf(f.args))
  {
    mid := ctx.diagnostics;
    var sig := TrSignature(ctx, env, f, parent);
    if !sig.Ok? { return Fail(sig), ctx.diagnostics; }
    if sig.value.None? {
      var ok := env.LeaveScope();
      assert ok;
      return Ok(None), ctx.diagnostics;
    }
    r, mid := TrFuncBody(ctx, env, f, sig.value.value.0, sig.value.value.1);
  }

  /** A `self` parameter left in an open scope shadows every later use of `self`: it now
      resolves to that local instead of being looked up among the declarations. */
  lemma LeakedSelfShadows(env: Env, pos: Position)
    requires |env.localScopes| > 0 && "self" in env.localScopes[|env.localScopes| - 1]
    ensures env.FindSymbol([Ident("self", pos)]) == Ok(R.LocalRef("self"))
  {
    var n := |env.localScopes| - 1;
    assert 0 <= n < |env.localScopes| && [Ident("self", pos)][0].data in env.localScopes[n];
  }

  // ---------------------------------------------------------------------------------------
  // Structs and enums (tr_module)
  // ---------------------------------------------------------------------------------------

  /** The method table of a type, `collect`ed from (name, id) pairs: a later method of the
      same name replaces an earlier one. */
  function MethodsMap(fs: seq<T.Func>): (m: map<string, NodeID>)
    ensures m.Keys == set i | 0 <= i < |fs| :: fs[i].name.data
  {
    if fs == [] then map[]
    else
      var n := |fs|;
      var prev := MethodsMap(fs[..n - 1]);
      assert forall i :: 0 <= i < n - 1 ==> fs[..n - 1][i] == fs[i];
      prev[fs[n - 1].name.data := fs[n - 1].id]
  }

  /** In the method table, each name maps to the last method declared with it. */
  lemma {:induction false} MethodsMapLast(fs: seq<T.Func>, i: nat)
    requires i < |fs| && forall j :: i < j < |fs| ==> fs[j].name.data != fs[i].name.data
    ensures MethodsMap(fs)[fs[i].name.data] == fs[i].id
  {
    var n := |fs|;
    if i < n - 1 {
      var init := fs[..n - 1];
      assert forall j :: i < j < n - 1 ==> init[j] == fs[j];
      MethodsMapLast(init, i);
    }
  }

  function FieldNameSet(fields: seq<(Ident, P.RType)>): set<string>
  {
    set i | 0 <= i < |fields| :: fields[i].0.data
  }

  predicate DistinctFields(fields: seq<(Ident, P.RType)>)
  {
    forall i, j :: 0 <= i < j < |fields| ==> fields[i].0.data != fields[j].0.data
  }

  /** The field types of a struct, resolved in order; a field declared twice panics. */
  method ResolveFields(ctx: Context, env: Env, fields: seq<(Ident, P.RType)>) returns (r: Res<map<string, Ty.Type>>)
    modifies ctx
    ensures old(ctx.diagnostics) <= ctx.diagnostics
    ensures r.Ok? ==> DistinctFields(fields) && r.value.Keys == FieldNameSet(fields)
    ensures r.Ok? ==> forall i :: 0 <= i < |fields| ==> Mirrors(fields[i].1, r.value[fields[i].0.data])
  {
    var m: map<string, Ty.Type> := map[];
    var i := 0;
    while i < |fields|
      invariant 0 <= i <= |fields|
      invariant old(ctx.diagnostics) <= ctx.diagnostics
      invariant FieldsResolved(fields, i, m)
    {
      var t := ReportType(ctx, env, fields[i].1);
      if !t.Ok? { return Fail(t); }
      var name := fields[i].0.data;
      if name in m { return Abort("field already defined"); }
      FieldsResolvedStep(fields, i, m, t.value);
      m := m[name := t.value];
      i := i + 1;
    }
    r := Ok(m);
  }

  /** The state of the field loop after `i` fields: their names distinct, each the key of
      its resolved type, and no other key. */
  ghost predicate FieldsResolved(fields: seq<(Ident, P.RType)>, i: nat, m: map<string, Ty.Type>)
    requires i <= |fields|
  {
    && (forall a, b :: 0 <= a < b < i ==> fields[a].0.data != fields[b].0.data)
    && m.Keys == (set k | 0 <= k < i :: fields[k].0.data)
    && (forall k :: 0 <= k < i ==> Mirrors(fields[k].1, m[fields[k].0.data]))
  }

  /** A field whose name is new, with its type resolved, keeps the loop state. */
  lemma FieldsResolvedStep(fields: seq<(Ident, P.RType)>, i: nat, m: map<string, Ty.Type>, t: Ty.Type)
    requires i < |fields| && FieldsResolved(fields, i, m) && fields[i].0.data !in m && Mirrors(fields[i].1, t)
    ensures FieldsResolved(fields, i + 1, m[fields[i].0.data := t])
  {
    var name := fields[i].0.data;
    forall a | 0 <= a < i ensures fields[a].0.data != name {
      assert fields[a].0.data in m;
    }
    assert (set k | 0 <= k < i + 1 :: fields[k].0.data) == (set k | 0 <= k < i :: fields[k].0.data) + {name};
  }

  /** The parameter types of a tuple constructor, resolved in order. */
  method ReportTypes(ctx: Context, env: Env, rts: seq<P.RType>) returns (r: Res<seq<Ty.Type>>)
    modifies ctx
    ensures old(ctx.diagnostics) <= ctx.diagnostics
    ensures r.Ok? ==> |r.value| == |rts| && forall i :: 0 <= i < |rts| ==> Mirrors(rts[i], r.value[i])
  {
    var out: seq<Ty.Type> := [];
    var i := 0;
    while i < |rts|
      invariant 0 <= i <= |rts| && |out| == i
      invariant old(ctx.diagnostics) <= ctx.diagnostics
      invariant forall k :: 0 <= k < i ==> Mirrors(rts[k], out[k])
    {
      var t := ReportType(ctx, env, rts[i]);
      if !t.Ok? { return Fail(t); }
      out := out + [t.value];
      i := i + 1;
    }
    r := Ok(out);
  }

  /** The records of a struct: its type information (fields and methods) under its type
      variable, and its symbol record under its id. */
  method DeclareStruct(ctx: Context, env: Env, s: T.Struct) returns (r: Res<TVar>)
    modifies ctx, env
    ensures old(ctx.diagnostics) <= ctx.diagnostics
    ensures env.currentModule == old(env.currentModule) && env.localScopes == old(env.localScopes)
    ensures s.id !in env.nodeTvarMap ==> r.Err? && r.diag.kind.InternalError?
    ensures !r.Ok? ==> env.nodeMap == old(env.nodeMap) && env.tvarMap == old(env.tvarMap)
    ensures r.Ok? ==> (s.id in env.nodeTvarMap && r.value == env.nodeTvarMap[s.id]
      && DistinctFields(s.fields) && r.value in env.tvarMap
      && env.tvarMap == old(env.tvarMap)[r.value := env.tvarMap[r.value]]
      && env.tvarMap[r.value].name == s.name.data && env.tvarMap[r.value].pos == s.pos
      && env.tvarMap[r.value].methods == MethodsMap(s.methods)
      && env.tvarMap[r.value].kind.StructKind? && env.tvarMap[r.value].kind.fields.Keys == FieldNameSet(s.fields)
      && (forall i :: 0 <= i < |s.fields| ==> Mirrors(s.fields[i].1, env.tvarMap[r.value].kind.fields[s.fields[i].0.data]))
      && env.nodeMap == old(env.nodeMap)[s.id := SymInfo(s.name.data, s.pos, StructSym(r.value), None,
           HasAttr(s.attributes, "extern"), !HasAttr(s.attributes, "no_mangle"))])
  {
    var tv := env.GetTvar(s.id);
    if !tv.Ok? { return Fail(tv); }
    var fields := ResolveFields(ctx, env, s.fields);
    if !fields.Ok? { return Fail(fields); }
    env.AddTypeInfo(tv.value, TypeInfo(s.name.data, s.pos, MethodsMap(s.methods), StructKind(fields.value)));
    var info := WithAttributes(Build(s.name.data, s.pos, StructSym(tv.value)), s.attributes);
    env.AddSymInfo(s.id, info);
    r := Ok(tv.value);
  }

  /** The ids of an enum's constructors, in declaration order. */
  function ConsIds(cs: seq<T.Constructor>): (ids: seq<NodeID>)
    ensures |ids| == |cs| && forall i :: 0 <= i < |cs| ==> ids[i] == cs[i].id
  {
    seq(|cs|, i requires 0 <= i < |cs| => cs[i].id)
  }

  /** One tuple constructor: its parameter types, then its symbol record with the enum as
      parent; a struct-like constructor is not implemented (`todo!()`). */
  method TrConstructor(ctx: Context, env: Env, c: T.Constructor, parent: NodeID) returns (r: Res<NodeID>)
    modifies ctx, env
    ensures old(ctx.diagnostics) <= ctx.diagnostics
    ensures env.currentModule == old(env.currentModule) && env.localScopes == old(env.localScopes)
    ensures env.tvarMap == old(env.tvarMap)
    ensures c.StructCons? ==> r.Abort?
    ensures !r.Ok? ==> env.nodeMap == old(env.nodeMap)
    ensures r.Ok? ==> (c.TupleCons? && r.value == c.id && exists args ::
      |args| == |c.params| && (forall i :: 0 <= i < |c.params| ==> Mirrors(c.params[i], args[i]))
      && env.nodeMap == old(env.nodeMap)[c.id := SymInfo(c.name.data, c.pos, EnumConsSym(args, parent), None,
           HasAttr(c.attributes, "extern"), !HasAttr(c.attributes, "no_mangle"))])
  {
    match c {
      case StructCons(_, _, _, _, _) =>
        r := Abort("not yet implemented");
      case TupleCons(attrs, id, name, pos, params) =>
        var args := ReportTypes(ctx, env, params);
        if !args.Ok? { return Fail(args); }
        var info := WithAttributes(Build(name.data, pos, EnumConsSym(args.value, parent)), attrs);
        env.AddSymInfo(id, info);
        r := Ok(id);
    }
  }

  /** The constructors of an enum, in order. */
  method TrConstructors(ctx: Context, env: Env, e: T.Enum) returns (r: Res<seq<NodeID>>)
    modifies ctx, env
    ensures old(ctx.diagnostics) <= ctx.diagnostics
    ensures env.currentModule == old(env.currentModule) && env.localScopes == old(env.localScopes)
    ensures env.tvarMap == old(env.tvarMap) && old(env.nodeMap).Keys <= env.nodeMap.Keys
    ensures (exists i :: 0 <= i < |e.constructors| && e.constructors[i].StructCons?) ==> !r.Ok?
    ensures r.Ok? ==> (r.value == ConsIds(e.constructors)
      && env.nodeMap.Keys == old(env.nodeMap).Keys + (set i | 0 <= i < |e.constructors| :: e.constructors[i].id)
      && forall i :: 0 <= i < |e.constructors| ==>
           env.nodeMap[e.constructors[i].id].kind.EnumConsSym? && env.nodeMap[e.constructors[i].id].kind.parent == e.id)
    ensures r.Ok? ==> forall id :: id in old(env.nodeMap) && id !in r.value ==> env.nodeMap[id] == old(env.nodeMap)[id]
  {
    var cs := e.constructors;
    var ids: seq<NodeID> := [];
    var i := 0;
    while i < |cs|
      invariant 0 <= i <= |cs|
      invariant old(ctx.diagnostics) <= ctx.diagnostics
      invariant env.currentModule == old(env.currentModule) && env.localScopes == old(env.localScopes)
      invariant env.tvarMap == old(env.tvarMap)
      invariant ConsSoFar(cs, i, e.id, old(env.nodeMap), env.nodeMap, ids)
    {
      ghost var m := env.nodeMap;
      var id := ConsTurn(ctx, env, cs[i], e.id);
      if !id.Ok? { return Fail(id); }
      ConsSoFarStep(cs, i, e.id, old(env.nodeMap), m, env.nodeMap, ids);
      ids := ids + [id.value];
      i := i + 1;
    }
    r := Ok(ids);
  }

  /** The state of the constructor loop after `i` constructors: their ids in order, all
      tuple constructors, each with a record naming the enum, and nothing else touched. */
  ghost predicate ConsSoFar(cs: seq<T.Constructor>, i: nat, parent: NodeID, m0: map<NodeID, SymInfo>,
                            m: map<NodeID, SymInfo>, ids: seq<NodeID>)
    requires i <= |cs|
  {
    && |ids| == i && (forall k :: 0 <= k < i ==> ids[k] == cs[k].id)
    && (forall k :: 0 <= k < i ==> cs[k].TupleCons?)
    && m.Keys == m0.Keys + (set k | 0 <= k < i :: cs[k].id)
    && (forall k :: 0 <= k < i ==> m[cs[k].id].kind.EnumConsSym? && m[cs[k].id].kind.parent == parent)
    && (forall id :: id in m0 && id !in ids ==> m[id] == m0[id])
  }

  /** One more tuple constructor recorded keeps the loop state. */
  lemma ConsSoFarStep(cs: seq<T.Constructor>, i: nat, parent: NodeID, m0: map<NodeID, SymInfo>,
                      m: map<NodeID, SymInfo>, m': map<NodeID, SymInfo>, ids: seq<NodeID>)
    requires i < |cs| && ConsSoFar(cs, i, parent, m0, m, ids) && cs[i].TupleCons?
    requires m'.Keys == m.Keys + {cs[i].id}
    requires m'[cs[i].id].kind.EnumConsSym? && m'[cs[i].id].kind.parent == parent
    requires forall id :: id in m && id != cs[i].id ==> m'[id] == m[id]
    ensures ConsSoFar(cs, i + 1, parent, m0, m', ids + [cs[i].id])
  {
    IdSetStep(cs, i);
    var ids' := ids + [cs[i].id];
    forall k | 0 <= k < i + 1
      ensures m'[cs[k].id].kind.EnumConsSym? && m'[cs[k].id].kind.parent == parent
    {
      if cs[k].id != cs[i].id {
        assert cs[k].id in (set j | 0 <= j < i :: cs[j].id);
      }
    }
    forall id | id in m0 && id !in ids'
      ensures m'[id] == m0[id]
    {
      assert id !in ids;
    }
  }

  /** One turn of the constructor loop: what `TrConstructor` does, as the loop sees it. */
  method ConsTurn(ctx: Context, env: Env, c: T.Constructor, parent: NodeID) returns (r: Res<NodeID>)
    modifies ctx, env
    ensures old(ctx.diagnostics) <= ctx.diagnostics
    ensures env.currentModule == old(env.currentModule) && env.localScopes == old(env.localScopes)
    ensures env.tvarMap == old(env.tvarMap)
    ensures c.StructCons? ==> !r.Ok?
    ensures !r.Ok? ==> env.nodeMap == old(env.nodeMap)
    ensures r.Ok? ==> c.TupleCons? && r.value == c.id && env.nodeMap.Keys == old(env.nodeMap).Keys + {c.id}
    ensures r.Ok? ==> env.nodeMap[c.id].kind.EnumConsSym? && env.nodeMap[c.id].kind.parent == parent
    ensures r.Ok? ==> forall id :: id in old(env.nodeMap) && id != c.id ==> env.nodeMap[id] == old(env.nodeMap)[id]
  {
    r := TrConstructor(ctx, env, c, parent);
  }

  /** The ids of the first `i + 1` constructors are those of the first `i` and one more. */
  lemma IdSetStep(cs: seq<T.Constructor>, i: nat)
    requires i < |cs|
    ensures (set k | 0 <= k < i + 1 :: cs[k].id) == (set k | 0 <= k < i :: cs[k].id) + {cs[i].id}
  {
    var a := set k | 0 <= k < i + 1 :: cs[k].id;
    var b := (set k | 0 <= k < i :: cs[k].id) + {cs[i].id};
    forall x | x in a ensures x in b {
      var k :| 0 <= k < i + 1 && cs[k].id == x;
      if k < i { assert x in (set k | 0 <= k < i :: cs[k].id); }
    }
    forall x | x in b ensures x in a {
      if x == cs[i].id { assert x in a; }
      else { var k :| 0 <= k < i && cs[k].id == x; assert x in a; }
    }
  }

  /** The records of an enum: its constructors, then its type information (constructor ids
      and methods) under its type variable and its symbol record under its id. */
  method DeclareEnum(ctx: Context, env: Env, e: T.Enum) returns (r: Res<TVar>)
    modifies ctx, env
    ensures old(ctx.diagnostics) <= ctx.diagnostics
    ensures env.currentModule == old(env.currentModule) && env.localScopes == old(env.localScopes)
    ensures old(env.nodeMap).Keys <= env.nodeMap.Keys
    ensures !r.Ok? ==> env.tvarMap == old(env.tvarMap)
    ensures e.id !in env.nodeTvarMap ==> r.Err? && r.diag.kind.InternalError?
    ensures (exists i :: 0 <= i < |e.constructors| && e.constructors[i].StructCons?) ==> !r.Ok?
    ensures r.Ok? ==> (e.id in env.nodeTvarMap && r.value == env.nodeTvarMap[e.id]
      && env.tvarMap == old(env.tvarMap)[r.value := TypeInfo(e.name.data, e.pos, MethodsMap(e.methods), EnumKind(ConsIds(e.constructors)))]
      && e.id in env.nodeMap
      && env.nodeMap[e.id] == SymInfo(e.name.data, e.pos, EnumSym(r.value), None,
           HasAttr(e.attributes, "extern"), !HasAttr(e.attributes, "no_mangle"))
      && forall i :: 0 <= i < |e.constructors| ==> e.constructors[i].id in env.nodeMap)
  {
    var tv := env.GetTvar(e.id);
    if !tv.Ok? { return Fail(tv); }
    var cons := TrConstructors(ctx, env, e);
    if !cons.Ok? { return Fail(cons); }
    env.AddTypeInfo(tv.value, TypeInfo(e.name.data, e.pos, MethodsMap(e.methods), EnumKind(cons.value)));
    var info := WithAttributes(Build(e.name.data, e.pos, EnumSym(tv.value)), e.attributes);
    env.AddSymInfo(e.id, info);
    r := Ok(tv.value);
  }

  /** The ids of the resolved functions. */
  function IdsOf(fs: seq<R.Func>): set<NodeID>
  {
    set i | 0 <= i < |fs| :: fs[i].id
  }

  lemma IdsOfAppend(a: seq<R.Func>, b: seq<R.Func>)
    ensures IdsOf(a + b) == IdsOf(a) + IdsOf(b)
  {
    forall id | id in IdsOf(a) + IdsOf(b) ensures id in IdsOf(a + b) {
      if id in IdsOf(a) {
        var i :| 0 <= i < |a| && a[i].id == id;
        assert (a + b)[i] == a[i];
      } else {
        var i :| 0 <= i < |b| && b[i].id == id;
        assert (a + b)[|a| + i] == b[i];
      }
    }
  }

  /** The methods of a type with a body: the ones the resolver emits. */
  function MethodIds(fs: seq<T.Func>): set<NodeID>
  {
    set i | 0 <= i < |fs| && fs[i].body.Some? :: fs[i].id
  }

  /** The methods of a struct or enum, each resolved with the type as `Self`. */
  method TrMethods(ctx: Context, env: Env, fs: seq<T.Func>, tv: TVar, name: string) returns (r: Res<seq<R.Func>>)
    modifies ctx, env
    ensures old(ctx.diagnostics) <= ctx.diagnostics
    ensures env.currentModule == old(env.currentModule) && env.tvarMap == old(env.tvarMap)
    ensures old(env.nodeMap).Keys <= env.nodeMap.Keys
    ensures r.Ok? ==> env.localScopes == old(env.localScopes)
    ensures r.Ok? ==> (forall i :: 0 <= i < |fs| ==> fs[i].id in env.nodeMap) && IdsOf(r.value) == MethodIds(fs)
  {
    var out: seq<R.Func> := [];
    var i := 0;
    while i < |fs|
      invariant 0 <= i <= |fs|
      invariant old(ctx.diagnostics) <= ctx.diagnostics
      invariant env.currentModule == old(env.currentModule) && env.tvarMap == old(env.tvarMap)
      invariant old(env.nodeMap).Keys <= env.nodeMap.Keys
      invariant env.localScopes == old(env.localScopes)
      invariant forall k :: 0 <= k < i ==> fs[k].id in env.nodeMap
      invariant IdsOf(out) == MethodIds(fs[..i])
    {
      var f, _ := TrFunc(ctx, env, fs[i], Some((tv, name)));
      if !f.Ok? { return Fail(f); }
      assert MethodIds(fs[..i + 1]) == MethodIds(fs[..i]) + (if fs[i].body.Some? then {fs[i].id} else {}) by {
        assert forall k :: 0 <= k < i ==> fs[..i + 1][k] == fs[..i][k];
        assert fs[..i + 1][i] == fs[i];
      }
      if f.value.Some? {
        IdsOfAppend(out, [f.value.value]);
        assert IdsOf([f.value.value]) == {fs[i].id} by { assert [f.value.value][0] == f.value.value; }
        out := out + [f.value.value];
      }
      i := i + 1;
    }
    assert fs[..i] == fs;
    r := Ok(out);
  }

  // ---------------------------------------------------------------------------------------
  // Modules (tr_module)
  // ---------------------------------------------------------------------------------------

  /** The functions the resolver emits from `items`: free functions with a body and no `self`
      parameter, and methods with a body, in every submodule. */
  function EmittedIdsOf(items: seq<T.ModuleItem>): set<NodeID>
    decreases items, 1
  {
    set i, id | 0 <= i < |items| && id in ItemEmittedIds(items[i]) :: id
  }

  function ItemEmittedIds(item: T.ModuleItem): set<NodeID>
    decreases item, 0
  {
    match item
    case SubModule(sub) => EmittedIdsOf(sub.items)
    case FuncItem(f) => if f.body.Some? && !HasSelf(f.args) then {f.id} else {}
    case StructItem(s) => MethodIds(s.methods)
    case EnumItem(e) => MethodIds(e.methods)
  }

  lemma EmittedIdsOfSnoc(items: seq<T.ModuleItem>, i: nat)
    requires i < |items|
    ensures EmittedIdsOf(items[..i + 1]) == EmittedIdsOf(items[..i]) + ItemEmittedIds(items[i])
  {
    assert forall k :: 0 <= k < i ==> items[..i + 1][k] == items[..i][k];
    assert items[..i + 1][i] == items[i];
  }

  /** `tr_module`: the items in order, each resolved inside the module (the current module is
      set again before every item, since a submodule changes it). Every struct and enum gets
      its records, and the functions emitted are exactly the ones with a body (minus free
      functions with a `self` parameter). */
  method TrModule(ctx: Context, env: Env, m: T.Module) returns (r: Res<seq<R.Func>>)
    modifies ctx, env
    ensures old(ctx.diagnostics) <= ctx.diagnostics
    ensures old(env.nodeMap).Keys <= env.nodeMap.Keys && old(env.tvarMap).Keys <= env.tvarMap.Keys
    ensures m.items == [] ==> env.currentModule == old(env.currentModule)
    ensures r.Ok? ==> env.localScopes == old(env.localScopes)
    ensures r.Ok? ==> TypeIdsOf(m.items) <= env.nodeMap.Keys && IdsOf(r.value) == EmittedIdsOf(m.items)
    decreases m
  {
    var items := m.items;
    var out: seq<R.Func> := [];
    var i := 0;
    while i < |items|
      invariant 0 <= i <= |items|
      invariant old(ctx.diagnostics) <= ctx.diagnostics
      invariant old(env.nodeMap).Keys <= env.nodeMap.Keys && old(env.tvarMap).Keys <= env.tvarMap.Keys
      invariant i == 0 ==> env.currentModule == old(env.currentModule)
      invariant env.localScopes == old(env.localScopes)
      invariant TypeIdsOf(items[..i]) <= env.nodeMap.Keys && IdsOf(out) == EmittedIdsOf(items[..i])
    {
      assert items[i] in m.items;
      TypeIdsOfSnoc(items, i);
      EmittedIdsOfSnoc(items, i);
      var fs := TrModuleItem(ctx, env, m.id, items[i]);
      if !fs.Ok? { return Fail(fs); }
      IdsOfAppend(out, fs.value);
      out := out + fs.value;
      i := i + 1;
    }
    assert items[..i] == items;
    r := Ok(out);
  }

  /** One item of `tr_module`, resolved inside the module `modId`. */
  method TrModuleItem(ctx: Context, env: Env, modId: NodeID, item: T.ModuleItem) returns (r: Res<seq<R.Func>>)
    modifies ctx, env
    ensures old(ctx.diagnostics) <= ctx.diagnostics
    ensures old(env.nodeMap).Keys <= env.nodeMap.Keys && old(env.tvarMap).Keys <= env.tvarMap.Keys
    ensures r.Ok? ==> env.localScopes == old(env.localScopes)
    ensures r.Ok? ==> ItemTypeIds(item) <= env.nodeMap.Keys && IdsOf(r.value) == ItemEmittedIds(item)
    decreases item
  {
    env.currentModule := modId;
    match item {
      case SubModule(sub) =>
        r := TrModule(ctx, env, sub);
      case FuncItem(f) =>
        var x, _ := TrFunc(ctx, env, f, None);
        if !x.Ok? { return Fail(x); }
        if x.value.Some? {
          assert IdsOf([x.value.value]) == {f.id} by { assert [x.value.value][0] == x.value.value; }
          r := Ok([x.value.value]);
        } else {
          r := Ok([]);
        }
      case StructItem(s) =>
        var tv := DeclareStruct(ctx, env, s);
        if !tv.Ok? { return Fail(tv); }
        r := TrMethods(ctx, env, s.methods, tv.value, s.name.data);
      case EnumItem(e) =>
        var tv := DeclareEnum(ctx, env, e);
        if !tv.Ok? { return Fail(tv); }
        r := TrMethods(ctx, env, e.methods, tv.value, e.name.data);
    }
  }
}
