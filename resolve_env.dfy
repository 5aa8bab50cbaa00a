/** The environment of name resolution (src/resolve/env.rs): the solved namespace tree, the
    type variable of every struct and enum, the symbol and type tables being filled, and a
    stack of local scopes. Methods that panic in the source return `ok == false` and change
    nothing. */
module ResolveEnv {
  import opened Wrappers
  import opened Common
  import opened NodeIds
  import opened TVars
  import opened Scopes
  import opened SymInfos
  import opened ResolvedAst
  import Ty = Types
  import P = ParsedAst

  /** Some scope of the stack holds `name`; the innermost scope (the last) is looked at first. */
  function InLocals(scopes: seq<set<string>>, name: string): (b: bool)
    ensures b <==> exists i :: 0 <= i < |scopes| && name in scopes[i]
  {
    if scopes == [] then false
    else name in scopes[|scopes| - 1] || InLocals(scopes[..|scopes| - 1], name)
  }

  /** Whether `t` is what `resolve_type` builds from `rt`: the same shape, slices as pointers,
      and a named variable (or the unknown type) for a path. */
  predicate Mirrors(rt: P.RType, t: Ty.Type)
    decreases rt
  {
    match rt
    case RVar(path, _) => t.Unknown? || (t.NamedVar? && t.name == ShowPath(path))
    case RTuple(items, _) =>
      t.Tuple? && |t.items| == |items| && forall i :: 0 <= i < |items| ==> Mirrors(items[i], t.items[i])
    case RArray(n, elem, _) => t.Array? && t.size == n && Mirrors(elem, t.elem)
    case RPtr(p, _) => t.Ptr? && Mirrors(p, t.pointee)
    case RSlice(p, _) => t.Ptr? && Mirrors(p, t.pointee)
    case RMutPtr(p, _) => t.MutPtr? && Mirrors(p, t.pointee)
    case RMutSlice(p, _) => t.MutPtr? && Mirrors(p, t.pointee)
    case RFun(args, ret, _) =>
      t.Fun? && |t.args| == |args| && (forall i :: 0 <= i < |args| ==> Mirrors(args[i], t.args[i]))
      && Mirrors(ret, t.ret)
    case RTypeApp(_, _, _) => false
  }

  /** A resolved type, or why there is none, with the diagnostics reported on the way. */
  datatype Resolved<T> = Resolved(res: Res<T>, diags: seq<Diagnostic>)

  class Env {
    var currentModule: NodeID
    const scopeInfo: ScopeInfo
    const nodeTvarMap: map<NodeID, TVar>
    var nodeMap: map<NodeID, SymInfo>
    var tvarMap: map<TVar, TypeInfo>
    var localScopes: seq<set<string>>

    /** `Env::init`: at the root module, with no local scope and empty tables. */
    constructor Init(info: ScopeInfo, tvars: map<NodeID, TVar>)
      ensures currentModule == OfRoot() && scopeInfo == info && nodeTvarMap == tvars
      ensures nodeMap == map[] && tvarMap == map[] && localScopes == []
    {
      currentModule := OfRoot();
      scopeInfo := info;
      nodeTvarMap := tvars;
      nodeMap := map[];
      tvarMap := map[];
      localScopes := [];
    }

    /** `new_scope`: pushes an empty local scope. */
    method NewScope()
      modifies this
      ensures localScopes == old(localScopes) + [{}]
      ensures currentModule == old(currentModule) && nodeMap == old(nodeMap) && tvarMap == old(tvarMap)
    {
      localScopes := localScopes + [{}];
    }

    /** `leave_scope`: pops the innermost local scope; with none left it panics. */
    method LeaveScope() returns (ok: bool)
      modifies this
      ensures ok <==> old(localScopes) != []
      ensures ok ==> localScopes == old(localScopes)[..|old(localScopes)| - 1]
      ensures !ok ==> localScopes == old(localScopes)
      ensures currentModule == old(currentModule) && nodeMap == old(nodeMap) && tvarMap == old(tvarMap)
    {
      if localScopes == [] {
        return false;
      }
      localScopes := localScopes[..|localScopes| - 1];
      ok := true;
    }

    /** `add_local`: adds `name` to the innermost local scope; with none it panics. */
    method AddLocal(name: string) returns (ok: bool)
      modifies this
      ensures ok <==> old(localScopes) != []
      ensures ok ==> var n := |old(localScopes)|;
        localScopes == old(localScopes)[..n - 1] + [old(localScopes)[n - 1] + {name}]
      ensures !ok ==> localScopes == old(localScopes)
      ensures currentModule == old(currentModule) && nodeMap == old(nodeMap) && tvarMap == old(tvarMap)
    {
      if localScopes == [] {
        return false;
      }
      var n := |localScopes|;
      localScopes := localScopes[..n - 1] + [localScopes[n - 1] + {name}];
      ok := true;
    }

    /** `add_sym_info`: records `info` for `id`, replacing an earlier record. */
    method AddSymInfo(id: NodeID, info: SymInfo)
      modifies this
      ensures nodeMap == old(nodeMap)[id := info] && id in nodeMap && nodeMap[id] == info
      ensures currentModule == old(currentModule) && tvarMap == old(tvarMap) && localScopes == old(localScopes)
    {
      nodeMap := nodeMap[id := info];
    }

    /** `add_type_info`: records `info` for `tv`, replacing an earlier record. */
    method AddTypeInfo(tv: TVar, info: TypeInfo)
      modifies this
      ensures tvarMap == old(tvarMap)[tv := info] && tv in tvarMap && tvarMap[tv] == info
      ensures currentModule == old(currentModule) && nodeMap == old(nodeMap) && localScopes == old(localScopes)
    {
      tvarMap := tvarMap[tv := info];
    }

    /** `get_tvar`: the type variable of a struct or enum; an id without one is an internal
        error. */
    function GetTvar(id: NodeID): (r: Res<TVar>)
      ensures !r.Abort?
      ensures r.Ok? <==> id in nodeTvarMap
      ensures r.Ok? ==> r.value == nodeTvarMap[id]
      ensures r.Err? ==> r.diag.kind.InternalError?
    {
      if id in nodeTvarMap then Ok(nodeTvarMap[id])
      else Err(Diagnostic(InternalError("cant get tvar info"), Nowhere))
    }

    /** `find_symbol`: a one-segment path naming a local variable is that local; any other
        path is looked up by `find_path` from the current module with the guard set, and
        names the declaration it finds. */
    function FindSymbol(path: Path): (r: Res<SymRef>)
      reads this
      ensures (r.Ok? && r.value.LocalRef?) <==> |path| == 1 && exists i :: 0 <= i < |localScopes| && path[0].data in localScopes[i]
      ensures r.Ok? && r.value.LocalRef? ==> r.value.name == path[0].data
      ensures !(r.Ok? && r.value.LocalRef?) ==>
        var found := FindPath(scopeInfo, currentModule, path, true);
        (r.Ok? <==> found.Ok?) && (r.Err? <==> found.Err?)
        && (r.Ok? ==> r.value == GlobalRef(SymbolId(found.value.sym)))
        && (r.Err? ==> r.diag == found.diag)
    {
      if IfSingle(path).Some? && InLocals(localScopes, path[0].data) then Ok(LocalRef(path[0].data))
      else
        match FindPath(scopeInfo, currentModule, path, true)
        case Ok(b) => Ok(GlobalRef(SymbolId(b.sym)))
        case Err(d) => Err(d)
        case Abort(why) => Abort(why)
    }

    /** `resolve_type`: rebuilds type syntax as a type. A path that does not resolve is
        reported and becomes the unknown type; a path naming a local panics; a declaration
        without a type variable is an internal error; type application is `todo!()`. The
        diagnostics are those reported, in order. */
    function ResolveType(rt: P.RType): (r: Resolved<Ty.Type>)
      reads this
      ensures r.res.Ok? ==> Mirrors(rt, r.res.value)
      ensures r.res.Err? ==> r.res.diag.kind.InternalError?
      ensures rt.RVar? && FindSymbol(rt.path).Err? ==> r == Resolved(Ok(Ty.Unknown), [FindSymbol(rt.path).diag])
      ensures rt.RVar? ==>
                var s := FindSymbol(rt.path);
                (s.Ok? && s.value.GlobalRef? && s.value.id in nodeTvarMap && !nodeTvarMap[s.value.id].kind.TypeCons?) ==>
                r == Resolved(Ok(Ty.NamedVar(nodeTvarMap[s.value.id], ShowPath(rt.path))), [])
      ensures rt.RVar? && FindSymbol(rt.path).Ok? && FindSymbol(rt.path).value.LocalRef? ==> r.res.Abort?
      ensures rt.RTypeApp? ==> r.res.Abort?
      decreases rt, 1
    {
      match rt
      case RVar(path, pos) => ResolveVar(path, pos)
      case RFun(args, ret, _) =>
        var a := ResolveTypes(rt, args);
        if !a.res.Ok? then Resolved(Fail(a.res), a.diags)
        else
          var b := ResolveType(ret);
          if !b.res.Ok? then Resolved(Fail(b.res), a.diags + b.diags)
          else Resolved(Ok(Ty.Fun(a.res.value, b.res.value)), a.diags + b.diags)
      case RPtr(p, _) => Wrap(ResolveType(p), false)
      case RMutPtr(p, _) => Wrap(ResolveType(p), true)
      case RSlice(p, _) => Wrap(ResolveType(p), false)
      case RMutSlice(p, _) => Wrap(ResolveType(p), true)
      case RTuple(items, _) =>
        var a := ResolveTypes(rt, items);
        if !a.res.Ok? then Resolved(Fail(a.res), a.diags)
        else Resolved(Ok(Ty.Tuple(a.res.value)), a.diags)
      case RArray(n, elem, _) =>
        var a := ResolveType(elem);
        if !a.res.Ok? then Resolved(Fail(a.res), a.diags)
        else Resolved(Ok(Ty.Array(n, a.res.value)), a.diags)
      case RTypeApp(_, _, _) => Resolved(Abort("not yet implemented: type application"), [])
    }

    /** `resolve_type` at a path: the named variable of the declaration it names. The
        `Type::named_var` call there yields a diagnostic for a type constructor, which is
        reported like a failed lookup. */
    function ResolveVar(path: Path, pos: Position): (r: Resolved<Ty.Type>)
      reads this
      ensures r.res.Ok? ==> r.res.value.Unknown? || (r.res.value.NamedVar? && r.res.value.name == ShowPath(path))
      ensures r.res.Err? ==> r.res.diag.kind.InternalError?
      ensures FindSymbol(path).Err? ==> r == Resolved(Ok(Ty.Unknown), [FindSymbol(path).diag])
      ensures var s := FindSymbol(path); s.Ok? && s.value.GlobalRef? && s.value.id in nodeTvarMap ==>
                var tv := nodeTvarMap[s.value.id];
                if tv.kind.TypeCons? then
                  r == Resolved(Ok(Ty.Unknown), [Diagnostic(TypeParamsMismatch(tv.kind.arity, 0), pos)])
                else r == Resolved(Ok(Ty.NamedVar(tv, ShowPath(path))), [])
      ensures var s := FindSymbol(path); s.Ok? && s.value.GlobalRef? && s.value.id !in nodeTvarMap ==>
                r.res.Err? && r.diags == []
    {
      match FindSymbol(path)
      case Err(d) => Resolved(Ok(Ty.Unknown), [d])
      case Abort(why) => Resolved(Abort(why), [])
      case Ok(sym) =>
        if sym.LocalRef? then Resolved(Abort("local type definitons not supported"), [])
        else
          var tvar := GetTvar(sym.id);
          if tvar.Err? then Resolved(Err(tvar.diag), [])
          else
            var tv := tvar.value;
            if tv.kind.TypeCons? then Resolved(Ok(Ty.Unknown), [Ty.NamedVarOf(tv, ShowPath(path), pos).diag])
            else Resolved(Ok(Ty.NamedVarOf(tv, ShowPath(path), pos).value), [])
    }

    /** The types of a list of type syntax (`rts`, nested in `node`), stopping at the first
        failure as `collect::<Result<_, _>>()?` does. */
    function ResolveTypes(node: P.RType, rts: seq<P.RType>): (r: Resolved<seq<Ty.Type>>)
      reads this
      requires forall x :: x in rts ==> x < node
      ensures r.res.Ok? ==> |r.res.value| == |rts| && forall i :: 0 <= i < |rts| ==> Mirrors(rts[i], r.res.value[i])
      ensures r.res.Err? ==> r.res.diag.kind.InternalError?
      decreases node, 0, |rts|
    {
      if rts == [] then Resolved(Ok([]), [])
      else
        var init, last := rts[..|rts| - 1], rts[|rts| - 1];
        assert last in rts && forall x :: x in init ==> x in rts;
        var a := ResolveTypes(node, init);
        if !a.res.Ok? then Resolved(Fail(a.res), a.diags)
        else
          var b := ResolveType(last);
          if !b.res.Ok? then Resolved(Fail(b.res), a.diags + b.diags)
          else Resolved(Ok(a.res.value + [b.res.value]), a.diags + b.diags)
    }
  }

  /** A failure passed on at another result type. */
  function Fail<A, B>(r: Res<A>): (s: Res<B>)
    requires !r.Ok?
    ensures !s.Ok? && (s.Err? <==> r.Err?) && (s.Err? ==> s.diag == r.diag)
  {
    if r.Err? then Err(r.diag) else Abort(r.reason)
  }

  /** The pointer (`mut_ptr` false) or mutable pointer to a resolved type. */
  function Wrap(r: Resolved<Ty.Type>, mutable: bool): (s: Resolved<Ty.Type>)
    ensures s.diags == r.diags && (s.res.Ok? <==> r.res.Ok?)
    ensures !r.res.Ok? ==> s.res == Fail(r.res)
    ensures s.res.Ok? ==> s.res.value == if mutable then Ty.MutPtr(r.res.value) else Ty.Ptr(r.res.value)
  {
    if !r.res.Ok? then Resolved(Fail(r.res), r.diags)
    else if mutable then Resolved(Ok(Ty.MutPtr(r.res.value)), r.diags)
    else Resolved(Ok(Ty.Ptr(r.res.value)), r.diags)
  }

  /** `resolve_type` with its diagnostics reported to `ctx`, as the source does. */
  method ReportType(ctx: Context, env: Env, rt: P.RType) returns (r: Res<Ty.Type>)
    modifies ctx
    ensures r == env.ResolveType(rt).res
    ensures ctx.diagnostics == old(ctx.diagnostics) + env.ResolveType(rt).diags
  {
    var res := env.ResolveType(rt);
    var i := 0;
    while i < |res.diags|
      invariant 0 <= i <= |res.diags|
      invariant ctx.diagnostics == old(ctx.diagnostics) + res.diags[..i]
    {
      ctx.Report(res.diags[i]);
      assert res.diags[..i + 1] == res.diags[..i] + [res.diags[i]];
      i := i + 1;
    }
    assert res.diags[..i] == res.diags;
    r := res.res;
  }
}
