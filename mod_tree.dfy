/** The namespace pass (src/mod_tree/mod.rs): walks the parsed file tree, gives every module,
    function, struct, enum and constructor a fresh id, binds it in the scope it is declared
    in, queues the imports on their module scope and finally solves the imports. */
module ModTree {
  import opened Wrappers
  import opened Common
  import opened NodeIds
  import opened Scopes
  import opened ModTreeEnv
  import P = ParsedAst
  import T = ModTreeAst
  import ImportSolve

  // ==== Import statements ===================================================================

  /** The imports an import tree stands for, each path prefixed with `prefix`: a name gives a
      plain import, `*` a glob import of the prefix, a segment extends the prefix and a braced
      list concatenates its members' imports in order. */
  function ImportsOf(node: P.ImportPath, prefix: Path, vis: Visibility): (r: seq<Import>)
    ensures forall imp :: imp in r ==> imp.vis == vis && |prefix| <= |imp.path| && imp.path[..|prefix|] == prefix
    ensures forall imp :: imp in r ==> (imp.isGlob ==> imp.alias.None?) && (!imp.isGlob ==> |imp.path| > |prefix|)
    decreases node, 1
  {
    match node
    case Exact(ident, alias, _) => [Import(prefix + [ident], alias, false, vis)]
    case All(_) => [Import(prefix, None, true, vis)]
    case Segment(ident, next, _) =>
      var r := ImportsOf(next, prefix + [ident], vis);
      assert forall imp :: imp in r ==> imp.path[..|prefix|] == (prefix + [ident])[..|prefix|];
      r
    case Many(paths, _) => ImportsOfAll(node, paths, prefix, vis)
  }

  /** The imports of the members of a braced list (`paths`, a prefix of `node`'s list), in order. */
  function ImportsOfAll(node: P.ImportPath, paths: seq<P.ImportPath>, prefix: Path, vis: Visibility): (r: seq<Import>)
    requires forall p :: p in paths ==> p < node
    ensures forall imp :: imp in r ==> imp.vis == vis && |prefix| <= |imp.path| && imp.path[..|prefix|] == prefix
    ensures forall imp :: imp in r ==> (imp.isGlob ==> imp.alias.None?) && (!imp.isGlob ==> |imp.path| > |prefix|)
    decreases node, 0, |paths|
  {
    if paths == [] then []
    else
      var init, last := paths[..|paths| - 1], paths[|paths| - 1];
      assert last in paths && forall x :: x in init ==> x in paths;
      ImportsOfAll(node, init, prefix, vis) + ImportsOf(last, prefix, vis)
  }
  /** One more member of a braced list appends its imports. */
  lemma ImportsOfAllSnoc(node: P.ImportPath, i: nat, prefix: Path, vis: Visibility)
    requires node.Many? && i < |node.paths|
    ensures ImportsOfAll(node, node.paths[..i + 1], prefix, vis) ==
      ImportsOfAll(node, node.paths[..i], prefix, vis) + ImportsOf(node.paths[i], prefix, vis)
  {
    assert node.paths[..i + 1][..i] == node.paths[..i];
  }


  /** The imports with `prefix` put in front of every path. */
  function Prefixed(prefix: Path, imps: seq<Import>): (r: seq<Import>)
    ensures |r| == |imps|
    ensures forall i :: 0 <= i < |imps| ==> r[i] == imps[i].(path := prefix + imps[i].path)
  {
    seq(|imps|, i requires 0 <= i < |imps| => imps[i].(path := prefix + imps[i].path))
  }

  lemma PrefixedAppend(prefix: Path, a: seq<Import>, b: seq<Import>)
    ensures Prefixed(prefix, a + b) == Prefixed(prefix, a) + Prefixed(prefix, b)
  {
  }

  /** The prefix only prepends to every path: the imports of a subtree do not depend on where
      it sits in the tree. */
  lemma {:induction false} ImportsOfPrefix(node: P.ImportPath, p: Path, q: Path, vis: Visibility)
    ensures ImportsOf(node, p + q, vis) == Prefixed(p, ImportsOf(node, q, vis))
    decreases node, 1
  {
    match node
    case Exact(ident, alias, _) =>
      assert p + q + [ident] == p + (q + [ident]);
    case All(_) =>
    case Segment(ident, next, _) =>
      assert p + q + [ident] == p + (q + [ident]);
      ImportsOfPrefix(next, p, q + [ident], vis);
    case Many(paths, _) =>
      ImportsOfAllPrefix(node, paths, p, q, vis);
  }

  lemma {:induction false} ImportsOfAllPrefix(node: P.ImportPath, paths: seq<P.ImportPath>, p: Path, q: Path, vis: Visibility)
    requires forall x :: x in paths ==> x < node
    ensures ImportsOfAll(node, paths, p + q, vis) == Prefixed(p, ImportsOfAll(node, paths, q, vis))
    decreases node, 0, |paths|
  {
    if paths != [] {
      var init := paths[..|paths| - 1];
      assert paths[|paths| - 1] in paths && forall x :: x in init ==> x in paths;
      ImportsOfAllPrefix(node, init, p, q, vis);
      ImportsOfPrefix(paths[|paths| - 1], p, q, vis);
      PrefixedAppend(p, ImportsOfAll(node, init, q, vis), ImportsOf(paths[|paths| - 1], q, vis));
    }
  }

  /** The mutable state of `tr_import_path`: the path being built and the imports so far. */
  class ImportCollector {
    var path: Path
    var imports: seq<Import>

    constructor ()
      ensures path == [] && imports == []
    {
      path := [];
      imports := [];
    }

    /** `tr_import_path`: appends the imports of `node` under the current path, and leaves the
        path as it found it. */
    method TrImportPath(node: P.ImportPath, vis: Visibility)
      modifies this
      ensures path == old(path)
      ensures imports == old(imports) + ImportsOf(node, old(path), vis)
      decreases node, 1
    {
      match node
      case Exact(ident, alias, _) =>
        path := PushBack(path, ident);
        imports := imports + [Import(path, alias, false, vis)];
        path := PopBack(path);
      case All(_) =>
        imports := imports + [Import(path, None, true, vis)];
      case Segment(ident, next, _) =>
        path := PushBack(path, ident);
        TrImportPath(next, vis);
        path := PopBack(path);
      case Many(_, _) =>
        TrImportMany(node, vis);
    }

    /** The `{a, b, ...}` arm: each path in turn, under the same current path. */
    method TrImportMany(node: P.ImportPath, vis: Visibility)
      requires node.Many?
      modifies this
      ensures path == old(path)
      ensures imports == old(imports) + ImportsOf(node, old(path), vis)
      decreases node, 0
    {
      var paths := node.paths;
      var i := 0;
      while i < |paths|
        invariant 0 <= i <= |paths|
        invariant path == old(path)
        invariant imports == old(imports) + ImportsOfAll(node, paths[..i], old(path), vis)
      {
        ghost var done := ImportsOfAll(node, paths[..i], old(path), vis);
        TrImportPath(paths[i], vis);
        ImportsOfAllSnoc(node, i, old(path), vis);
        assert imports == old(imports) + (done + ImportsOf(paths[i], old(path), vis));
        i := i + 1;
      }
      assert paths[..i] == paths;
    }
  }

  /** `generate_imports`: the imports of one `import` statement, starting from the empty path. */
  method GenerateImports(it: P.ImportStmt) returns (imports: seq<Import>)
    ensures imports == ImportsOf(it.path, [], it.vis)
  {
    var c := new ImportCollector();
    c.TrImportPath(it.path, it.vis);
    imports := c.imports;
  }

  // ==== Declarations ========================================================================

  /** Two scope kinds of the same form with the same parent; module imports may differ. */
  predicate SameShape(x: ScopeKind, y: ScopeKind)
  {
    match x
    case RootScope => y.RootScope?
    case ModuleScope(_, p) => y.ModuleScope? && y.parent == p
    case EnumScope(p) => y.EnumScope? && y.parent == p
    case StructScope(p) => y.StructScope? && y.parent == p
  }

  /** `b` extends `a`: no scope disappears or changes form or parent, and no binding is lost
      or rebound. The namespace pass only ever grows the tree this way. */
  ghost predicate Grows(a: ScopeInfo, b: ScopeInfo)
  {
    forall k :: k in a ==>
      k in b && SameShape(a[k].kind, b[k].kind)
      && (forall n :: n in a[k].items ==> n in b[k].items && b[k].items[n] == a[k].items[n])
  }

  lemma GrowsTrans(a: ScopeInfo, b: ScopeInfo, c: ScopeInfo)
    requires Grows(a, b) && Grows(b, c)
    ensures Grows(a, c)
  {
  }

  /** Every scope id was drawn from the counter (or is the root's), so a fresh id opens no
      scope yet. */
  ghost predicate IdsBelow(scopes: ScopeInfo, counter: nat)
  {
    forall k :: k in scopes ==> k.id <= counter
  }

  /** The name and binding a translated item is declared under. */
  function ItemBinding(it: T.ModuleItem): (nb: (string, Binding))
    ensures nb.1.sym.Local?
  {
    match it
    case SubModule(m) => (m.name.data, Binding(m.vis, Module, Local(m.id)))
    case FuncItem(f) => (f.name.data, Binding(f.vis, Func, Local(f.id)))
    case StructItem(st) => (st.name.data, Binding(st.vis, Struct, Local(st.id)))
    case EnumItem(en) => (en.name.data, Binding(en.vis, Enum, Local(en.id)))
  }

  /** `it` is bound, under its own name and id, in the scope `sid`. */
  ghost predicate Registered(scopes: ScopeInfo, sid: NodeID, it: T.ModuleItem)
  {
    sid in scopes && ItemBinding(it).0 in scopes[sid].items
    && scopes[sid].items[ItemBinding(it).0] == ItemBinding(it).1
  }

  /** The item `Module::empty()` stands in for a module whose name was already taken. */
  predicate IsPlaceholder(it: T.ModuleItem)
  {
    it.SubModule? && it.sub.items == [] && it.sub.name.data == "<unknown>"
  }

  /** `Env::add_item` of the item's own binding succeeded on `env`: what the callers need. */
  ghost predicate AddedHere(old_scopes: ScopeInfo, cur: NodeID, scopes: ScopeInfo, name: string, b: Binding)
  {
    cur in old_scopes && name !in old_scopes[cur].items
    && scopes == old_scopes[cur := old_scopes[cur].(items := old_scopes[cur].items[name := b])]
  }

  lemma AddedGrows(old_scopes: ScopeInfo, cur: NodeID, scopes: ScopeInfo, name: string, b: Binding)
    requires AddedHere(old_scopes, cur, scopes, name, b)
    ensures Grows(old_scopes, scopes)
    ensures cur in scopes && name in scopes[cur].items && scopes[cur].items[name] == b
  {
  }

  /** A binding present before the scopes grow is still there, unchanged. */
  lemma GrowsKeeps(a: ScopeInfo, b: ScopeInfo, sid: NodeID, name: string)
    requires Grows(a, b) && sid in a && name in a[sid].items
    ensures sid in b && name in b[sid].items && b[sid].items[name] == a[sid].items[name]
  {
  }

  /** An enum is registered in `sid` once its name is bound there to its own id. */
  lemma RegisteredEnum(scopes: ScopeInfo, sid: NodeID, en: T.Enum)
    requires sid in scopes && en.name.data in scopes[sid].items
    requires scopes[sid].items[en.name.data] == Binding(en.vis, Enum, Local(en.id))
    ensures Registered(scopes, sid, T.EnumItem(en))
  {
  }

  /** `tr_func`: a fresh id bound to the function's name in the current scope. The name being
      taken is the diagnostic returned. */
  method TrFunc(env: Env, gen: NodeIdGen, it: P.Func) returns (r: Res<T.Func>)
    requires gen.Valid() && IdsBelow(env.scopes, gen.counter)
    modifies env, gen
    ensures gen.Valid() && gen.counter == old(gen.counter) + 1 && IdsBelow(env.scopes, gen.counter)
    ensures r.Err? <==> !IsReservedName(it.name.data) && old(env.currentId) in old(env.scopes)
                        && it.name.data in old(env.scopes)[old(env.currentId)].items
    ensures r.Err? ==> r.diag == Diagnostic(AlreadyBound(it.name.data), it.name.pos)
    ensures r.Ok? ==> r.value.id == NodeID(gen.counter) && r.value.name == it.name && r.value.body == it.body
                      && AddedHere(old(env.scopes), env.currentId, env.scopes, it.name.data, ItemBinding(T.FuncItem(r.value)).1)
    ensures !r.Ok? ==> env.scopes == old(env.scopes)
    ensures env.currentId == old(env.currentId) && env.currentPath == old(env.currentPath) && env.fileMap == old(env.fileMap)
  {
    var id := gen.NewGlobal();
    var added := env.AddItem(it.name, Binding(it.vis, Func, Local(id)));
    match added
    case Abort(why) => return Abort(why);
    case Err(d) => return Err(d);
    case Ok(_) =>
      r := Ok(T.Func(it.attributes, it.vis, id, it.name, it.args, it.retType, it.body, it.pos));
  }

  /** `tr_struct`: like a function, a fresh id bound to the struct's name; a taken name is
      reported and the struct dropped. Structs open no scope in this pass, and the methods are
      not carried over. */
  method TrStruct(ctx: Context, env: Env, gen: NodeIdGen, it: P.Struct) returns (r: Res<Option<T.Struct>>)
    requires gen.Valid() && IdsBelow(env.scopes, gen.counter)
    modifies ctx, env, gen
    ensures gen.Valid() && gen.counter == old(gen.counter) + 1 && IdsBelow(env.scopes, gen.counter)
    ensures r.Abort? <==> IsReservedName(it.name.data) || old(env.currentId) !in old(env.scopes)
    ensures r.Ok? && r.value.None? <==> !r.Abort? && it.name.data in old(env.scopes)[old(env.currentId)].items
    ensures r.Ok? && r.value.None? ==>
      ctx.diagnostics == old(ctx.diagnostics) + [Diagnostic(AlreadyBound(it.name.data), it.name.pos)]
    ensures r.Ok? && r.value.Some? ==>
      r.value.value.id == NodeID(gen.counter) && r.value.value.name == it.name && r.value.value.fields == it.fields
      && AddedHere(old(env.scopes), env.currentId, env.scopes, it.name.data, ItemBinding(T.StructItem(r.value.value)).1)
      && ctx.diagnostics == old(ctx.diagnostics)
    ensures !(r.Ok? && r.value.Some?) ==> env.scopes == old(env.scopes)
    ensures env.currentId == old(env.currentId) && env.currentPath == old(env.currentPath) && env.fileMap == old(env.fileMap)
  {
    var id := gen.NewGlobal();
    var added := env.AddItem(it.name, Binding(it.vis, Struct, Local(id)));
    match added
    case Abort(why) => return Abort(why);
    case Err(d) =>
      ctx.Report(d);
      return Ok(None);
    case Ok(_) =>
      r := Ok(Some(T.Struct(it.attributes, it.vis, id, it.name, it.fields, it.pos, [])));
  }

  /** `tr_cons`: a tuple constructor gets a fresh id bound in the current (enum) scope with the
      enum's visibility; a constructor with named fields is a `todo!()` and panics. */
  method TrCons(env: Env, gen: NodeIdGen, it: P.Constructor, vis: Visibility) returns (r: Res<T.Constructor>)
    requires gen.Valid() && IdsBelow(env.scopes, gen.counter)
    modifies env, gen
    ensures gen.Valid() && gen.counter >= old(gen.counter) && IdsBelow(env.scopes, gen.counter)
    ensures it.StructCons? ==> r.Abort?
    ensures r.Err? <==> it.TupleCons? && !IsReservedName(it.name.data) && old(env.currentId) in old(env.scopes)
                        && it.name.data in old(env.scopes)[old(env.currentId)].items
    ensures r.Err? ==> r.diag == Diagnostic(AlreadyBound(it.name.data), it.name.pos)
    ensures r.Ok? ==> r.value.TupleCons? && r.value.id == NodeID(gen.counter) && r.value.name == it.name
                      && r.value.params == it.params
                      && AddedHere(old(env.scopes), env.currentId, env.scopes, it.name.data, Binding(vis, Cons, Local(r.value.id)))
    ensures !r.Ok? ==> env.scopes == old(env.scopes)
    ensures env.currentId == old(env.currentId) && env.currentPath == old(env.currentPath) && env.fileMap == old(env.fileMap)
  {
    match it
    case TupleCons(attributes, name, pos, params) =>
      var id := gen.NewGlobal();
      var added := env.AddItem(name, Binding(vis, Cons, Local(id)));
      match added {
        case Abort(why) => return Abort(why);
        case Err(d) => return Err(d);
        case Ok(_) => r := Ok(T.TupleCons(attributes, id, name, pos, params));
      }
    case StructCons(_, _, _, _) =>
      r := Abort("not yet implemented: struct constructors");
  }

  /** The constructors of an enum, each bound in the enum's scope `sid` under its name. */
  ghost predicate ConsRegistered(scopes: ScopeInfo, sid: NodeID, vis: Visibility, cs: seq<T.Constructor>)
  {
    forall k :: 0 <= k < |cs| ==>
      sid in scopes && cs[k].name.data in scopes[sid].items && scopes[sid].items[cs[k].name.data] == Binding(vis, Cons, Local(cs[k].id))
  }

  /** The constructor loop of `tr_enum`, run inside the enum's own scope `id`: each constructor is
      bound there in turn; one whose name is taken is reported and dropped. */
  method TrEnumConstructors(ctx: Context, env: Env, gen: NodeIdGen, cs: seq<P.Constructor>, vis: Visibility, id: NodeID)
    returns (r: Res<seq<T.Constructor>>)
    requires gen.Valid() && IdsBelow(env.scopes, gen.counter)
    requires env.currentId == id && id in env.scopes
    modifies ctx, env, gen
    ensures gen.Valid() && gen.counter >= old(gen.counter) && IdsBelow(env.scopes, gen.counter)
    ensures Grows(old(env.scopes), env.scopes)
    ensures env.currentId == id && env.currentPath == old(env.currentPath) && env.fileMap == old(env.fileMap)
    ensures r.Ok? ==> |r.value| <= |cs| && ConsRegistered(env.scopes, id, vis, r.value)
    ensures !r.Abort? ==> r.Ok?
  {
    var constructors := [];
    var i := 0;
    while i < |cs|
      invariant 0 <= i <= |cs| && |constructors| <= i
      invariant gen.Valid() && gen.counter >= old(gen.counter) && IdsBelow(env.scopes, gen.counter)
      invariant Grows(old(env.scopes), env.scopes)
      invariant env.currentId == id && env.currentPath == old(env.currentPath) && env.fileMap == old(env.fileMap)
      invariant ConsRegistered(env.scopes, id, vis, constructors)
    {
      ghost var before := env.scopes;
      var c := TrCons(env, gen, cs[i], vis);
      match c {
        case Abort(why) => return Abort(why);
        case Err(d) => ctx.Report(d);
        case Ok(cons) =>
          AddedGrows(before, id, env.scopes, cons.name.data, Binding(vis, Cons, Local(cons.id)));
          constructors := constructors + [cons];
      }
      i := i + 1;
    }
    r := Ok(constructors);
  }

  /** `tr_enum`: a fresh id bound to the enum's name and an enum scope opened under it, in which
      the constructors are bound; constructors whose name is taken are reported and dropped.
      A taken enum name is reported and the enum dropped. */
  method TrEnum(ctx: Context, env: Env, gen: NodeIdGen, it: P.Enum) returns (r: Res<Option<T.Enum>>)
    requires gen.Valid() && IdsBelow(env.scopes, gen.counter)
    modifies ctx, env, gen
    ensures gen.Valid() && gen.counter >= old(gen.counter) && IdsBelow(env.scopes, gen.counter)
    ensures Grows(old(env.scopes), env.scopes)
    ensures !IsReservedName(it.name.data) && old(env.currentId) in old(env.scopes)
            && it.name.data in old(env.scopes)[old(env.currentId)].items ==>
      r == Ok(None) && env.scopes == old(env.scopes)
      && ctx.diagnostics == old(ctx.diagnostics) + [Diagnostic(AlreadyBound(it.name.data), it.name.pos)]
    ensures r.Ok? && r.value.Some? ==>
      var en := r.value.value;
      en.name == it.name && |en.constructors| <= |it.constructors|
      && Registered(env.scopes, old(env.currentId), T.EnumItem(en))
      && en.id in env.scopes && env.scopes[en.id].kind == EnumScope(old(env.currentId))
      && ConsRegistered(env.scopes, en.id, it.vis, en.constructors)
    ensures r.Ok? ==> env.currentId == old(env.currentId) && env.currentPath == old(env.currentPath)
    ensures env.fileMap == old(env.fileMap)
  {
    var outer := env.currentId;
    var id := gen.NewGlobal();
    var added := env.AddItem(it.name, Binding(it.vis, Enum, Local(id)));
    match added {
      case Abort(why) => return Abort(why);
      case Err(d) =>
        ctx.Report(d);
        return Ok(None);
      case Ok(_) =>
    }
    AddedGrows(old(env.scopes), outer, env.scopes, it.name.data, Binding(it.vis, Enum, Local(id)));
    ghost var bound := env.scopes;
    env.AddModInfo(id, Scope(map[], EnumScope(outer)));
    assert Grows(bound, env.scopes);
    GrowsTrans(old(env.scopes), bound, env.scopes);
    ghost var ready := env.scopes;
    assert outer in ready && it.name.data in ready[outer].items
           && ready[outer].items[it.name.data] == Binding(it.vis, Enum, Local(id));
    var body := TrEnumScope(ctx, env, gen, it, id, outer);
    GrowsTrans(old(env.scopes), ready, env.scopes);
    match body {
      case Abort(why) => return Abort(why);
      case Err(d) => return Err(d);
      case Ok(en) => r := Ok(Some(en));
    }
  }

  /** The part of `tr_enum` run inside the enum's scope: entering it, binding the constructors
      and leaving it again, once the enum's name is bound to `id` in the scope `outer`. */
  method TrEnumScope(ctx: Context, env: Env, gen: NodeIdGen, it: P.Enum, id: NodeID, outer: NodeID)
    returns (r: Res<T.Enum>)
    requires gen.Valid() && IdsBelow(env.scopes, gen.counter)
    requires env.currentId == outer && outer in env.scopes && it.name.data in env.scopes[outer].items
    requires env.scopes[outer].items[it.name.data] == Binding(it.vis, Enum, Local(id))
    requires id in env.scopes && env.scopes[id].kind == EnumScope(outer)
    modifies ctx, env, gen
    ensures gen.Valid() && gen.counter >= old(gen.counter) && IdsBelow(env.scopes, gen.counter)
    ensures Grows(old(env.scopes), env.scopes)
    ensures r.Ok? ==>
      var en := r.value;
      en.name == it.name && |en.constructors| <= |it.constructors|
      && Registered(env.scopes, outer, T.EnumItem(en))
      && en.id in env.scopes && env.scopes[en.id].kind == EnumScope(outer)
      && ConsRegistered(env.scopes, en.id, it.vis, en.constructors)
    ensures r.Ok? ==> env.currentId == outer && env.currentPath == old(env.currentPath)
    ensures env.fileMap == old(env.fileMap)
  {
    var entered := env.Enter(it.name.data);
    assert entered;
    ghost var outerPath := old(env.currentPath);
    ghost var inner := env.scopes;
    var cs := TrEnumConstructors(ctx, env, gen, it.constructors, it.vis, id);
    var constructors;
    match cs {
      case Abort(why) => return Abort(why);
      case Err(d) => return Err(d);
      case Ok(v) => constructors := v;
    }
    assert env.scopes[id].kind == EnumScope(outer);
    GrowsKeeps(inner, env.scopes, outer, it.name.data);
    RegisteredEnum(env.scopes, outer, T.Enum(it.attributes, it.vis, id, it.name, constructors, it.pos, []));
    var left := env.Leave();
    assert left;
    PopLastAppend(outerPath, it.name.data);
    r := Ok(T.Enum(it.attributes, it.vis, id, it.name, constructors, it.pos, []));
  }

  /** The translated items of a module scope `sid` are all bound in it, but for placeholders. */
  ghost predicate ItemsRegistered(scopes: ScopeInfo, sid: NodeID, items: seq<T.ModuleItem>)
  {
    forall k :: 0 <= k < |items| ==> Registered(scopes, sid, items[k]) || IsPlaceholder(items[k])
  }

  lemma ItemsRegisteredGrows(a: ScopeInfo, b: ScopeInfo, sid: NodeID, items: seq<T.ModuleItem>)
    requires Grows(a, b) && ItemsRegistered(a, sid, items)
    ensures ItemsRegistered(b, sid, items)
  {
    forall k | 0 <= k < |items| && Registered(a, sid, items[k])
      ensures Registered(b, sid, items[k])
    {
    }
  }

  /** The module's own scope `id`, opened under `outer`, is the current one at `path`. */
  ghost predicate InModule(env: Env, id: NodeID, outer: NodeID, path: seq<string>)
    reads env
  {
    env.currentId == id && env.currentPath == path
    && id in env.scopes && env.scopes[id].kind.ModuleScope? && env.scopes[id].kind.parent == outer
  }

  /** `tr_module`: a fresh id bound to the module's name in the current scope, a module scope
      opened under it, and the items translated inside it; then back to the outer scope. A
      taken name is reported and an empty module (with an id of its own) stands in for it.
      Every module file is handed out at most once, which is what makes the recursion through
      `mod name;` declarations end. */
  method TrModule(ctx: Context, env: Env, gen: NodeIdGen, m: P.Module) returns (r: Res<T.Module>)
    requires gen.Valid() && IdsBelow(env.scopes, gen.counter)
    modifies ctx, env, gen
    ensures gen.Valid() && gen.counter >= old(gen.counter) && IdsBelow(env.scopes, gen.counter)
    ensures Grows(old(env.scopes), env.scopes)
    ensures env.fileMap.Keys <= old(env.fileMap.Keys)
    ensures r.Ok? ==> env.currentId == old(env.currentId) && env.currentPath == old(env.currentPath)
    ensures !IsReservedName(m.name.data) && old(env.currentId) in old(env.scopes)
            && m.name.data in old(env.scopes)[old(env.currentId)].items ==>
      r.Ok? && IsPlaceholder(T.SubModule(r.value)) && r.value.id.id > old(gen.counter)
      && env.scopes == old(env.scopes) && env.fileMap == old(env.fileMap)
      && ctx.diagnostics == old(ctx.diagnostics) + [Diagnostic(AlreadyBound(m.name.data), m.name.pos)]
    ensures r.Ok? && !IsPlaceholder(T.SubModule(r.value)) ==>
      r.value.name == m.name
      && Registered(env.scopes, old(env.currentId), T.SubModule(r.value))
      && r.value.id in env.scopes && env.scopes[r.value.id].kind.ModuleScope?
      && env.scopes[r.value.id].kind.parent == old(env.currentId)
      && ItemsRegistered(env.scopes, r.value.id, r.value.items)
    decreases env.fileMap.Keys, m, 1
  {
    var outer := env.currentId;
    ghost var outerPath := env.currentPath;
    var id := gen.NewGlobal();
    var binding := Binding(m.vis, Module, Local(id));
    var added := env.AddItem(m.name, binding);
    match added {
      case Abort(why) => return Abort(why);
      case Err(d) =>
        ctx.Report(d);
        var eid := gen.NewGlobal();
        return Ok(T.EmptyModule(eid));
      case Ok(_) =>
    }
    AddedGrows(old(env.scopes), outer, env.scopes, m.name.data, binding);
    ghost var bound := env.scopes;
    env.AddModInfo(id, Scope(map[], ModuleScope([], outer)));
    assert Grows(bound, env.scopes);
    GrowsTrans(old(env.scopes), bound, env.scopes);
    var entered := env.Enter(m.name.data);
    assert entered;
    ghost var inner := env.scopes;
    var res := TrItems(ctx, env, gen, m, id, outer);
    GrowsTrans(old(env.scopes), inner, env.scopes);
    if !res.Ok? {
      return if res.Err? then Err(res.diag) else Abort(res.reason);
    }
    var items := res.value;
    var left := env.Leave();
    assert left;
    PopLastAppend(outerPath, m.name.data);
    r := Ok(T.Module(m.attributes, m.vis, id, m.name, items, m.pos));
  }

  /** The loop of `tr_module` over the items of `m`, inside the module's own scope `id`. */
  method TrItems(ctx: Context, env: Env, gen: NodeIdGen, m: P.Module, id: NodeID, outer: NodeID)
    returns (r: Res<seq<T.ModuleItem>>)
    requires gen.Valid() && IdsBelow(env.scopes, gen.counter)
    requires InModule(env, id, outer, env.currentPath)
    modifies ctx, env, gen
    ensures gen.Valid() && gen.counter >= old(gen.counter) && IdsBelow(env.scopes, gen.counter)
    ensures Grows(old(env.scopes), env.scopes)
    ensures env.fileMap.Keys <= old(env.fileMap.Keys)
    ensures r.Ok? ==> InModule(env, id, outer, old(env.currentPath)) && ItemsRegistered(env.scopes, id, r.value)
    decreases env.fileMap.Keys, m, 0
  {
    var items := [];
    var i := 0;
    while i < |m.items|
      invariant 0 <= i <= |m.items|
      invariant gen.Valid() && gen.counter >= old(gen.counter) && IdsBelow(env.scopes, gen.counter)
      invariant Grows(old(env.scopes), env.scopes)
      invariant InModule(env, id, outer, old(env.currentPath))
      invariant ItemsRegistered(env.scopes, id, items)
      invariant env.fileMap.Keys <= old(env.fileMap.Keys)
    {
      ghost var before := env.scopes;
      var res := TrItem(ctx, env, gen, m.items[i]);
      match res {
        case Abort(why) => return Abort(why);
        case Err(d) => return Err(d);
        case Ok(None) =>
          ItemsRegisteredGrows(before, env.scopes, id, items);
        case Ok(Some(it)) =>
          ItemsRegisteredGrows(before, env.scopes, id, items);
          items := items + [it];
      }
      GrowsTrans(old(env.scopes), before, env.scopes);
      i := i + 1;
    }
    r := Ok(items);
  }

  /** Queues `imports`, in order, on the current module scope. */
  method QueueImports(env: Env, imports: seq<Import>)
    requires env.currentId in env.scopes && env.scopes[env.currentId].kind.ModuleScope?
    modifies env
    ensures env.currentId == old(env.currentId) && env.currentPath == old(env.currentPath)
    ensures env.fileMap == old(env.fileMap) && env.scopes.Keys == old(env.scopes.Keys)
    ensures Grows(old(env.scopes), env.scopes)
    ensures env.scopes[env.currentId].kind.ModuleScope?
    ensures env.scopes[env.currentId].kind.imports == old(env.scopes)[env.currentId].kind.imports + imports
  {
    var j := 0;
    while j < |imports|
      invariant 0 <= j <= |imports|
      invariant env.currentId == old(env.currentId) && env.currentPath == old(env.currentPath)
      invariant env.fileMap == old(env.fileMap) && env.scopes.Keys == old(env.scopes.Keys)
      invariant Grows(old(env.scopes), env.scopes)
      invariant env.scopes[env.currentId].kind.ModuleScope?
      invariant env.scopes[env.currentId].kind.imports == old(env.scopes)[env.currentId].kind.imports + imports[..j]
    {
      var queued := env.AddImport(imports[j]);
      assert queued;
      assert imports[..j + 1] == imports[..j] + [imports[j]];
      j := j + 1;
    }
    assert imports[..j] == imports;
  }

  /** One item of `tr_module`'s loop, in the module scope that is current: a nested module is
      translated in place, a `mod name;` declaration loads the file at the current path plus
      `name` (a missing file is reported and skipped), an `import` queues its imports on the
      scope, declarations are translated (a taken name is reported and the item skipped), and
      an erroneous item is skipped. */
  method TrItem(ctx: Context, env: Env, gen: NodeIdGen, item: P.ModuleItem) returns (r: Res<Option<T.ModuleItem>>)
    requires gen.Valid() && IdsBelow(env.scopes, gen.counter)
    requires env.currentId in env.scopes && env.scopes[env.currentId].kind.ModuleScope?
    modifies ctx, env, gen
    ensures gen.Valid() && gen.counter >= old(gen.counter) && IdsBelow(env.scopes, gen.counter)
    ensures Grows(old(env.scopes), env.scopes)
    ensures env.fileMap.Keys <= old(env.fileMap.Keys)
    ensures r.Ok? ==> env.currentId == old(env.currentId) && env.currentPath == old(env.currentPath)
    ensures r.Ok? && r.value.Some? ==>
      Registered(env.scopes, old(env.currentId), r.value.value) || IsPlaceholder(r.value.value)
    ensures item.ImportItem? ==>
      r.Ok? && r.value.None? && env.scopes.Keys == old(env.scopes.Keys)
      && env.scopes[env.currentId].kind.imports
         == old(env.scopes)[env.currentId].kind.imports + ImportsOf(item.stmt.path, [], item.stmt.vis)
    ensures item.DeclItem? && old(env.currentPath) + [item.decl.name.data] !in old(env.fileMap) ==>
      r == Ok(None) && ctx.diagnostics == old(ctx.diagnostics) + [Diagnostic(MissingModule(item.decl.name.data), item.decl.pos)]
    decreases env.fileMap.Keys, item, 0
  {
    match item
    case SubModule(sub) =>
      var res := TrModule(ctx, env, gen, sub);
      match res {
        case Abort(why) => return Abort(why);
        case Err(d) => return Err(d);
        case Ok(mm) => return Ok(Some(T.SubModule(mm)));
      }
    case DeclItem(decl) =>
      var path := env.currentPath + [decl.name.data];
      var loaded := env.RemoveModule(path);
      match loaded {
        case None =>
          ctx.Report(Diagnostic(MissingModule(decl.name.data), decl.pos));
          return Ok(None);
        case Some(sub) =>
          assert env.fileMap.Keys < old(env.fileMap.Keys);
          var res := TrModule(ctx, env, gen, sub);
          match res {
            case Abort(why) => return Abort(why);
            case Err(d) => return Err(d);
            case Ok(mm) => return Ok(Some(T.SubModule(mm)));
          }
      }
    case ImportItem(stmt) =>
      var imports := GenerateImports(stmt);
      QueueImports(env, imports);
      return Ok(None);
    case FuncItem(f) =>
      var res := TrFunc(env, gen, f);
      match res {
        case Abort(why) => return Abort(why);
        case Err(d) =>
          ctx.Report(d);
          return Ok(None);
        case Ok(ff) =>
          AddedGrows(old(env.scopes), env.currentId, env.scopes, f.name.data, ItemBinding(T.FuncItem(ff)).1);
          return Ok(Some(T.FuncItem(ff)));
      }
    case StructItem(st) =>
      var res := TrStruct(ctx, env, gen, st);
      match res {
        case Abort(why) => return Abort(why);
        case Err(d) => return Err(d);
        case Ok(None) => return Ok(None);
        case Ok(Some(ss)) =>
          AddedGrows(old(env.scopes), env.currentId, env.scopes, st.name.data, ItemBinding(T.StructItem(ss)).1);
          return Ok(Some(T.StructItem(ss)));
      }
    case EnumItem(en) =>
      var res := TrEnum(ctx, env, gen, en);
      match res {
        case Abort(why) => return Abort(why);
        case Err(d) => return Err(d);
        case Ok(None) => return Ok(None);
        case Ok(Some(ee)) => return Ok(Some(T.EnumItem(ee)));
      }
    case ErrorItem =>
      return Ok(None);
  }

  /** `translate`: the namespace tree of the whole program, from the module of the file path
      `["src"]`, with its imports solved. The root file missing is an internal error. The
      node-id counter is `gen`; `passes` bounds the import passes. */
  method Translate(ctx: Context, gen: NodeIdGen, files: map<seq<string>, P.Module>, passes: nat) returns (r: Res<T.Program>)
    requires gen.Valid()
    modifies ctx, gen
    ensures ["src"] !in files ==> r == Err(Diagnostic(InternalError("failed to load root module"), Nowhere))
    ensures r.Ok? ==> ImportSolve.Pass(r.value.scopes) == Value((r.value.scopes, false))
    ensures r.Ok? ==> OfRoot() in r.value.scopes
  {
    var env := new Env.Init(files);
    var root := env.RemoveModule(["src"]);
    if root.None? {
      return Err(Diagnostic(InternalError("failed to load root module"), Nowhere));
    }
    assert IdsBelow(env.scopes, gen.counter);
    var ast := TrModule(ctx, env, gen, root.value);
    if !ast.Ok? {
      return if ast.Err? then Err(ast.diag) else Abort(ast.reason);
    }
    var tree := env.scopes;
    var solved, order := ImportSolve.Solve(ctx, tree, passes);
    match solved {
      case Solved(t) =>
        r := Ok(T.Program(t, ast.value));
      case Panicked(why) => r := Abort(why);
      case Unfinished => r := Abort("import resolution did not settle within the pass budget");
    }
  }
}
