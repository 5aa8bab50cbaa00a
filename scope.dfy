/** Namespace scopes and their bindings (src/mod_tree/scope.rs), and the scope map with the
    dotted lookup `find_path` (src/mod_tree/scope_info.rs). */
module Scopes {
  import opened Wrappers
  import opened Common
  import opened NodeIds

  /** What a name is bound to. */
  datatype Kind = Module | Func | Struct | Enum | Cons | BuiltinType

  /** How a name came to be bound: declared here, imported by name, imported by a glob, or
      imported from several places at once. */
  datatype Symbol =
    | Local(id: NodeID)
    | Imported(id: NodeID)
    | GlobImported(id: NodeID)
    | Ambiguous(ids: set<NodeID>)

  datatype Binding = Binding(vis: Visibility, kind: Kind, sym: Symbol)

  /** A pending import: the dotted path, an optional alias, whether it is a glob. */
  datatype Import = Import(path: Path, alias: Option<Ident>, isGlob: bool, vis: Visibility)

  /** The kind of a scope; only modules hold pending imports. */
  datatype ScopeKind =
    | RootScope
    | ModuleScope(imports: seq<Import>, parent: NodeID)
    | EnumScope(parent: NodeID)
    | StructScope(parent: NodeID)

  /** A scope: its bindings by name (a `BTreeMap`) and its kind. */
  datatype Scope = Scope(items: map<string, Binding>, kind: ScopeKind)

  /** `Scope::parent`: every scope but the root has one, read off its kind alone. */
  function Parent(s: Scope): (r: Option<NodeID>)
    ensures r.None? <==> s.kind.RootScope?
    ensures !s.kind.RootScope? ==> r == Some(s.kind.parent)
  {
    match s.kind
    case RootScope => None
    case ModuleScope(_, parent) => Some(parent)
    case StructScope(parent) => Some(parent)
    case EnumScope(parent) => Some(parent)
  }

  /** The parent does not depend on the items or on the pending imports. */
  lemma ParentIgnoresItems(s: Scope, items: map<string, Binding>, imports: seq<Import>)
    ensures Parent(s.(items := items)) == Parent(s)
    ensures s.kind.ModuleScope? ==> Parent(s.(kind := s.kind.(imports := imports))) == Parent(s)
  {
  }

  /** `ScopeInfo`: the scopes by the id of the module, struct or enum that opens them. */
  type ScopeInfo = map<NodeID, Scope>

  /** The id a non-ambiguous symbol names. */
  function SymbolId(sym: Symbol): (id: NodeID)
    requires !sym.Ambiguous?
  {
    match sym
    case Local(id) => id
    case Imported(id) => id
    case GlobImported(id) => id
  }

  /** The decreasing measure of `find_path`: the segments left, then whether the guard is set
      (the restart at the root keeps the path but clears the guard). */
  function GuardRank(guard: bool): nat
  {
    if guard then 1 else 0
  }

  /** `ScopeInfo::find_path`: looks the dotted `path` up starting in the scope `scopeId`.
      `guard` is the private guard: it lets one private binding through and enables `super`
      and the fallback to the root. The source passes it as `&mut bool` but never writes the
      caller's flag (the local at line 68 shadows it), so it is a plain argument here.
      Missing scopes, an empty path, `super` at the root and a builtin type in the middle of
      a path panic. */
  function FindPath(info: ScopeInfo, scopeId: NodeID, path: Path, guard: bool): (r: Res<Binding>)
    ensures r.Ok? ==> !r.value.sym.Ambiguous?
    decreases |path|, GuardRank(guard)
  {
    if path == [] then Abort("find_path on an empty path")
    else if scopeId !in info then Abort("find_path in a missing scope")
    else
      var name := path[0];
      var rest := path[1..];
      var ns := info[scopeId];
      if name.data in ns.items then
        var b := ns.items[name.data];
        if b.vis == Private && !guard then Err(Diagnostic(PrivateItem(name.data), name.pos))
        else if rest == [] then
          if b.sym.Ambiguous? then Err(Diagnostic(AmbiguousSymbol(name.data), name.pos)) else Ok(b)
        else
          match b.kind
          case Module =>
            if b.sym.Ambiguous? then Err(Diagnostic(AmbiguousSymbol(name.data), name.pos))
            else FindPath(info, SymbolId(b.sym), rest, false)
          case Struct =>
            if b.sym.Ambiguous? then Err(Diagnostic(AmbiguousSymbol(name.data), name.pos))
            else FindPath(info, SymbolId(b.sym), rest, true)
          case Enum =>
            if b.sym.Ambiguous? then Err(Diagnostic(AmbiguousSymbol(name.data), name.pos))
            else FindPath(info, SymbolId(b.sym), rest, true)
          case Func => Err(Diagnostic(CannotImportFrom(name.data, name.data + " is a function"), name.pos))
          case Cons => Err(Diagnostic(CannotImportFrom(name.data, name.data + " is an enum constructor"), name.pos))
          case BuiltinType => Abort("unreachable: a builtin type in an import path")
      else if guard then
        if name.data == "super" then
          match Parent(ns)
          case None => Abort("super at the root")
          case Some(parent) =>
            if rest == [] then Ok(Binding(Private, Module, Imported(parent)))
            else FindPath(info, parent, rest, guard)
        else
          FindPath(info, OfRoot(), PushFront(rest, name), false)
      else Err(Diagnostic(UnboundVariable(name.data), name.pos))
  }

  /** A private binding is refused unless the guard is set. */
  lemma FindPathPrivate(info: ScopeInfo, scopeId: NodeID, path: Path)
    requires path != [] && scopeId in info && path[0].data in info[scopeId].items
    requires info[scopeId].items[path[0].data].vis == Private
    ensures FindPath(info, scopeId, path, false) == Err(Diagnostic(PrivateItem(path[0].data), path[0].pos))
  {
  }

  /** On the last segment the binding found is returned as it is, unless it is ambiguous. */
  lemma FindPathLast(info: ScopeInfo, scopeId: NodeID, name: Ident, guard: bool)
    requires scopeId in info && name.data in info[scopeId].items
    requires var b := info[scopeId].items[name.data]; b.vis == Public || guard
    ensures var b := info[scopeId].items[name.data];
      FindPath(info, scopeId, [name], guard) ==
        if b.sym.Ambiguous? then Err(Diagnostic(AmbiguousSymbol(name.data), name.pos)) else Ok(b)
  {
  }

  /** Going down: through a module the rest of the path is looked up with the guard cleared;
      through a struct or an enum with the guard set. */
  lemma FindPathDescends(info: ScopeInfo, scopeId: NodeID, path: Path, guard: bool)
    requires |path| >= 2 && scopeId in info && path[0].data in info[scopeId].items
    requires var b := info[scopeId].items[path[0].data];
      (b.vis == Public || guard) && !b.sym.Ambiguous? && b.kind in {Module, Struct, Enum}
    ensures var b := info[scopeId].items[path[0].data];
      FindPath(info, scopeId, path, guard) == FindPath(info, SymbolId(b.sym), path[1..], b.kind != Module)
  {
  }

  /** A function or a constructor cannot be looked into. */
  lemma FindPathThroughFunc(info: ScopeInfo, scopeId: NodeID, path: Path, guard: bool)
    requires |path| >= 2 && scopeId in info && path[0].data in info[scopeId].items
    requires var b := info[scopeId].items[path[0].data]; (b.vis == Public || guard) && b.kind in {Func, Cons}
    ensures var r := FindPath(info, scopeId, path, guard);
      r.Err? && r.diag.pos == path[0].pos && r.diag.kind.CannotImportFrom?
  {
  }

  /** `super` under the guard: the parent module itself when it is the last segment, the
      lookup of the rest in the parent otherwise, and a panic at the root. */
  lemma FindPathSuper(info: ScopeInfo, scopeId: NodeID, path: Path)
    requires path != [] && scopeId in info && path[0].data == "super" && "super" !in info[scopeId].items
    ensures var s := info[scopeId];
      FindPath(info, scopeId, path, true) ==
        if s.kind.RootScope? then Abort("super at the root")
        else if |path| == 1 then Ok(Binding(Private, Module, Imported(s.kind.parent)))
        else FindPath(info, s.kind.parent, path[1..], true)
  {
  }

  /** Any other unbound name: under the guard the whole path is retried from the root with the
      guard cleared; without it the name is reported unbound. */
  lemma FindPathUnbound(info: ScopeInfo, scopeId: NodeID, path: Path, guard: bool)
    requires path != [] && scopeId in info && path[0].data != "super" && path[0].data !in info[scopeId].items
    ensures FindPath(info, scopeId, path, guard) ==
      if guard then FindPath(info, OfRoot(), path, false)
      else Err(Diagnostic(UnboundVariable(path[0].data), path[0].pos))
  {
    if guard {
      assert PushFront(path[1..], path[0]) == path;
    }
  }
}
