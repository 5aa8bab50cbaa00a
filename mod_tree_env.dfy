/** The environment that builds the namespace tree (src/mod_tree/env.rs). Methods that panic
    in the source return `ok == false` here and leave the environment unchanged. */
module ModTreeEnv {
  import opened Wrappers
  import opened Common
  import opened NodeIds
  import opened Scopes
  import P = ParsedAst

  /** The names that `add_item` refuses to bind. */
  predicate IsReservedName(s: string)
  {
    s == "super" || s == "self" || s == "Self"
  }

  class Env {
    var currentId: NodeID
    var currentPath: seq<string>
    var scopes: ScopeInfo
    var fileMap: map<seq<string>, P.Module>

    /** The tree always holds the root scope under the root id. */
    ghost predicate Rooted()
      reads this
    {
      OfRoot() in scopes && scopes[OfRoot()].kind == RootScope
    }

    /** `Env::init`: at the root, with an empty name path, and a tree holding only the root. */
    constructor Init(files: map<seq<string>, P.Module>)
      ensures Rooted()
      ensures currentId == OfRoot() && currentPath == []
      ensures scopes == map[OfRoot() := Scope(map[], RootScope)]
      ensures fileMap == files
    {
      currentId := OfRoot();
      currentPath := [];
      scopes := map[OfRoot() := Scope(map[], RootScope)];
      fileMap := files;
    }

    /** `Env::enter`: moves into the scope that `name` is locally bound to in the current scope
        and appends `name` to the path. A missing scope or binding, or a binding that is not
        local, panics. */
    method Enter(name: string) returns (ok: bool)
      modifies this
      ensures ok <==> old(currentId) in old(scopes) && name in old(scopes)[old(currentId)].items
                      && old(scopes)[old(currentId)].items[name].sym.Local?
      ensures ok ==> currentId == old(scopes)[old(currentId)].items[name].sym.id
                     && currentPath == old(currentPath) + [name]
      ensures !ok ==> currentId == old(currentId) && currentPath == old(currentPath)
      ensures scopes == old(scopes) && fileMap == old(fileMap)
    {
      if currentId !in scopes || name !in scopes[currentId].items {
        return false;
      }
      var b := scopes[currentId].items[name];
      if !b.sym.Local? {
        return false;
      }
      currentId := b.sym.id;
      currentPath := currentPath + [name];
      ok := true;
    }

    /** `Env::leave`: back to the parent of the current scope, dropping the last name. It
        panics at the root, and its match has no arm for a struct scope. */
    method Leave() returns (ok: bool)
      modifies this
      ensures ok <==> old(currentId) in old(scopes) && (old(scopes)[old(currentId)].kind.ModuleScope?
                                                   || old(scopes)[old(currentId)].kind.EnumScope?)
      ensures ok ==> currentId == old(scopes)[old(currentId)].kind.parent
                     && currentPath == PopLast(old(currentPath))
      ensures !ok ==> currentId == old(currentId) && currentPath == old(currentPath)
      ensures scopes == old(scopes) && fileMap == old(fileMap)
    {
      if currentId !in scopes {
        return false;
      }
      var kind := scopes[currentId].kind;
      if !(kind.ModuleScope? || kind.EnumScope?) {
        return false;
      }
      currentId := kind.parent;
      currentPath := PopLast(currentPath);
      ok := true;
    }

    /** `Env::remove_module`: hands out the module parsed for `path`, at most once. */
    method RemoveModule(path: seq<string>) returns (m: Option<P.Module>)
      modifies this
      ensures m.Some? <==> path in old(fileMap)
      ensures m.Some? ==> m.value == old(fileMap)[path]
      ensures fileMap == old(fileMap) - {path} && path !in fileMap
      ensures currentId == old(currentId) && currentPath == old(currentPath) && scopes == old(scopes)
    {
      if path in fileMap {
        m := Some(fileMap[path]);
      } else {
        m := None;
      }
      fileMap := fileMap - {path};
    }

    /** `Env::add_item`: binds `name` in the current scope unless it is already bound there.
        A reserved name or a missing current scope panics. */
    method AddItem(name: Ident, b: Binding) returns (r: Res<()>)
      modifies this
      ensures r.Abort? <==> IsReservedName(name.data) || old(currentId) !in old(scopes)
      ensures r.Err? <==> !r.Abort? && name.data in old(scopes)[old(currentId)].items
      ensures r.Err? ==> r.diag == Diagnostic(AlreadyBound(name.data), name.pos)
      ensures r.Ok? ==> currentId in old(scopes) && scopes == old(scopes)[currentId := old(scopes)[currentId].(items := old(scopes)[currentId].items[name.data := b])]
      ensures !r.Ok? ==> scopes == old(scopes)
      ensures currentId == old(currentId) && currentPath == old(currentPath) && fileMap == old(fileMap)
      ensures old(Rooted()) ==> Rooted()
    {
      if IsReservedName(name.data) || currentId !in scopes {
        return Abort("reserved name or missing scope");
      }
      var s := scopes[currentId];
      if name.data in s.items {
        return Err(Diagnostic(AlreadyBound(name.data), name.pos));
      }
      scopes := scopes[currentId := s.(items := s.items[name.data := b])];
      r := Ok(());
    }

    /** `Env::add_mod_info`: registers (or replaces) the scope with id `id`. */
    method AddModInfo(id: NodeID, s: Scope)
      modifies this
      ensures scopes == old(scopes)[id := s]
      ensures currentId == old(currentId) && currentPath == old(currentPath) && fileMap == old(fileMap)
      ensures old(Rooted()) && id != OfRoot() ==> Rooted()
    {
      scopes := scopes[id := s];
    }

    /** `Env::add_import`: queues an import on the current scope, which must be a module. */
    method AddImport(imp: Import) returns (ok: bool)
      modifies this
      ensures ok <==> currentId in old(scopes) && old(scopes)[currentId].kind.ModuleScope?
      ensures ok ==> var s := old(scopes)[currentId];
        scopes == old(scopes)[currentId := s.(kind := s.kind.(imports := s.kind.imports + [imp]))]
      ensures !ok ==> scopes == old(scopes)
      ensures currentId == old(currentId) && currentPath == old(currentPath) && fileMap == old(fileMap)
      ensures old(Rooted()) ==> Rooted()
    {
      if currentId !in scopes || !scopes[currentId].kind.ModuleScope? {
        return false;
      }
      var s := scopes[currentId];
      scopes := scopes[currentId := s.(kind := s.kind.(imports := s.kind.imports + [imp]))];
      ok := true;
    }
  }

  /** `Vec::pop` on the name path: the last name goes, an empty path stays empty. */
  function PopLast(p: seq<string>): (r: seq<string>)
    ensures p == [] ==> r == []
    ensures p != [] ==> p == r + [p[|p| - 1]]
  {
    if p == [] then [] else p[..|p| - 1]
  }

  /** Entering and leaving are inverse on the name path. */
  lemma PopLastAppend(p: seq<string>, name: string)
    ensures PopLast(p + [name]) == p
  {
  }
}
