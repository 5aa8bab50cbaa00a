/** The import fixed point (src/mod_tree/import_solve.rs): every pending import is resolved
    against a snapshot of the tree, pass after pass, until a pass changes nothing; then the
    imports that still fail are reported. */
module ImportSolve {
  import opened Wrappers
  import opened Common
  import opened NodeIds
  import opened Scopes

  type Items = map<string, Binding>

  function Lookup(items: Items, name: string): (r: Option<Binding>)
    ensures r.Some? <==> name in items
    ensures r.Some? ==> r.value == items[name]
  {
    if name in items then Some(items[name]) else None
  }

  /** `make_ambiguous`: the slot keeps its visibility and kind and names both ids. */
  function MakeAmbiguous(newId: NodeID, existing: Binding, oldId: NodeID): (b: Binding)
    ensures b.vis == existing.vis && b.kind == existing.kind
    ensures b.sym == Ambiguous({oldId, newId})
  {
    existing.(sym := Ambiguous({oldId, newId}))
  }

  /** An exact import of the binding `kind`/`bid` under `name` (lines 101-135): a fresh slot
      gets `Imported(bid)`; a glob-imported slot becomes `Imported` of the glob's own id; a
      local or imported slot with another id, or an ambiguous slot, collects `bid`. */
  function ExactUpdate(items: Items, name: string, kind: Kind, bid: NodeID, vis: Visibility): (r: (Items, bool))
    ensures r.0.Keys == items.Keys + {name}
    ensures forall n :: n in items && n != name ==> r.0[n] == items[n]
    ensures r.1 <==> r.0 != items
    ensures name !in items ==> r.0[name] == Binding(vis, kind, Imported(bid))
    ensures name in items ==> r.0[name].vis == items[name].vis && r.0[name].kind == items[name].kind
    ensures name in items && items[name].sym.GlobImported? ==>
              r.0[name].sym == Imported(items[name].sym.id)
    ensures name in items && (items[name].sym.Local? || items[name].sym.Imported?) ==>
              r.0[name].sym == (if items[name].sym.id == bid then items[name].sym
                                else Ambiguous({items[name].sym.id, bid}))
    ensures name in items && items[name].sym.Ambiguous? ==>
              r.0[name].sym == Ambiguous(items[name].sym.ids + {bid})
  {
    if name !in items then
      (items[name := Binding(vis, kind, Imported(bid))], true)
    else
      var e := items[name];
      match e.sym
      case GlobImported(g) =>
        assert items[name := e.(sym := Imported(g))][name] != items[name];
        (items[name := e.(sym := Imported(g))], true)
      case Local(id) =>
        if id == bid then (items, false)
        else
          assert items[name := MakeAmbiguous(bid, e, id)][name] != items[name];
          (items[name := MakeAmbiguous(bid, e, id)], true)
      case Imported(id) =>
        if id == bid then (items, false)
        else
          assert items[name := MakeAmbiguous(bid, e, id)][name] != items[name];
          (items[name := MakeAmbiguous(bid, e, id)], true)
      case Ambiguous(ids) =>
        if bid in ids then (items, false)
        else
          assert bid in (ids + {bid}) - ids;
          assert items[name := e.(sym := Ambiguous(ids + {bid}))][name] != items[name];
          (items[name := e.(sym := Ambiguous(ids + {bid}))], true)
  }

  /** Whether the glob import offers binding `b` of the target scope: never an ambiguous one,
      and a private one only under the guard. The guard is the caller's flag after
      `find_path`, which never writes it, so it is always set and every private item is
      offered. */
  predicate Offered(b: Binding, guard: bool)
  {
    !b.sym.Ambiguous? && (guard || b.vis == Public)
  }

  /** One name of a glob import (lines 155-178): the new slot, and what the source assigns to
      `changed`: None where it keeps the old value, Some(v) where it assigns v. */
  function GlobCell(e: Option<Binding>, b: Binding, vis: Visibility): (r: (Binding, Option<bool>))
    requires !b.sym.Ambiguous?
    ensures r.1 == Some(true) <==> e != Some(r.0)
    ensures e.None? ==> r.0 == Binding(vis, b.kind, GlobImported(SymbolId(b.sym)))
    ensures e.Some? && (e.value.sym.Local? || e.value.sym.Imported?) ==> r.0 == e.value && r.1.None?
    ensures e.Some? && e.value.sym.GlobImported? ==>
              if e.value.sym.id == SymbolId(b.sym) then r.0 == e.value && r.1.None?
              else r.0 == MakeAmbiguous(SymbolId(b.sym), e.value, e.value.sym.id) && r.1 == Some(true)
    ensures e.Some? && e.value.sym.Ambiguous? ==>
              r.0 == e.value.(sym := Ambiguous(e.value.sym.ids + {SymbolId(b.sym)}))
              && r.1 == Some(SymbolId(b.sym) !in e.value.sym.ids)
  {
    var gid := SymbolId(b.sym);
    match e
    case None => (Binding(vis, b.kind, GlobImported(gid)), Some(true))
    case Some(x) =>
      match x.sym
      case Local(_) => (x, None)
      case Imported(_) => (x, None)
      case GlobImported(id) =>
        if id == gid then (x, None)
        else
          assert MakeAmbiguous(gid, x, id) != x;
          (MakeAmbiguous(gid, x, id), Some(true))
      case Ambiguous(ids) =>
        assert gid !in ids ==> gid in (ids + {gid}) - ids;
        assert gid in ids ==> ids + {gid} == ids;
        (x.(sym := Ambiguous(ids + {gid})), Some(gid !in ids))
  }

  /** The names of `done` that the glob import offers. */
  function OfferedIn(target: Items, guard: bool, done: set<string>): set<string>
  {
    set n | n in done && n in target && Offered(target[n], guard)
  }

  /** The slots after the glob import has visited the target names in `done`, in any order:
      each name touches only its own slot. */
  function GlobApplied(items: Items, target: Items, vis: Visibility, guard: bool, done: set<string>): (r: Items)
    ensures r.Keys == items.Keys + OfferedIn(target, guard, done)
  {
    map n | n in items.Keys + OfferedIn(target, guard, done) ::
      if n in OfferedIn(target, guard, done) then GlobCell(Lookup(items, n), target[n], vis).0 else items[n]
  }

  /** The glob loop of `resolve_import` AS WRITTEN, visiting the target names in the order
      given (a `BTreeMap` visits them in ascending order). Line 177 assigns the result of
      `ids.insert` to `changed`, so an ambiguous slot that already holds the id resets a
      change reported for an earlier name. */
  function GlobAsWritten(items: Items, target: Items, vis: Visibility, guard: bool, names: seq<string>, changed: bool): (r: (Items, bool))
    ensures items.Keys <= r.0.Keys <= items.Keys + set n | n in names
    decreases |names|
  {
    if names == [] then (items, changed)
    else
      var n := names[0];
      if n in target && Offered(target[n], guard) then
        var c := GlobCell(Lookup(items, n), target[n], vis);
        GlobAsWritten(items[n := c.0], target, vis, guard, names[1..], if c.1.Some? then c.1.value else changed)
      else GlobAsWritten(items, target, vis, guard, names[1..], changed)
  }

  /** The glob import as written can add a binding and still report no change: "a" is
      inserted, then "b", already ambiguous between the same ids, resets the flag. */
  lemma GlobChangeLost()
    ensures var items := map["b" := Binding(Public, Func, Ambiguous({NodeID(70), NodeID(71)}))];
            var target := map["a" := Binding(Public, Func, Local(NodeID(72))),
                              "b" := Binding(Public, Func, Local(NodeID(71)))];
            var r := GlobAsWritten(items, target, Public, true, ["a", "b"], false);
            r.0 != items && !r.1
  {
    var items := map["b" := Binding(Public, Func, Ambiguous({NodeID(70), NodeID(71)}))];
    var target := map["a" := Binding(Public, Func, Local(NodeID(72))),
                      "b" := Binding(Public, Func, Local(NodeID(71)))];
    var a := GlobCell(None, target["a"], Public);
    var items1 := items["a" := a.0];
    assert GlobAsWritten(items, target, Public, true, ["a", "b"], false)
        == GlobAsWritten(items1, target, Public, true, ["b"], true);
    assert {NodeID(70), NodeID(71)} + {NodeID(71)} == {NodeID(70), NodeID(71)};
    var b := GlobCell(Some(items1["b"]), target["b"], Public);
    assert b == (items1["b"], Some(false));
    assert GlobAsWritten(items1, target, Public, true, ["b"], true)
        == GlobAsWritten(items1["b" := b.0], target, Public, true, [], false);
    assert items1["b" := b.0] == items1;
    assert "a" in items1 && "a" !in items;
  }

  /** The glob loop as intended: every name is visited once, in any order, and `changed`
      becomes true as soon as one slot changes and stays true. */
  method ResolveGlob(items: Items, target: Items, vis: Visibility, guard: bool) returns (r: Items, changed: bool)
    ensures r == GlobApplied(items, target, vis, guard, target.Keys)
    ensures changed <==> r != items
  {
    r := items;
    changed := false;
    var todo := target.Keys;
    ghost var done: set<string> := {};
    while todo != {}
      invariant todo + done == target.Keys && todo !! done
      invariant r == GlobApplied(items, target, vis, guard, done)
      invariant changed <==> r != items
      decreases |todo|
    {
      var n :| n in todo;
      r, changed := GlobTurn(items, target, vis, guard, done, n, r, changed);
      MoveOne(todo, done, n);
      todo := todo - {n};
      done := done + {n};
    }
  }

  /** One turn of the glob loop: the slot of `n` is offered the target's binding. */
  method GlobTurn(items: Items, target: Items, vis: Visibility, guard: bool, ghost done: set<string>, n: string,
                  r: Items, changed: bool) returns (r': Items, changed': bool)
    requires n in target && n !in done
    requires r == GlobApplied(items, target, vis, guard, done) && (changed <==> r != items)
    ensures r' == GlobApplied(items, target, vis, guard, done + {n}) && (changed' <==> r' != items)
  {
    var b := target[n];
    if Offered(b, guard) {
      var c := GlobCell(Lookup(r, n), b, vis);
      GlobStep(items, target, vis, guard, done, n, r);
      r' := r[n := c.0];
      changed' := changed || c.1 == Some(true);
    } else {
      GlobSkip(items, target, vis, guard, done, n);
      r', changed' := r, changed;
    }
  }

  /** Moving one name from the names left to the names done keeps them a partition. */
  lemma MoveOne(todo: set<string>, done: set<string>, n: string)
    requires n in todo && todo !! done
    ensures (todo - {n}) + (done + {n}) == todo + done && (todo - {n}) !! (done + {n})
    ensures |todo - {n}| < |todo|
  {
  }

  /** Visiting a name that is not offered changes nothing. */
  lemma GlobSkip(items: Items, target: Items, vis: Visibility, guard: bool, done: set<string>, n: string)
    requires n in target && !Offered(target[n], guard)
    ensures GlobApplied(items, target, vis, guard, done + {n}) == GlobApplied(items, target, vis, guard, done)
  {
    assert OfferedIn(target, guard, done + {n}) == OfferedIn(target, guard, done);
  }

  /** Visiting one more offered name updates exactly its slot. */
  lemma GlobStep(items: Items, target: Items, vis: Visibility, guard: bool, done: set<string>, n: string, r: Items)
    requires n in target && n !in done && Offered(target[n], guard)
    requires r == GlobApplied(items, target, vis, guard, done)
    ensures Lookup(r, n) == Lookup(items, n)
    ensures var c := GlobCell(Lookup(r, n), target[n], vis);
      && GlobApplied(items, target, vis, guard, done + {n}) == r[n := c.0]
      && (r[n := c.0] != items <==> r != items || c.1 == Some(true))
  {
    assert OfferedIn(target, guard, done + {n}) == OfferedIn(target, guard, done) + {n};
    var c := GlobCell(Lookup(r, n), target[n], vis);
    if c.1 == Some(true) {
      assert n in items ==> r[n := c.0][n] != items[n];
    } else {
      assert r[n := c.0] == r;
    }
  }

  /** `resolve_import` against the snapshot `tree`: the slots of the importing scope after the
      import, and whether they changed. An import whose path does not resolve changes nothing;
      a panic of `find_path` propagates. */
  function ResolveImport(tree: ScopeInfo, items: Items, id: NodeID, imp: Import): (r: Panicking<(Items, bool)>)
    ensures r.Value? ==> (r.value.1 <==> r.value.0 != items)
  {
    match FindPath(tree, id, imp.path, true)
    case Abort(why) => Panic(why)
    case Err(_) => Value((items, false))
    case Ok(b) =>
      var bid := SymbolId(b.sym);
      if !imp.isGlob then
        var name := if imp.alias.Some? then imp.alias.value.data else imp.path[|imp.path| - 1].data;
        Value(ExactUpdate(items, name, b.kind, bid, imp.vis))
      else if bid !in tree then Value((items, false))
      else
        var r := GlobApplied(items, tree[bid].items, imp.vis, true, tree[bid].items.Keys);
        Value((r, r != items))
  }

  /** `resolve_import`, step by step. */
  method ResolveImportStep(tree: ScopeInfo, items: Items, id: NodeID, imp: Import) returns (r: Panicking<(Items, bool)>)
    ensures r == ResolveImport(tree, items, id, imp)
  {
    var found := FindPath(tree, id, imp.path, true);
    if found.Abort? {
      return Panic(found.reason);
    }
    if found.Err? {
      return Value((items, false));
    }
    var b := found.value;
    var bid := SymbolId(b.sym);
    if !imp.isGlob {
      var name := if imp.alias.Some? then imp.alias.value.data else imp.path[|imp.path| - 1].data;
      return Value(ExactUpdate(items, name, b.kind, bid, imp.vis));
    }
    if bid !in tree {
      return Value((items, false));
    }
    var newItems, changed := ResolveGlob(items, tree[bid].items, imp.vis, true);
    r := Value((newItems, changed));
  }

  /** The imports of one scope, in order, each against the same snapshot, the slots threaded
      from one to the next; the flags are or-ed. */
  function ApplyImports(tree: ScopeInfo, items: Items, id: NodeID, imps: seq<Import>): (r: Panicking<(Items, bool)>)
    decreases |imps|
  {
    if imps == [] then Value((items, false))
    else
      match ApplyImports(tree, items, id, imps[..|imps| - 1])
      case Panic(why) => Panic(why)
      case Value(acc) =>
        match ResolveImport(tree, acc.0, id, imps[|imps| - 1])
        case Panic(why) => Panic(why)
        case Value(step) => Value((step.0, acc.1 || step.1))
  }

  /** Imports that report no change leave the slots as they were. */
  lemma {:induction false} ApplyImportsUnchanged(tree: ScopeInfo, items: Items, id: NodeID, imps: seq<Import>)
    requires ApplyImports(tree, items, id, imps).Value? && !ApplyImports(tree, items, id, imps).value.1
    ensures ApplyImports(tree, items, id, imps).value.0 == items
    decreases |imps|
  {
    if imps != [] {
      ApplyImportsUnchanged(tree, items, id, imps[..|imps| - 1]);
    }
  }

  /** `for import in imports { changed = changed | resolve_import(..)? }` for one scope. */
  method ResolveScope(tree: ScopeInfo, items: Items, id: NodeID, imps: seq<Import>) returns (r: Panicking<(Items, bool)>)
    ensures r == ApplyImports(tree, items, id, imps)
  {
    var cur := items;
    var changed := false;
    var i := 0;
    while i < |imps|
      invariant 0 <= i <= |imps|
      invariant ApplyImports(tree, items, id, imps[..i]) == Value((cur, changed))
    {
      assert imps[..i + 1][..i] == imps[..i];
      var step := ResolveImportStep(tree, cur, id, imps[i]);
      if step.Panic? {
        ApplyImportsPanics(tree, items, id, imps, i + 1);
        return Panic(step.reason);
      }
      cur := step.value.0;
      changed := changed || step.value.1;
      i := i + 1;
    }
    assert imps[..i] == imps;
    r := Value((cur, changed));
  }

  /** A panic on one import is the outcome of the whole scope. */
  lemma {:induction false} ApplyImportsPanics(tree: ScopeInfo, items: Items, id: NodeID, imps: seq<Import>, i: nat)
    requires 0 < i <= |imps| && ApplyImports(tree, items, id, imps[..i]).Panic?
    ensures ApplyImports(tree, items, id, imps) == ApplyImports(tree, items, id, imps[..i])
    decreases |imps| - i
  {
    if i < |imps| {
      assert imps[..i + 1][..i] == imps[..i];
      ApplyImportsPanics(tree, items, id, imps, i + 1);
    } else {
      assert imps[..i] == imps;
    }
  }

  /** `b` has the scopes of `a`, of the same kinds: only bindings differ. */
  ghost predicate SameKinds(a: ScopeInfo, b: ScopeInfo)
  {
    forall id :: id in a ==> id in b && b[id].kind == a[id].kind
  }

  /** One scope in a pass: a module resolves its pending imports against the snapshot;
      other scopes are skipped. */
  function ScopeStep(tree: ScopeInfo, id: NodeID): Panicking<(Items, bool)>
    requires id in tree
  {
    if tree[id].kind.ModuleScope? then ApplyImports(tree, tree[id].items, id, tree[id].kind.imports)
    else Value((tree[id].items, false))
  }

  /** One pass of `solve` from the snapshot `tree`: every scope updated by `ScopeStep`, and
      whether any of them reported a change. Scopes are independent of each other within a
      pass, so the order the `HashMap` visits them in does not matter. */
  function Pass(tree: ScopeInfo): (r: Panicking<(ScopeInfo, bool)>)
    ensures r.Value? ==> r.value.0.Keys == tree.Keys && SameKinds(tree, r.value.0)
  {
    if exists id :: id in tree && ScopeStep(tree, id).Panic? then Panic("a pending import panicked")
    else Value((map id | id in tree :: tree[id].(items := ScopeStep(tree, id).value.0),
                exists id :: id in tree && ScopeStep(tree, id).value.1))
  }

  /** A pass that reports no change returns its snapshot, which is therefore a fixed point. */
  lemma PassFixedPoint(tree: ScopeInfo)
    requires Pass(tree).Value? && !Pass(tree).value.1
    ensures Pass(tree) == Value((tree, false))
  {
    var next := Pass(tree).value.0;
    forall id | id in tree
      ensures next[id] == tree[id]
    {
      if tree[id].kind.ModuleScope? {
        ApplyImportsUnchanged(tree, tree[id].items, id, tree[id].kind.imports);
      }
    }
    assert next.Keys == tree.Keys;
    assert next == tree;
  }

  /** The visit of scope `id` within a pass: a module scope resolves its pending imports,
      any other scope is left as it is. */
  method StepScope(tree: ScopeInfo, id: NodeID) returns (step: Panicking<(Items, bool)>)
    requires id in tree
    ensures step == ScopeStep(tree, id)
  {
    var s := tree[id];
    if s.kind.ModuleScope? {
      step := ResolveScope(tree, s.items, id, s.kind.imports);
    } else {
      step := Value((s.items, false));
    }
  }

  /** One iteration of the `while changed` loop: a fresh snapshot, every scope visited once in
      some order. On a panic the source unwinds; the model reports that it panicked. */
  method RunPass(tree: ScopeInfo) returns (r: Panicking<(ScopeInfo, bool)>)
    ensures r.Panic? <==> Pass(tree).Panic?
    ensures r.Value? ==> r == Pass(tree)
  {
    var next := tree;
    var changed := false;
    var todo := tree.Keys;
    while todo != {}
      invariant todo <= tree.Keys && next.Keys == tree.Keys
      invariant forall id :: id in todo ==> next[id] == tree[id]
      invariant forall id :: id in tree && id !in todo ==>
        ScopeStep(tree, id).Value? && next[id] == tree[id].(items := ScopeStep(tree, id).value.0)
      invariant changed <==> exists id :: id in tree && id !in todo && ScopeStep(tree, id).value.1
      decreases |todo|
    {
      var id :| id in todo;
      var step := StepScope(tree, id);
      if step.Panic? {
        return Panic(step.reason);
      }
      next := next[id := tree[id].(items := step.value.0)];
      changed := changed || step.value.1;
      todo := todo - {id};
    }
    PassIs(tree, next, changed);
    r := Value((next, changed));
  }

  /** A tree in which every scope holds its `ScopeStep` is the result of a pass. */
  lemma PassIs(tree: ScopeInfo, next: ScopeInfo, changed: bool)
    requires next.Keys == tree.Keys
    requires forall id :: id in tree ==>
      ScopeStep(tree, id).Value? && next[id] == tree[id].(items := ScopeStep(tree, id).value.0)
    requires changed <==> exists id :: id in tree && ScopeStep(tree, id).value.1
    ensures Pass(tree) == Value((next, changed))
  {
    assert next == map id | id in tree :: tree[id].(items := ScopeStep(tree, id).value.0);
  }

  /** How `solve` ends: with a tree, with a panic, or (in the model only) without having
      converged within the allowed number of passes. */
  datatype Outcome = Solved(tree: ScopeInfo) | Panicked(reason: string) | Unfinished

  /** What `report_import_errors` reports for one import of scope `id`: the diagnostic of a
      failing `find_path`, or "not a namespace" for a glob whose target has no scope. */
  function ImportErrors(tree: ScopeInfo, id: NodeID, imp: Import): (r: Panicking<seq<Diagnostic>>)
    ensures r.Value? ==> |r.value| <= 1
    ensures FindPath(tree, id, imp.path, true).Err? ==> r == Value([FindPath(tree, id, imp.path, true).diag])
    ensures r.Value? && r.value != [] && FindPath(tree, id, imp.path, true).Ok? ==>
      imp.isGlob && SymbolId(FindPath(tree, id, imp.path, true).value.sym) !in tree
  {
    match FindPath(tree, id, imp.path, true)
    case Abort(why) => Panic(why)
    case Err(d) => Value([d])
    case Ok(b) =>
      if imp.isGlob && SymbolId(b.sym) !in tree then
        var name := if imp.alias.Some? then imp.alias.value else imp.path[|imp.path| - 1];
        Value([Diagnostic(NotANamespace(name.data), name.pos)])
      else Value([])
  }

  /** The reports of one scope's imports, in order. */
  function ScopeErrors(tree: ScopeInfo, id: NodeID, imps: seq<Import>): (r: Panicking<seq<Diagnostic>>)
    ensures r.Value? ==> |r.value| <= |imps|
    decreases |imps|
  {
    if imps == [] then Value([])
    else
      match ScopeErrors(tree, id, imps[..|imps| - 1])
      case Panic(why) => Panic(why)
      case Value(ds) =>
        match ImportErrors(tree, id, imps[|imps| - 1])
        case Panic(why) => Panic(why)
        case Value(d) => Value(ds + d)
  }

  /** The reports of the module scopes `order`, one scope after the other. */
  ghost function ReportsIn(tree: ScopeInfo, order: seq<NodeID>): seq<Diagnostic>
    requires Reportable(tree, order)
  {
    if order == [] then []
    else ReportsIn(tree, order[..|order| - 1]) + ScopeErrors(tree, order[|order| - 1], tree[order[|order| - 1]].kind.imports).value
  }

  /** `report_import_errors` for every import of one scope. */
  method ReportScope(ctx: Context, tree: ScopeInfo, id: NodeID, imps: seq<Import>) returns (ok: bool)
    modifies ctx
    ensures ok <==> ScopeErrors(tree, id, imps).Value?
    ensures ok ==> ctx.diagnostics == old(ctx.diagnostics) + ScopeErrors(tree, id, imps).value
  {
    var i := 0;
    while i < |imps|
      invariant 0 <= i <= |imps|
      invariant ScopeErrors(tree, id, imps[..i]).Value?
      invariant ctx.diagnostics == old(ctx.diagnostics) + ScopeErrors(tree, id, imps[..i]).value
    {
      assert imps[..i + 1][..i] == imps[..i];
      var errs := ImportErrors(tree, id, imps[i]);
      if errs.Panic? {
        assert imps[..i + 1][..i] == imps[..i];
        ScopeErrorsPanics(tree, id, imps, i + 1);
        return false;
      }
      if errs.value != [] {
        ctx.Report(errs.value[0]);
        assert [errs.value[0]] == errs.value;
      }
      i := i + 1;
    }
    assert imps[..i] == imps;
    ok := true;
  }

  /** A panic on one import makes the reports of every longer prefix panic too. */
  lemma {:induction false} ScopeErrorsPanics(tree: ScopeInfo, id: NodeID, imps: seq<Import>, i: nat)
    requires 0 < i <= |imps| && ScopeErrors(tree, id, imps[..i]).Panic?
    ensures ScopeErrors(tree, id, imps).Panic?
    decreases |imps| - i
  {
    if i < |imps| {
      assert imps[..i + 1][..i] == imps[..i];
      ScopeErrorsPanics(tree, id, imps, i + 1);
    } else {
      assert imps[..i] == imps;
    }
  }

  /** The scopes of `order` are module scopes of `tree` whose reports do not panic. */
  ghost predicate Reportable(tree: ScopeInfo, order: seq<NodeID>)
  {
    forall k :: 0 <= k < |order| ==>
      (order[k] in tree && tree[order[k]].kind.ModuleScope? && ScopeErrors(tree, order[k], tree[order[k]].kind.imports).Value?)
  }

  /** The fixed-point loop of `solve`: passes over the tree until one reports no change.
      `passes` bounds the number of passes. */
  method Settle(tree: ScopeInfo, passes: nat) returns (r: Outcome)
    ensures r.Solved? ==> Pass(r.tree) == Value((r.tree, false))
    ensures r.Solved? ==> r.tree.Keys == tree.Keys && SameKinds(tree, r.tree)
  {
    var cur := tree;
    var changed := true;
    var budget := passes;
    while changed
      invariant !changed ==> Pass(cur) == Value((cur, false))
      invariant cur.Keys == tree.Keys && SameKinds(tree, cur)
      decreases budget
    {
      if budget == 0 {
        return Unfinished;
      }
      budget := budget - 1;
      var res := RunPass(cur);
      if res.Panic? {
        return Panicked(res.reason);
      }
      if !res.value.1 {
        PassFixedPoint(cur);
      }
      cur := res.value.0;
      changed := res.value.1;
    }
    r := Solved(cur);
  }

  /** The reporting loop of `solve`: the reports of every module scope of `tree`, visited in
      the map's iteration order `order`. */
  method ReportAll(ctx: Context, tree: ScopeInfo) returns (ok: bool, ghost order: seq<NodeID>)
    modifies ctx
    ensures ok ==> Reportable(tree, order)
                   && (forall id :: id in tree && tree[id].kind.ModuleScope? ==> id in order)
                   && ctx.diagnostics == old(ctx.diagnostics) + ReportsIn(tree, order)
  {
    order := [];
    var todo := tree.Keys;
    while todo != {}
      invariant todo <= tree.Keys
      invariant Reportable(tree, order)
      invariant forall id :: id in tree && tree[id].kind.ModuleScope? && id !in todo ==> id in order
      invariant ctx.diagnostics == old(ctx.diagnostics) + ReportsIn(tree, order)
      decreases |todo|
    {
      var id :| id in todo;
      todo := todo - {id};
      if tree[id].kind.ModuleScope? {
        ok := ReportScope(ctx, tree, id, tree[id].kind.imports);
        if !ok {
          return false, order;
        }
        ReportsInSnoc(tree, order, id, old(ctx.diagnostics));
        order := order + [id];
      }
    }
    ok := true;
  }

  /** Reporting one more module scope appends its errors. */
  lemma ReportsInSnoc(tree: ScopeInfo, order: seq<NodeID>, id: NodeID, d0: seq<Diagnostic>)
    requires Reportable(tree, order) && id in tree && tree[id].kind.ModuleScope?
    requires ScopeErrors(tree, id, tree[id].kind.imports).Value?
    ensures Reportable(tree, order + [id])
    ensures d0 + ReportsIn(tree, order + [id])
            == (d0 + ReportsIn(tree, order)) + ScopeErrors(tree, id, tree[id].kind.imports).value
  {
    var order' := order + [id];
    assert order'[..|order'| - 1] == order;
  }

  /** `solve`: passes until one reports no change, then the reports of every module scope,
      visited in some order `order`. `passes` bounds the number of passes. */
  method Solve(ctx: Context, tree: ScopeInfo, passes: nat) returns (r: Outcome, ghost order: seq<NodeID>)
    modifies ctx
    ensures r.Solved? ==> Pass(r.tree) == Value((r.tree, false))
    ensures r.Solved? ==> r.tree.Keys == tree.Keys && SameKinds(tree, r.tree)
    ensures r.Solved? ==> Reportable(r.tree, order)
                          && (forall id :: id in r.tree && r.tree[id].kind.ModuleScope? ==> id in order)
                          && ctx.diagnostics == old(ctx.diagnostics) + ReportsIn(r.tree, order)
  {
    order := [];
    r := Settle(tree, passes);
    if r.Solved? {
      var ok;
      ok, order := ReportAll(ctx, r.tree);
      if !ok {
        r := Panicked("reporting an import panicked");
      }
    }
  }
}
