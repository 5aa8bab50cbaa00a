/** The by-value dependency graph between nominal types and its topological order
    (src/symtable/type_sort.rs). A type depends on the types it holds by value; the order
    lists dependents before their dependencies, and types on a cycle are left over. */
module TypeSort {
  import opened Wrappers
  import opened NodeIds
  import opened TVars
  import opened Types
  import opened UVars
  import opened TypeOps
  import opened SymInfos
  import opened TypeGraph

  /** `get_tvars_of_type`: every type variable named in `t` outside pointers, read off the
      view of `t`. Unlike `get_size_dependencies` it descends into function types and keeps
      parameters; a unification variable panics and a type application is unfinished. */
  function TvarsOfType(ns: seq<UVarData>, ghost g: Ghosts, t: Type, ghost h: nat): (r: Panicking<set<TVar>>)
    requires ValidState(ns, g) && Wf(t, g.numeric) && Finite(ns, g, t, h)
    ensures var v := ViewIn(ns, g, t); v.Unknown? || v.Ptr? || v.MutPtr? ==> r == Value({})
    ensures var v := ViewIn(ns, g, t); v.UVar? || v.NumericUVar? || v.TypeApp? ==> r.Panic?
    ensures var v := ViewIn(ns, g, t); v.Var? || v.NamedVar? ==> r == Value({v.tvar})
    decreases h, 0
  {
    FiniteUnfold(ns, g, t, h);
    TvarsOfNode(ns, g, ViewIn(ns, g, t), h - 1)
  }

  /** The match of `get_tvars_of_type` on a viewed type. */
  function TvarsOfNode(ns: seq<UVarData>, ghost g: Ghosts, v: Type, ghost h: nat): (r: Panicking<set<TVar>>)
    requires ValidState(ns, g) && Wf(v, g.numeric) && FiniteBelow(ns, g, v, h)
    ensures v.Unknown? || v.Ptr? || v.MutPtr? ==> r == Value({})
    ensures v.UVar? || v.NumericUVar? || v.TypeApp? ==> r.Panic?
    ensures v.Var? || v.NamedVar? ==> r == Value({v.tvar})
    ensures v.Array? ==> r == TvarsOfType(ns, g, v.elem, h)
    ensures v.Tuple? ==> r == TvarsOfAll(ns, g, v.items, h)
    ensures v.Fun? ==> (r.Value? <==> TvarsOfAll(ns, g, v.args, h).Value? && TvarsOfType(ns, g, v.ret, h).Value?)
    ensures v.Fun? && r.Value? ==> r.value == TvarsOfAll(ns, g, v.args, h).value + TvarsOfType(ns, g, v.ret, h).value
    decreases h, 2
  {
    match v
    case Unknown => Value({})
    case UVar(_) => Panic("explicit panic")
    case NumericUVar(_) => Panic("explicit panic")
    case Var(tv) => Value({tv})
    case NamedVar(tv, _) => Value({tv})
    case Tuple(items) => TvarsOfAll(ns, g, items, h)
    case Array(_, e) => TvarsOfType(ns, g, e, h)
    case Fun(args, ret) =>
      (match TvarsOfAll(ns, g, args, h)
       case Panic(why) => Panic(why)
       case Value(a) =>
         match TvarsOfType(ns, g, ret, h)
         case Panic(why) => Panic(why)
         case Value(b) => Value(a + b))
    case Ptr(_) => Value({})
    case MutPtr(_) => Value({})
    case TypeApp(_, _, _) => Panic("not yet implemented")
  }

  /** The loop `set.extend(get_tvars_of_type(tp))` over a list of types; the first panic ends it. */
  function TvarsOfAll(ns: seq<UVarData>, ghost g: Ghosts, ts: seq<Type>, ghost h: nat): (r: Panicking<set<TVar>>)
    requires ValidState(ns, g) && AllWf(ts, g.numeric) && AllFinite(ns, g, ts, h)
    ensures r.Value? <==> forall k :: 0 <= k < |ts| ==> TvarsOfType(ns, g, ts[k], h).Value?
    ensures r.Value? ==> forall tv :: tv in r.value <==> exists k :: 0 <= k < |ts| && tv in TvarsOfType(ns, g, ts[k], h).value
    decreases h, 1, |ts|
  {
    if ts == [] then Value({})
    else
      match TvarsOfType(ns, g, ts[0], h)
      case Panic(why) => Panic(why)
      case Value(d) =>
        match TvarsOfAll(ns, g, ts[1..], h)
        case Panic(why) => Panic(why)
        case Value(rest) =>
          assert forall k :: 1 <= k < |ts| ==> ts[k] == ts[1..][k - 1];
          Value(d + rest)
  }

  /** Whatever a type's size depends on is among the type variables it names: where
      `get_tvars_of_type` succeeds, `get_size_dependencies` succeeds with a subset. */
  lemma {:induction false} SizeDependenciesWithinTvars(ns: seq<UVarData>, g: Ghosts, t: Type, h: nat)
    requires ValidState(ns, g) && Wf(t, g.numeric) && Finite(ns, g, t, h)
    ensures TvarsOfType(ns, g, t, h).Value? ==>
      SizeDependencies(ns, g, t, h).Value? && SizeDependencies(ns, g, t, h).value <= TvarsOfType(ns, g, t, h).value
    decreases h, 0
  {
    FiniteUnfold(ns, g, t, h);
    var v := ViewIn(ns, g, t);
    SizeDependenciesWithinTvarsNode(ns, g, v, h - 1);
    assert TvarsOfType(ns, g, t, h) == TvarsOfNode(ns, g, v, h - 1);
    assert SizeDependencies(ns, g, t, h) == SizeDependenciesNode(ns, g, v, h - 1);
  }

  lemma {:induction false} SizeDependenciesWithinTvarsNode(ns: seq<UVarData>, g: Ghosts, v: Type, h: nat)
    requires ValidState(ns, g) && Wf(v, g.numeric) && FiniteBelow(ns, g, v, h)
    ensures TvarsOfNode(ns, g, v, h).Value? ==>
      SizeDependenciesNode(ns, g, v, h).Value? && SizeDependenciesNode(ns, g, v, h).value <= TvarsOfNode(ns, g, v, h).value
    decreases h, 2
  {
    match v
    case Tuple(items) => SizeDependenciesWithinTvarsAll(ns, g, items, h);
    case Array(_, e) => SizeDependenciesWithinTvars(ns, g, e, h);
    case _ =>
  }

  lemma {:induction false} SizeDependenciesWithinTvarsAll(ns: seq<UVarData>, g: Ghosts, ts: seq<Type>, h: nat)
    requires ValidState(ns, g) && AllWf(ts, g.numeric) && AllFinite(ns, g, ts, h)
    ensures TvarsOfAll(ns, g, ts, h).Value? ==>
      SizeDependenciesAll(ns, g, ts, h).Value? && SizeDependenciesAll(ns, g, ts, h).value <= TvarsOfAll(ns, g, ts, h).value
    decreases h, 1
  {
    forall k | 0 <= k < |ts|
      ensures TvarsOfType(ns, g, ts[k], h).Value? ==>
        SizeDependencies(ns, g, ts[k], h).Value? && SizeDependencies(ns, g, ts[k], h).value <= TvarsOfType(ns, g, ts[k], h).value
    {
      SizeDependenciesWithinTvars(ns, g, ts[k], h);
    }
  }

  // ---------------------------------------------------------------------------------------
  // The types held in the symbol tables

  /** The argument and return types of a declaration are well formed and finite at height `h`. */
  ghost predicate SymFinite(ns: seq<UVarData>, g: Ghosts, sym: SymInfo, h: nat)
    requires ValidState(ns, g)
  {
    match sym.kind
    case FuncSym(args, ret) => AllWf(args, g.numeric) && AllFinite(ns, g, args, h) && Wf(ret, g.numeric) && Finite(ns, g, ret, h)
    case EnumConsSym(args, _) => AllWf(args, g.numeric) && AllFinite(ns, g, args, h)
    case _ => true
  }

  /** The field types of a struct are well formed and finite at height `h`. */
  ghost predicate FieldsFinite(ns: seq<UVarData>, g: Ghosts, fields: map<string, Type>, h: nat)
    requires ValidState(ns, g)
  {
    forall f :: f in fields ==> Wf(fields[f], g.numeric) && Finite(ns, g, fields[f], h)
  }

  /** Every type held in the two tables is well formed and finite at height `h`. */
  ghost predicate TablesFinite(ns: seq<UVarData>, g: Ghosts, tvarMap: map<TVar, TypeInfo>,
                               nodeMap: map<NodeID, SymInfo>, h: nat)
  {
    && ValidState(ns, g)
    && (forall id :: id in nodeMap ==> SymFinite(ns, g, nodeMap[id], h))
    && (forall tv :: tv in tvarMap && tvarMap[tv].kind.StructKind? ==> FieldsFinite(ns, g, tvarMap[tv].kind.fields, h))
  }

  // ---------------------------------------------------------------------------------------
  // get_tvars

  /** One constructor of an enum: its symbol must exist and be an enum constructor, and then
      its argument types are read. */
  function ConsTvars(ns: seq<UVarData>, ghost g: Ghosts, nodeMap: map<NodeID, SymInfo>, c: NodeID, ghost h: nat)
    : (r: Panicking<set<TVar>>)
    requires ValidState(ns, g) && (c in nodeMap ==> SymFinite(ns, g, nodeMap[c], h))
    ensures r.Value? ==> c in nodeMap && nodeMap[c].kind.EnumConsSym?
    ensures r.Value? ==> r == TvarsOfAll(ns, g, nodeMap[c].kind.args, h)
  {
    if c !in nodeMap then Panic("explicit panic")
    else match nodeMap[c].kind
      case EnumConsSym(args, _) => TvarsOfAll(ns, g, args, h)
      case _ => Panic("explicit panic")
  }

  /** Constructor `c` resolves and names the type variable `tv`. */
  ghost predicate ConsIn(ns: seq<UVarData>, g: Ghosts, nodeMap: map<NodeID, SymInfo>, c: NodeID, h: nat, tv: TVar)
    requires ValidState(ns, g) && (c in nodeMap ==> SymFinite(ns, g, nodeMap[c], h))
  {
    ConsTvars(ns, g, nodeMap, c, h).Value? && tv in ConsTvars(ns, g, nodeMap, c, h).value
  }

  /** `get_tvars` succeeds on `info`: no type it reads panics and every enum constructor
      resolves. */
  ghost predicate InfoOk(ns: seq<UVarData>, g: Ghosts, info: TypeInfo, nodeMap: map<NodeID, SymInfo>, h: nat)
    requires ValidState(ns, g) && (forall id :: id in nodeMap ==> SymFinite(ns, g, nodeMap[id], h))
    requires info.kind.StructKind? ==> FieldsFinite(ns, g, info.kind.fields, h)
  {
    match info.kind
    case StructKind(fields) => forall f :: f in fields ==> TvarsOfType(ns, g, fields[f], h).Value?
    case EnumKind(cons) => forall k :: 0 <= k < |cons| ==> ConsTvars(ns, g, nodeMap, cons[k], h).Value?
    case BuiltinKind => true
  }

  /** `s` is what `get_tvars` collects for `info`: the type variables named by the field
      types of a struct, or by the argument types of the constructors of an enum. */
  ghost predicate InfoTvars(ns: seq<UVarData>, g: Ghosts, info: TypeInfo, nodeMap: map<NodeID, SymInfo>, h: nat,
                            s: set<TVar>)
    requires ValidState(ns, g) && (forall id :: id in nodeMap ==> SymFinite(ns, g, nodeMap[id], h))
    requires info.kind.StructKind? ==> FieldsFinite(ns, g, info.kind.fields, h)
    requires InfoOk(ns, g, info, nodeMap, h)
  {
    match info.kind
    case StructKind(fields) =>
      forall tv :: tv in s <==> exists f :: f in fields && tv in TvarsOfType(ns, g, fields[f], h).value
    case EnumKind(cons) =>
      forall tv :: tv in s <==> exists k :: 0 <= k < |cons| && tv in ConsTvars(ns, g, nodeMap, cons[k], h).value
    case BuiltinKind => s == {}
  }

  /** The loop of `get_tvars` over the fields of a struct; the first panic ends it. */
  method StructTvars(ns: seq<UVarData>, ghost g: Ghosts, fields: map<string, Type>, ghost h: nat)
    returns (r: Panicking<set<TVar>>)
    requires ValidState(ns, g) && FieldsFinite(ns, g, fields, h)
    ensures r.Value? <==> forall f :: f in fields ==> TvarsOfType(ns, g, fields[f], h).Value?
    ensures r.Value? ==> forall tv :: tv in r.value <==> exists f :: f in fields && tv in TvarsOfType(ns, g, fields[f], h).value
  {
    var acc: set<TVar> := {};
    var todo := fields.Keys;
    while todo != {}
      invariant todo <= fields.Keys
      invariant forall f :: f in fields && f !in todo ==> TvarsOfType(ns, g, fields[f], h).Value?
      invariant forall tv :: tv in acc <==> exists f :: f in fields && f !in todo && tv in TvarsOfType(ns, g, fields[f], h).value
      decreases todo
    {
      var f :| f in todo;
      match TvarsOfType(ns, g, fields[f], h)
      case Panic(why) =>
        return Panic(why);
      case Value(d) =>
        acc := acc + d;
      todo := todo - {f};
    }
    r := Value(acc);
  }

  /** The loop of `get_tvars` over the constructors of an enum; the first panic ends it. */
  method EnumTvars(ns: seq<UVarData>, ghost g: Ghosts, cons: seq<NodeID>, nodeMap: map<NodeID, SymInfo>, ghost h: nat)
    returns (r: Panicking<set<TVar>>)
    requires ValidState(ns, g) && (forall id :: id in nodeMap ==> SymFinite(ns, g, nodeMap[id], h))
    ensures r.Value? <==> forall k :: 0 <= k < |cons| ==> ConsTvars(ns, g, nodeMap, cons[k], h).Value?
    ensures r.Value? ==> forall tv :: tv in r.value <==> exists k :: 0 <= k < |cons| && tv in ConsTvars(ns, g, nodeMap, cons[k], h).value
  {
    var acc: set<TVar> := {};
    var i := 0;
    while i < |cons|
      invariant 0 <= i <= |cons|
      invariant forall k :: 0 <= k < i ==> ConsTvars(ns, g, nodeMap, cons[k], h).Value?
      invariant forall tv :: tv in acc <==> exists k :: 0 <= k < i && ConsIn(ns, g, nodeMap, cons[k], h, tv)
    {
      var c := ConsTvars(ns, g, nodeMap, cons[i], h);
      if c.Panic? {
        return c;
      }
      ConsUnionStep(ns, g, nodeMap, cons, h, i, acc);
      acc := acc + c.value;
      i := i + 1;
    }
    r := Value(acc);
  }

  /** One more constructor whose type variables are collected extends the union by them. */
  lemma ConsUnionStep(ns: seq<UVarData>, g: Ghosts, nodeMap: map<NodeID, SymInfo>, cons: seq<NodeID>, h: nat,
                      i: nat, acc: set<TVar>)
    requires ValidState(ns, g) && (forall id :: id in nodeMap ==> SymFinite(ns, g, nodeMap[id], h))
    requires i < |cons| && ConsTvars(ns, g, nodeMap, cons[i], h).Value?
    requires forall k :: 0 <= k < i ==> ConsTvars(ns, g, nodeMap, cons[k], h).Value?
    requires forall tv :: tv in acc <==> exists k :: 0 <= k < i && ConsIn(ns, g, nodeMap, cons[k], h, tv)
    ensures forall tv :: tv in acc + ConsTvars(ns, g, nodeMap, cons[i], h).value <==>
              exists k :: 0 <= k < i + 1 && ConsIn(ns, g, nodeMap, cons[k], h, tv)
  {
    var d := ConsTvars(ns, g, nodeMap, cons[i], h).value;
    forall tv | tv in acc + d
      ensures exists k :: 0 <= k < i + 1 && ConsIn(ns, g, nodeMap, cons[k], h, tv)
    {
      if tv in d {
        assert ConsIn(ns, g, nodeMap, cons[i], h, tv);
      }
    }
  }

  /** `get_tvars`: the type variables a nominal type holds by value or behind a function
      type, which become its edges in the dependency tree; a builtin type has none. */
  method GetTvars(ns: seq<UVarData>, ghost g: Ghosts, info: TypeInfo, nodeMap: map<NodeID, SymInfo>, ghost h: nat)
    returns (r: Panicking<set<TVar>>)
    requires ValidState(ns, g) && (forall id :: id in nodeMap ==> SymFinite(ns, g, nodeMap[id], h))
    requires info.kind.StructKind? ==> FieldsFinite(ns, g, info.kind.fields, h)
    ensures r.Value? <==> InfoOk(ns, g, info, nodeMap, h)
    ensures r.Value? ==> InfoTvars(ns, g, info, nodeMap, h, r.value)
  {
    match info.kind
    case StructKind(fields) =>
      r := StructTvars(ns, g, fields, h);
    case EnumKind(cons) =>
      r := EnumTvars(ns, g, cons, nodeMap, h);
    case BuiltinKind =>
      r := Value({});
  }

  /** The edges `get_tvars` collects for a nominal type cover the size dependencies of every
      field of a struct and of every argument of an enum constructor, so ordering types by
      the dependency tree orders them by what their sizes need. */
  lemma DepEdgesCoverSizes(ns: seq<UVarData>, g: Ghosts, info: TypeInfo, nodeMap: map<NodeID, SymInfo>, h: nat,
                           s: set<TVar>)
    requires ValidState(ns, g) && (forall id :: id in nodeMap ==> SymFinite(ns, g, nodeMap[id], h))
    requires info.kind.StructKind? ==> FieldsFinite(ns, g, info.kind.fields, h)
    requires InfoOk(ns, g, info, nodeMap, h) && InfoTvars(ns, g, info, nodeMap, h, s)
    ensures info.kind.StructKind? ==> forall f :: f in info.kind.fields ==>
      var d := SizeDependencies(ns, g, info.kind.fields[f], h); d.Value? && d.value <= s
    ensures info.kind.EnumKind? ==> forall k :: 0 <= k < |info.kind.constructors| ==>
      var c := nodeMap[info.kind.constructors[k]];
      c.kind.EnumConsSym? && var d := SizeDependenciesAll(ns, g, c.kind.args, h); d.Value? && d.value <= s
  {
    match info.kind
    case StructKind(fields) =>
      forall f | f in fields
        ensures SizeDependencies(ns, g, fields[f], h).Value? && SizeDependencies(ns, g, fields[f], h).value <= s
      {
        SizeDependenciesWithinTvars(ns, g, fields[f], h);
      }
    case EnumKind(cons) =>
      forall k | 0 <= k < |cons|
        ensures var c := nodeMap[cons[k]];
          c.kind.EnumConsSym? && SizeDependenciesAll(ns, g, c.kind.args, h).Value? &&
          SizeDependenciesAll(ns, g, c.kind.args, h).value <= s
      {
        assert ConsTvars(ns, g, nodeMap, cons[k], h).Value?;
        SizeDependenciesWithinTvarsAll(ns, g, nodeMap[cons[k]].kind.args, h);
      }
    case BuiltinKind =>
  }

  // ---------------------------------------------------------------------------------------
  // make_dep_tree

  /** `make_dep_tree`: one entry per nominal type, holding what `get_tvars` collects for it.
      Each type variable is inserted once, so the duplicate-insert panic never fires. */
  method MakeDepTree(ns: seq<UVarData>, ghost g: Ghosts, tvarMap: map<TVar, TypeInfo>,
                     nodeMap: map<NodeID, SymInfo>, ghost h: nat)
    returns (r: Panicking<Graph>)
    requires TablesFinite(ns, g, tvarMap, nodeMap, h)
    ensures r.Value? <==> forall tv :: tv in tvarMap ==> InfoOk(ns, g, tvarMap[tv], nodeMap, h)
    ensures r.Value? ==> forall tv :: tv in r.value <==> tv in tvarMap
    ensures r.Value? ==> forall tv :: tv in r.value ==> InfoTvars(ns, g, tvarMap[tv], nodeMap, h, r.value[tv])
  {
    var depTree: Graph := map[];
    var todo := tvarMap.Keys;
    while todo != {}
      invariant todo <= tvarMap.Keys
      invariant forall tv :: tv in depTree <==> tv in tvarMap && tv !in todo
      invariant forall tv :: tv in depTree ==> InfoOk(ns, g, tvarMap[tv], nodeMap, h)
      invariant forall tv :: tv in depTree ==> InfoTvars(ns, g, tvarMap[tv], nodeMap, h, depTree[tv])
      decreases todo
    {
      var tv :| tv in todo;
      var tvars := GetTvars(ns, g, tvarMap[tv], nodeMap, h);
      if tvars.Panic? {
        return Panic(tvars.reason);
      }
      assert tv !in depTree;
      depTree := depTree[tv := tvars.value];
      todo := todo - {tv};
    }
    r := Value(depTree);
  }

  /** `calculate_size`: the loop over the type order has an empty body, so no type
      variable gets a size. */
  function CalculateSize(tvarMap: map<TVar, TypeInfo>, nodeMap: map<NodeID, SymInfo>, tvarOrder: seq<TVar>)
    : (r: map<TVar, nat>)
    ensures forall tv :: tv !in r
  {
    map[]
  }
}
