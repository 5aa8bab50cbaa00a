/** The symbol table of src/symtable/mod.rs: building it from the two tables name resolution
    collects (`init`), the size of a type (`sizeof`) and the check that the argument and
    return types of every function and enum constructor have a size (`check_sizes`). Types
    are read through one state `ns` of the unification-variable arena, as in `TypeSort`. */
module SymTables {
  import opened Wrappers
  import opened Common
  import opened NodeIds
  import opened TVars
  import opened Types
  import opened UVars
  import opened TypeOps
  import opened SymInfos
  import opened TypeGraph
  import opened TypeSort

  /** `TypeSize`: a size in bytes, or the reason there is none. */
  datatype TypeSize = Sized(n: nat) | Unsized | Unknown | NotUnified

  /** `SymTable`: the declarations by node, the nominal types by type variable, the order the
      types were sorted in and the sizes computed for them. */
  datatype SymTable = SymTable(nodeMap: map<NodeID, SymInfo>, tvarMap: map<TVar, TypeInfo>,
                               tvarOrder: seq<TVar>, tvarSize: map<TVar, nat>)

  /** `TypeSize::as_usize`: a size can only be read when there is one; otherwise it panics. */
  function AsUsize(s: TypeSize): (r: Panicking<nat>)
    ensures r.Value? <==> s.Sized?
    ensures r.Value? ==> r.value == s.n
  {
    match s
    case Sized(n) => Value(n)
    case _ => Panic("explicit panic")
  }

  // ---------------------------------------------------------------------------------------
  // sizeof

  /** One more summand: a size is added to a size, and the first missing size stays. */
  function Add(a: TypeSize, b: TypeSize): TypeSize
  {
    if !a.Sized? then a
    else if !b.Sized? then b
    else Sized(a.n + b.n)
  }

  /** The size of a nominal type is the one recorded for its type variable, if any. */
  function Lookup(sizes: map<TVar, nat>, tv: TVar): TypeSize
  {
    if tv in sizes then Sized(sizes[tv]) else Unsized
  }

  /** The size of `t`, read off its view: the reference definition of `sizeof`. */
  ghost function SizeOf(sizes: map<TVar, nat>, ns: seq<UVarData>, g: Ghosts, t: Type, h: nat): TypeSize
    requires ValidState(ns, g) && Wf(t, g.numeric) && Finite(ns, g, t, h)
    decreases h, 0
  {
    FiniteUnfold(ns, g, t, h);
    SizeOfNode(sizes, ns, g, ViewIn(ns, g, t), h - 1)
  }

  /** The match of `sizeof` on a viewed type. A tuple adds up its items, a function its
      arguments and then its return type; an array multiplies its element's size by its
      length; pointers take 8 bytes. */
  ghost function SizeOfNode(sizes: map<TVar, nat>, ns: seq<UVarData>, g: Ghosts, v: Type, h: nat): TypeSize
    requires ValidState(ns, g) && Wf(v, g.numeric) && FiniteBelow(ns, g, v, h)
    decreases h, 2
  {
    match v
    case Unknown => TypeSize.Unknown
    case UVar(_) => NotUnified
    case NumericUVar(_) => NotUnified
    case Var(tv) => Lookup(sizes, tv)
    case NamedVar(tv, _) => Lookup(sizes, tv)
    case TypeApp(tv, _, _) => Lookup(sizes, tv)
    case Tuple(items) => SizeOfSum(sizes, ns, g, items, h)
    case Array(len, e) =>
      (match SizeOf(sizes, ns, g, e, h)
       case Sized(n) => Sized(n * len)
       case other => other)
    case Fun(args, ret) => Add(SizeOfSum(sizes, ns, g, args, h), SizeOf(sizes, ns, g, ret, h))
    case Ptr(_) => Sized(8)
    case MutPtr(_) => Sized(8)
  }

  /** The summing loop of `sizeof` over `ts`, from the front. */
  ghost function SizeOfSum(sizes: map<TVar, nat>, ns: seq<UVarData>, g: Ghosts, ts: seq<Type>, h: nat): TypeSize
    requires ValidState(ns, g) && AllWf(ts, g.numeric) && AllFinite(ns, g, ts, h)
    decreases h, 1, |ts|
  {
    if ts == [] then Sized(0)
    else Add(SizeOfSum(sizes, ns, g, ts[..|ts| - 1], h), SizeOf(sizes, ns, g, ts[|ts| - 1], h))
  }

  /** Once a prefix of the items has no size, neither has the whole sum, for the same reason. */
  lemma {:induction false} SumStuck(sizes: map<TVar, nat>, ns: seq<UVarData>, g: Ghosts, ts: seq<Type>, h: nat, j: nat)
    requires ValidState(ns, g) && AllWf(ts, g.numeric) && AllFinite(ns, g, ts, h)
    requires j <= |ts| && !SizeOfSum(sizes, ns, g, ts[..j], h).Sized?
    ensures SizeOfSum(sizes, ns, g, ts, h) == SizeOfSum(sizes, ns, g, ts[..j], h)
    decreases |ts|
  {
    if j == |ts| {
      assert ts[..j] == ts;
    } else {
      var p := ts[..|ts| - 1];
      assert p[..j] == ts[..j];
      SumStuck(sizes, ns, g, p, h, j);
    }
  }

  /** A sum has a size exactly when every item has one; otherwise it is the status of the
      first item without a size. */
  lemma {:induction false} SumFirstMissing(sizes: map<TVar, nat>, ns: seq<UVarData>, g: Ghosts, ts: seq<Type>, h: nat)
    requires ValidState(ns, g) && AllWf(ts, g.numeric) && AllFinite(ns, g, ts, h)
    ensures SizeOfSum(sizes, ns, g, ts, h).Sized? <==> forall k :: 0 <= k < |ts| ==> SizeOf(sizes, ns, g, ts[k], h).Sized?
    ensures !SizeOfSum(sizes, ns, g, ts, h).Sized? ==>
      exists j :: 0 <= j < |ts| && SizeOfSum(sizes, ns, g, ts, h) == SizeOf(sizes, ns, g, ts[j], h)
                && forall k :: 0 <= k < j ==> SizeOf(sizes, ns, g, ts[k], h).Sized?
    decreases |ts|
  {
    if ts != [] {
      var p := ts[..|ts| - 1];
      SumFirstMissing(sizes, ns, g, p, h);
      assert forall k :: 0 <= k < |p| ==> p[k] == ts[k];
    }
  }

  /** `sizeof`. */
  method Sizeof(st: SymTable, ns: seq<UVarData>, ghost g: Ghosts, t: Type, ghost h: nat) returns (r: TypeSize)
    requires ValidState(ns, g) && Wf(t, g.numeric) && Finite(ns, g, t, h)
    ensures r == SizeOf(st.tvarSize, ns, g, t, h)
    decreases h, 0
  {
    FiniteUnfold(ns, g, t, h);
    r := SizeofNode(st, ns, g, ViewIn(ns, g, t), h - 1);
  }

  /** The match of `sizeof` on the view of a type. */
  method SizeofNode(st: SymTable, ns: seq<UVarData>, ghost g: Ghosts, v: Type, ghost h: nat) returns (r: TypeSize)
    requires ValidState(ns, g) && Wf(v, g.numeric) && FiniteBelow(ns, g, v, h)
    ensures r == SizeOfNode(st.tvarSize, ns, g, v, h)
    decreases h, 2
  {
    match v
    case Unknown => r := TypeSize.Unknown;
    case UVar(_) => r := NotUnified;
    case NumericUVar(_) => r := NotUnified;
    case Var(tv) => r := if tv in st.tvarSize then Sized(st.tvarSize[tv]) else Unsized;
    case NamedVar(tv, _) => r := if tv in st.tvarSize then Sized(st.tvarSize[tv]) else Unsized;
    case TypeApp(tv, _, _) => r := if tv in st.tvarSize then Sized(st.tvarSize[tv]) else Unsized;
    case Tuple(items) => r := SumSizes(st, ns, g, items, h);
    case Array(len, e) => r := ArraySize(st, ns, g, len, e, h);
    case Fun(args, ret) => r := FunSize(st, ns, g, args, ret, h);
    case Ptr(_) => r := Sized(8);
    case MutPtr(_) => r := Sized(8);
  }

  /** The array case of `sizeof`: the element's size times the length. */
  method ArraySize(st: SymTable, ns: seq<UVarData>, ghost g: Ghosts, len: nat, e: Type, ghost h: nat) returns (r: TypeSize)
    requires ValidState(ns, g) && Wf(e, g.numeric) && Finite(ns, g, e, h)
    ensures r == match SizeOf(st.tvarSize, ns, g, e, h) case Sized(n) => Sized(n * len) case other => other
    decreases h, 1, 1
  {
    r := Sizeof(st, ns, g, e, h);
    if r.Sized? {
      r := Sized(r.n * len);
    }
  }

  /** The function case of `sizeof`: the arguments' sizes, then the return type's. */
  method FunSize(st: SymTable, ns: seq<UVarData>, ghost g: Ghosts, args: seq<Type>, ret: Type, ghost h: nat)
    returns (r: TypeSize)
    requires ValidState(ns, g) && AllWf(args, g.numeric) && AllFinite(ns, g, args, h)
    requires Wf(ret, g.numeric) && Finite(ns, g, ret, h)
    ensures r == Add(SizeOfSum(st.tvarSize, ns, g, args, h), SizeOf(st.tvarSize, ns, g, ret, h))
    decreases h, 1, 1
  {
    r := SumSizes(st, ns, g, args, h);
    if r.Sized? {
      var s := Sizeof(st, ns, g, ret, h);
      if s.Sized? {
        r := Sized(r.n + s.n);
      } else {
        r := s;
      }
    }
  }

  /** The loop `size += n` of `sizeof` over the items of a tuple or the arguments of a
      function; the first item without a size is returned at once. */
  method SumSizes(st: SymTable, ns: seq<UVarData>, ghost g: Ghosts, ts: seq<Type>, ghost h: nat) returns (r: TypeSize)
    requires ValidState(ns, g) && AllWf(ts, g.numeric) && AllFinite(ns, g, ts, h)
    ensures r == SizeOfSum(st.tvarSize, ns, g, ts, h)
    decreases h, 1, 0
  {
    var size: nat := 0;
    var i := 0;
    while i < |ts|
      invariant i <= |ts|
      invariant SizeOfSum(st.tvarSize, ns, g, ts[..i], h) == Sized(size)
    {
      var s := Sizeof(st, ns, g, ts[i], h);
      assert ts[..i + 1][..i] == ts[..i];
      if !s.Sized? {
        SumStuck(st.tvarSize, ns, g, ts, h, i + 1);
        return s;
      }
      size := size + s.n;
      i := i + 1;
    }
    assert ts[..i] == ts;
    r := Sized(size);
  }

  /** A type with a size depends, for its size, only on type variables that have one: its
      size dependencies are computed without a panic and all of them are in `sizes`. */
  lemma {:induction false} SizedDependencies(sizes: map<TVar, nat>, ns: seq<UVarData>, g: Ghosts, t: Type, h: nat)
    requires ValidState(ns, g) && Wf(t, g.numeric) && Finite(ns, g, t, h)
    ensures SizeOf(sizes, ns, g, t, h).Sized? ==>
      SizeDependencies(ns, g, t, h).Value? && forall tv :: tv in SizeDependencies(ns, g, t, h).value ==> tv in sizes
    decreases h, 0
  {
    FiniteUnfold(ns, g, t, h);
    var v := ViewIn(ns, g, t);
    SizedDependenciesNode(sizes, ns, g, v, h - 1);
    assert SizeOf(sizes, ns, g, t, h) == SizeOfNode(sizes, ns, g, v, h - 1);
    assert SizeDependencies(ns, g, t, h) == SizeDependenciesNode(ns, g, v, h - 1);
  }

  lemma {:induction false} SizedDependenciesNode(sizes: map<TVar, nat>, ns: seq<UVarData>, g: Ghosts, v: Type, h: nat)
    requires ValidState(ns, g) && Wf(v, g.numeric) && FiniteBelow(ns, g, v, h)
    ensures SizeOfNode(sizes, ns, g, v, h).Sized? ==>
      SizeDependenciesNode(ns, g, v, h).Value? && forall tv :: tv in SizeDependenciesNode(ns, g, v, h).value ==> tv in sizes
    decreases h, 2
  {
    match v
    case Tuple(items) =>
      if SizeOfNode(sizes, ns, g, v, h).Sized? {
        SumFirstMissing(sizes, ns, g, items, h);
        forall k | 0 <= k < |items|
          ensures SizeDependencies(ns, g, items[k], h).Value?
          ensures forall tv :: tv in SizeDependencies(ns, g, items[k], h).value ==> tv in sizes
        {
          SizedDependencies(sizes, ns, g, items[k], h);
        }
      }
    case Array(_, e) => SizedDependencies(sizes, ns, g, e, h);
    case _ =>
  }

  /** With no sizes recorded, which is what `calculate_size` produces, a type has a size only
      when its size depends on no type variable at all. */
  lemma EmptySizesSized(ns: seq<UVarData>, g: Ghosts, t: Type, h: nat)
    requires ValidState(ns, g) && Wf(t, g.numeric) && Finite(ns, g, t, h)
    ensures SizeOf(map[], ns, g, t, h).Sized? ==> SizeDependencies(ns, g, t, h) == Value({})
  {
    SizedDependencies(map[], ns, g, t, h);
    if SizeOf(map[], ns, g, t, h).Sized? {
      var d := SizeDependencies(ns, g, t, h).value;
      assert forall tv :: tv !in d;
      assert d == {};
    }
  }

  // ---------------------------------------------------------------------------------------
  // check_sizes

  /** Every declaration's argument and return types are well formed and finite at height `h`. */
  ghost predicate SymsFinite(ns: seq<UVarData>, g: Ghosts, nodeMap: map<NodeID, SymInfo>, h: nat)
    requires ValidState(ns, g)
  {
    forall id :: id in nodeMap ==> SymFinite(ns, g, nodeMap[id], h)
  }

  /** The types `check_sizes` looks at in a declaration: the arguments and then the return type
      of a function, the arguments of an enum constructor, and none of a struct or an enum. */
  function CheckedTypes(sym: SymInfo): seq<Type>
  {
    match sym.kind
    case FuncSym(args, ret) => args + [ret]
    case EnumConsSym(args, _) => args
    case _ => []
  }

  lemma CheckedTypesFinite(ns: seq<UVarData>, g: Ghosts, sym: SymInfo, h: nat)
    requires ValidState(ns, g) && SymFinite(ns, g, sym, h)
    ensures AllWf(CheckedTypes(sym), g.numeric) && AllFinite(ns, g, CheckedTypes(sym), h)
  {
    if sym.kind.FuncSym? {
      var ts := CheckedTypes(sym);
      assert forall k :: 0 <= k < |sym.kind.args| ==> ts[k] == sym.kind.args[k];
      assert ts[|ts| - 1] == sym.kind.ret;
    }
  }

  /** What `check_sizes` does with one type of a declaration at `pos`: a type without a size is
      reported at the declaration, and a type with an open unification variable panics. */
  ghost function TypeReports(sizes: map<TVar, nat>, ns: seq<UVarData>, g: Ghosts, t: Type, h: nat, pos: Position)
    : Panicking<seq<Diagnostic>>
    requires ValidState(ns, g) && Wf(t, g.numeric) && Finite(ns, g, t, h)
  {
    match SizeOf(sizes, ns, g, t, h)
    case NotUnified => Panic("explicit panic")
    case Unsized => Value([Diagnostic(UnsizedType, pos)])
    case _ => Value([])
  }

  /** The reports for the types `ts` of a declaration at `pos`, in order; the first panic ends them. */
  ghost function TypesReports(sizes: map<TVar, nat>, ns: seq<UVarData>, g: Ghosts, ts: seq<Type>, h: nat, pos: Position)
    : Panicking<seq<Diagnostic>>
    requires ValidState(ns, g) && AllWf(ts, g.numeric) && AllFinite(ns, g, ts, h)
    decreases |ts|
  {
    if ts == [] then Value([])
    else
      match TypesReports(sizes, ns, g, ts[..|ts| - 1], h, pos)
      case Panic(why) => Panic(why)
      case Value(d) =>
        match TypeReports(sizes, ns, g, ts[|ts| - 1], h, pos)
        case Panic(why) => Panic(why)
        case Value(e) => Value(d + e)
  }

  /** The reports for one declaration. */
  ghost function SymReports(sizes: map<TVar, nat>, ns: seq<UVarData>, g: Ghosts, sym: SymInfo, h: nat)
    : Panicking<seq<Diagnostic>>
    requires ValidState(ns, g) && SymFinite(ns, g, sym, h)
  {
    CheckedTypesFinite(ns, g, sym, h);
    TypesReports(sizes, ns, g, CheckedTypes(sym), h, sym.pos)
  }

  /** The positions among `ts` whose type has no size. */
  ghost function UnsizedAt(sizes: map<TVar, nat>, ns: seq<UVarData>, g: Ghosts, ts: seq<Type>, h: nat): set<nat>
    requires ValidState(ns, g) && AllWf(ts, g.numeric) && AllFinite(ns, g, ts, h)
  {
    set k: nat | k < |ts| && SizeOf(sizes, ns, g, ts[k], h).Unsized?
  }

  /** Once the reports for a prefix of the types panic, so do the reports for all of them. */
  lemma {:induction false} TypesStuck(sizes: map<TVar, nat>, ns: seq<UVarData>, g: Ghosts, ts: seq<Type>, h: nat,
                                      pos: Position, j: nat)
    requires ValidState(ns, g) && AllWf(ts, g.numeric) && AllFinite(ns, g, ts, h)
    requires j <= |ts| && TypesReports(sizes, ns, g, ts[..j], h, pos).Panic?
    ensures TypesReports(sizes, ns, g, ts, h, pos).Panic?
    decreases |ts|
  {
    if j == |ts| {
      assert ts[..j] == ts;
    } else {
      var p := ts[..|ts| - 1];
      assert p[..j] == ts[..j];
      TypesStuck(sizes, ns, g, p, h, pos, j);
    }
  }

  /** The reports for a list of types panic exactly when some type has an open unification
      variable. */
  lemma {:induction false} TypesReportsPanic(sizes: map<TVar, nat>, ns: seq<UVarData>, g: Ghosts, ts: seq<Type>,
                                             h: nat, pos: Position)
    requires ValidState(ns, g) && AllWf(ts, g.numeric) && AllFinite(ns, g, ts, h)
    ensures TypesReports(sizes, ns, g, ts, h, pos).Value? <==>
      forall k :: 0 <= k < |ts| ==> !SizeOf(sizes, ns, g, ts[k], h).NotUnified?
    decreases |ts|
  {
    if ts != [] {
      var n := |ts| - 1;
      var p := ts[..n];
      AllButLast(ns, g, ts, h);
      TypesReportsPanic(sizes, ns, g, p, h, pos);
      assert forall k :: 0 <= k < n ==> p[k] == ts[k];
      var lastOk := !SizeOf(sizes, ns, g, ts[n], h).NotUnified?;
      assert TypeReports(sizes, ns, g, ts[n], h, pos).Value? <==> lastOk;
      assert TypesReports(sizes, ns, g, ts, h, pos).Value? <==>
        TypesReports(sizes, ns, g, p, h, pos).Value? && lastOk;
      UnifiedSnoc(sizes, ns, g, ts, p, h);
    }
  }

  /** Every type of a list has a unified size exactly when every type but the last does and
      the last does. */
  lemma UnifiedSnoc(sizes: map<TVar, nat>, ns: seq<UVarData>, g: Ghosts, ts: seq<Type>, p: seq<Type>, h: nat)
    requires ValidState(ns, g) && AllWf(ts, g.numeric) && AllFinite(ns, g, ts, h) && ts != []
    requires p == ts[..|ts| - 1] && AllWf(p, g.numeric) && AllFinite(ns, g, p, h)
    ensures (forall k :: 0 <= k < |ts| ==> !SizeOf(sizes, ns, g, ts[k], h).NotUnified?) <==>
      (forall k :: 0 <= k < |p| ==> !SizeOf(sizes, ns, g, p[k], h).NotUnified?)
      && !SizeOf(sizes, ns, g, ts[|ts| - 1], h).NotUnified?
  {
    assert forall k :: 0 <= k < |p| ==> p[k] == ts[k];
  }

  /** Otherwise they hold one unsized-type diagnostic at `pos` for each type without a size. */
  lemma {:induction false} TypesReportsCount(sizes: map<TVar, nat>, ns: seq<UVarData>, g: Ghosts, ts: seq<Type>,
                                             h: nat, pos: Position)
    requires ValidState(ns, g) && AllWf(ts, g.numeric) && AllFinite(ns, g, ts, h)
    requires TypesReports(sizes, ns, g, ts, h, pos).Value?
    ensures forall d :: d in TypesReports(sizes, ns, g, ts, h, pos).value ==> d == Diagnostic(UnsizedType, pos)
    ensures |TypesReports(sizes, ns, g, ts, h, pos).value| == |UnsizedAt(sizes, ns, g, ts, h)|
    decreases |ts|
  {
    if ts == [] {
      assert UnsizedAt(sizes, ns, g, ts, h) == {};
    } else {
      var n := |ts| - 1;
      var p := ts[..n];
      AllButLast(ns, g, ts, h);
      TypesReportsCount(sizes, ns, g, p, h, pos);
      UnsizedAtSnoc(sizes, ns, g, ts, h);
    }
  }

  /** The positions without a size among `ts` are those of its prefix and possibly the last. */
  lemma UnsizedAtSnoc(sizes: map<TVar, nat>, ns: seq<UVarData>, g: Ghosts, ts: seq<Type>, h: nat)
    requires ValidState(ns, g) && AllWf(ts, g.numeric) && AllFinite(ns, g, ts, h) && ts != []
    ensures |UnsizedAt(sizes, ns, g, ts, h)| ==
      |UnsizedAt(sizes, ns, g, ts[..|ts| - 1], h)| + (if SizeOf(sizes, ns, g, ts[|ts| - 1], h).Unsized? then 1 else 0)
  {
    var n := |ts| - 1;
    var p := ts[..n];
    assert forall k :: 0 <= k < n ==> p[k] == ts[k];
    var a := UnsizedAt(sizes, ns, g, p, h);
    var extra: set<nat> := if SizeOf(sizes, ns, g, ts[n], h).Unsized? then {n} else {};
    forall k: nat
      ensures k in UnsizedAt(sizes, ns, g, ts, h) <==> k in a + extra
    {
      if k < n {
        assert p[k] == ts[k];
        assert k in a <==> SizeOf(sizes, ns, g, ts[k], h).Unsized?;
        assert k !in extra;
      } else if k == n {
        assert k !in a;
      } else {
        assert k !in a && k !in extra;
      }
    }
    assert UnsizedAt(sizes, ns, g, ts, h) == a + extra;
    assert n !in a;
  }

  /** Some type `check_sizes` looks at in `sym` has no size. */
  ghost predicate HasUnsized(sizes: map<TVar, nat>, ns: seq<UVarData>, g: Ghosts, sym: SymInfo, h: nat)
    requires ValidState(ns, g) && SymFinite(ns, g, sym, h)
  {
    CheckedTypesFinite(ns, g, sym, h);
    exists k :: 0 <= k < |CheckedTypes(sym)| && SizeOf(sizes, ns, g, CheckedTypes(sym)[k], h).Unsized?
  }

  /** The reports for one declaration are unsized-type diagnostics at its position, and there
      is one exactly when some argument or return type has no size. */
  lemma SymReportsMeaning(sizes: map<TVar, nat>, ns: seq<UVarData>, g: Ghosts, sym: SymInfo, h: nat)
    requires ValidState(ns, g) && SymFinite(ns, g, sym, h)
    ensures SymReports(sizes, ns, g, sym, h).Value? ==>
      (forall d :: d in SymReports(sizes, ns, g, sym, h).value ==> d == Diagnostic(UnsizedType, sym.pos))
      && (SymReports(sizes, ns, g, sym, h).value != [] <==> HasUnsized(sizes, ns, g, sym, h))
  {
    CheckedTypesFinite(ns, g, sym, h);
    var ts := CheckedTypes(sym);
    if SymReports(sizes, ns, g, sym, h).Value? {
      TypesReportsCount(sizes, ns, g, ts, h, sym.pos);
    }
    if HasUnsized(sizes, ns, g, sym, h) {
      var k :| 0 <= k < |ts| && SizeOf(sizes, ns, g, ts[k], h).Unsized?;
      assert k in UnsizedAt(sizes, ns, g, ts, h);
    }
    if SymReports(sizes, ns, g, sym, h).Value? && SymReports(sizes, ns, g, sym, h).value != [] {
      var k :| k in UnsizedAt(sizes, ns, g, ts, h);
    }
  }

  /** A declaration with a type without a size is reported at its position. */
  lemma ReportedAt(sizes: map<TVar, nat>, ns: seq<UVarData>, g: Ghosts, sym: SymInfo, h: nat)
    requires ValidState(ns, g) && SymFinite(ns, g, sym, h)
    requires SymReports(sizes, ns, g, sym, h).Value? && HasUnsized(sizes, ns, g, sym, h)
    ensures Diagnostic(UnsizedType, sym.pos) in SymReports(sizes, ns, g, sym, h).value
  {
    SymReportsMeaning(sizes, ns, g, sym, h);
    var ds := SymReports(sizes, ns, g, sym, h).value;
    assert ds[0] in ds;
  }

  /** `order` lists the keys of `nodeMap`, each once. */
  ghost predicate Enumerates(nodeMap: map<NodeID, SymInfo>, order: seq<NodeID>)
  {
    && (forall id :: id in nodeMap <==> id in order)
    && (forall i, j :: 0 <= i < j < |order| ==> order[i] != order[j])
  }

  /** `order` lists, each once, the keys of `nodeMap` that are not in `todo`. */
  ghost predicate Visited(nodeMap: map<NodeID, SymInfo>, order: seq<NodeID>, todo: set<NodeID>)
  {
    && todo <= nodeMap.Keys
    && (forall id :: id in order <==> id in nodeMap && id !in todo)
    && (forall i, j :: 0 <= i < j < |order| ==> order[i] != order[j])
  }

  lemma VisitStep(nodeMap: map<NodeID, SymInfo>, order: seq<NodeID>, todo: set<NodeID>, id: NodeID)
    requires Visited(nodeMap, order, todo) && id in todo
    ensures Visited(nodeMap, order + [id], todo - {id})
  {
  }

  lemma VisitEnd(nodeMap: map<NodeID, SymInfo>, order: seq<NodeID>)
    requires Visited(nodeMap, order, {})
    ensures Enumerates(nodeMap, order)
  {
  }

  /** The reports of `check_sizes` for each declaration. */
  ghost function AllSymReports(sizes: map<TVar, nat>, ns: seq<UVarData>, g: Ghosts, nodeMap: map<NodeID, SymInfo>, h: nat)
    : map<NodeID, Panicking<seq<Diagnostic>>>
    requires ValidState(ns, g) && SymsFinite(ns, g, nodeMap, h)
  {
    map id | id in nodeMap :: SymReports(sizes, ns, g, nodeMap[id], h)
  }

  /** The entry of one declaration in `AllSymReports`. */
  lemma SymReportsAt(sizes: map<TVar, nat>, ns: seq<UVarData>, g: Ghosts, nodeMap: map<NodeID, SymInfo>, h: nat,
                     id: NodeID)
    requires ValidState(ns, g) && SymsFinite(ns, g, nodeMap, h) && id in nodeMap
    ensures id in AllSymReports(sizes, ns, g, nodeMap, h)
    ensures AllSymReports(sizes, ns, g, nodeMap, h)[id] == SymReports(sizes, ns, g, nodeMap[id], h)
  {
  }

  /** Concatenation is associative; stated once so that the report bookkeeping stays cheap. */
  lemma AppendAssoc(a: seq<Diagnostic>, b: seq<Diagnostic>, c: seq<Diagnostic>)
    ensures (a + b) + c == a + (b + c)
  {
  }

  /** None of the declarations in `order` panics. */
  ghost predicate Checkable(reps: map<NodeID, Panicking<seq<Diagnostic>>>, order: seq<NodeID>)
  {
    forall k :: 0 <= k < |order| ==> order[k] in reps && reps[order[k]].Value?
  }

  /** The reports for the declarations visited in `order`, one after the other. */
  ghost function ReportsOf(reps: map<NodeID, Panicking<seq<Diagnostic>>>, order: seq<NodeID>): seq<Diagnostic>
    requires Checkable(reps, order)
  {
    if order == [] then []
    else ReportsOf(reps, order[..|order| - 1]) + reps[order[|order| - 1]].value
  }

  /** Visiting one more declaration appends its reports. */
  lemma ReportsOfSnoc(reps: map<NodeID, Panicking<seq<Diagnostic>>>, order: seq<NodeID>, id: NodeID)
    requires Checkable(reps, order) && id in reps && reps[id].Value?
    ensures Checkable(reps, order + [id])
    ensures ReportsOf(reps, order + [id]) == ReportsOf(reps, order) + reps[id].value
  {
    assert (order + [id])[..|order|] == order;
  }

  /** Each report comes from one of the visited declarations. */
  lemma {:induction false} ReportsFrom(reps: map<NodeID, Panicking<seq<Diagnostic>>>, order: seq<NodeID>, d: Diagnostic)
    requires Checkable(reps, order) && d in ReportsOf(reps, order)
    ensures exists k :: 0 <= k < |order| && d in reps[order[k]].value
    decreases |order|
  {
    var n := |order| - 1;
    var p := order[..n];
    if d in ReportsOf(reps, p) {
      ReportsFrom(reps, p, d);
      var k :| 0 <= k < |p| && d in reps[p[k]].value;
      assert p[k] == order[k];
    } else {
      assert d in reps[order[n]].value;
    }
  }

  /** Each report of a visited declaration is among the reports. */
  lemma {:induction false} ReportsInclude(reps: map<NodeID, Panicking<seq<Diagnostic>>>, order: seq<NodeID>, k: nat,
                                          d: Diagnostic)
    requires Checkable(reps, order) && k < |order| && d in reps[order[k]].value
    ensures d in ReportsOf(reps, order)
    decreases |order|
  {
    var n := |order| - 1;
    var p := order[..n];
    if k < n {
      assert p[k] == order[k];
      ReportsInclude(reps, p, k, d);
    }
  }

  /** Every report of `check_sizes` is an unsized-type diagnostic at the position of a visited
      declaration that has an argument or return type without a size. */
  lemma ReportsSound(sizes: map<TVar, nat>, ns: seq<UVarData>, g: Ghosts, nodeMap: map<NodeID, SymInfo>,
                     order: seq<NodeID>, h: nat, d: Diagnostic)
    requires ValidState(ns, g) && SymsFinite(ns, g, nodeMap, h)
    requires Checkable(AllSymReports(sizes, ns, g, nodeMap, h), order)
    requires d in ReportsOf(AllSymReports(sizes, ns, g, nodeMap, h), order)
    ensures d.kind == UnsizedType
    ensures exists k :: 0 <= k < |order| && d.pos == nodeMap[order[k]].pos && HasUnsized(sizes, ns, g, nodeMap[order[k]], h)
  {
    var reps := AllSymReports(sizes, ns, g, nodeMap, h);
    ReportsFrom(reps, order, d);
    var k :| 0 <= k < |order| && d in reps[order[k]].value;
    SymReportsMeaning(sizes, ns, g, nodeMap[order[k]], h);
  }

  /** Every visited declaration with an argument or return type without a size is reported,
      with an unsized-type diagnostic at its position. */
  lemma ReportsComplete(sizes: map<TVar, nat>, ns: seq<UVarData>, g: Ghosts, nodeMap: map<NodeID, SymInfo>,
                        order: seq<NodeID>, h: nat, k: nat)
    requires ValidState(ns, g) && SymsFinite(ns, g, nodeMap, h)
    requires Checkable(AllSymReports(sizes, ns, g, nodeMap, h), order)
    requires k < |order| && HasUnsized(sizes, ns, g, nodeMap[order[k]], h)
    ensures Diagnostic(UnsizedType, nodeMap[order[k]].pos) in ReportsOf(AllSymReports(sizes, ns, g, nodeMap, h), order)
  {
    var reps := AllSymReports(sizes, ns, g, nodeMap, h);
    ReportedAt(sizes, ns, g, nodeMap[order[k]], h);
    ReportsInclude(reps, order, k, Diagnostic(UnsizedType, nodeMap[order[k]].pos));
  }

  /** One type of a declaration: `ctx.report(unsized_type(..))` when it has no size, a panic
      when it has an open unification variable. */
  method CheckType(ctx: Context, st: SymTable, ns: seq<UVarData>, ghost g: Ghosts, t: Type, ghost h: nat, pos: Position)
    returns (ok: bool)
    requires ValidState(ns, g) && Wf(t, g.numeric) && Finite(ns, g, t, h)
    modifies ctx
    ensures ok <==> TypeReports(st.tvarSize, ns, g, t, h, pos).Value?
    ensures ok ==> ctx.diagnostics == old(ctx.diagnostics) + TypeReports(st.tvarSize, ns, g, t, h, pos).value
  {
    var s := Sizeof(st, ns, g, t, h);
    match s
    case Unsized =>
      ctx.Report(Diagnostic(UnsizedType, pos));
      ok := true;
    case NotUnified => ok := false;
    case _ => ok := true;
  }

  /** The loop of `check_sizes` over the argument types of one declaration. */
  method CheckTypes(ctx: Context, st: SymTable, ns: seq<UVarData>, ghost g: Ghosts, ts: seq<Type>, ghost h: nat,
                    pos: Position) returns (ok: bool)
    requires ValidState(ns, g) && AllWf(ts, g.numeric) && AllFinite(ns, g, ts, h)
    modifies ctx
    ensures ok <==> TypesReports(st.tvarSize, ns, g, ts, h, pos).Value?
    ensures ok ==> ctx.diagnostics == old(ctx.diagnostics) + TypesReports(st.tvarSize, ns, g, ts, h, pos).value
  {
    var i := 0;
    while i < |ts|
      invariant i <= |ts|
      invariant TypesReports(st.tvarSize, ns, g, ts[..i], h, pos).Value?
      invariant ctx.diagnostics == old(ctx.diagnostics) + TypesReports(st.tvarSize, ns, g, ts[..i], h, pos).value
    {
      assert ts[..i + 1][..i] == ts[..i];
      ok := CheckType(ctx, st, ns, g, ts[i], h, pos);
      if !ok {
        TypesStuck(st.tvarSize, ns, g, ts, h, pos, i + 1);
        return;
      }
      i := i + 1;
    }
    assert ts[..i] == ts;
    ok := true;
  }

  /** The body of `check_sizes` for one declaration: the arguments and then the return type
      of a function, the arguments of an enum constructor; structs and enums are skipped. */
  method CheckSym(ctx: Context, st: SymTable, ns: seq<UVarData>, ghost g: Ghosts, sym: SymInfo, ghost h: nat)
    returns (ok: bool)
    requires ValidState(ns, g) && SymFinite(ns, g, sym, h)
    modifies ctx
    ensures ok <==> SymReports(st.tvarSize, ns, g, sym, h).Value?
    ensures ok ==> ctx.diagnostics == old(ctx.diagnostics) + SymReports(st.tvarSize, ns, g, sym, h).value
  {
    CheckedTypesFinite(ns, g, sym, h);
    match sym.kind
    case FuncSym(args, ret) =>
      var ts := args + [ret];
      assert ts[..|ts| - 1] == args;
      ok := CheckTypes(ctx, st, ns, g, args, h, sym.pos);
      if ok {
        ok := CheckType(ctx, st, ns, g, ret, h, sym.pos);
      }
    case EnumConsSym(args, _) =>
      ok := CheckTypes(ctx, st, ns, g, args, h, sym.pos);
    case _ =>
      ok := true;
  }

  /** One declaration of `check_sizes`, with the reports of the declarations visited before it. */
  method CheckNext(ctx: Context, st: SymTable, ns: seq<UVarData>, ghost g: Ghosts, ghost h: nat,
                   ghost reps: map<NodeID, Panicking<seq<Diagnostic>>>, ghost earlier: seq<Diagnostic>,
                   ghost order: seq<NodeID>, id: NodeID)
    returns (ok: bool)
    requires id in st.nodeMap && ValidState(ns, g) && SymFinite(ns, g, st.nodeMap[id], h)
    requires id in reps && reps[id] == SymReports(st.tvarSize, ns, g, st.nodeMap[id], h)
    requires Checkable(reps, order)
    requires ctx.diagnostics == earlier + ReportsOf(reps, order)
    modifies ctx
    ensures ok <==> reps[id].Value?
    ensures ok ==> Checkable(reps, order + [id]) && ctx.diagnostics == earlier + ReportsOf(reps, order + [id])
  {
    ghost var before := ctx.diagnostics;
    ok := CheckSym(ctx, st, ns, g, st.nodeMap[id], h);
    if ok {
      ghost var mine := reps[id].value;
      assert ctx.diagnostics == before + mine;
      ReportsOfSnoc(reps, order, id);
      AppendAssoc(earlier, ReportsOf(reps, order), mine);
    }
  }

  /** `check_sizes`: every declaration, in the map's iteration order `order`. A type with an
      open unification variable panics; otherwise the diagnostics are the reports of the
      declarations in that order. */
  method CheckSizes(ctx: Context, st: SymTable, ns: seq<UVarData>, ghost g: Ghosts, ghost h: nat)
    returns (ok: bool, ghost order: seq<NodeID>)
    requires ValidState(ns, g) && SymsFinite(ns, g, st.nodeMap, h)
    modifies ctx
    ensures ok <==> forall id :: id in st.nodeMap ==> SymReports(st.tvarSize, ns, g, st.nodeMap[id], h).Value?
    ensures ok ==> Enumerates(st.nodeMap, order) && Checkable(AllSymReports(st.tvarSize, ns, g, st.nodeMap, h), order)
                   && ctx.diagnostics == old(ctx.diagnostics) + ReportsOf(AllSymReports(st.tvarSize, ns, g, st.nodeMap, h), order)
  {
    ghost var reps := AllSymReports(st.tvarSize, ns, g, st.nodeMap, h);
    order := [];
    var todo := st.nodeMap.Keys;
    while todo != {}
      invariant Visited(st.nodeMap, order, todo)
      invariant forall id :: id in st.nodeMap && id !in todo ==> reps[id].Value?
      invariant Checkable(reps, order)
      invariant ctx.diagnostics == old(ctx.diagnostics) + ReportsOf(reps, order)
      decreases |todo|
    {
      var id :| id in todo;
      SymReportsAt(st.tvarSize, ns, g, st.nodeMap, h, id);
      ok := CheckNext(ctx, st, ns, g, h, reps, old(ctx.diagnostics), order, id);
      if !ok {
        return;
      }
      VisitStep(st.nodeMap, order, todo, id);
      order := order + [id];
      todo := todo - {id};
    }
    VisitEnd(st.nodeMap, order);
    ok := true;
  }

  /** The view of `t` is a nominal type: a struct, an enum or a builtin, possibly applied. */
  ghost predicate Nominal(ns: seq<UVarData>, g: Ghosts, t: Type)
    requires ValidState(ns, g) && Wf(t, g.numeric)
  {
    var v := ViewIn(ns, g, t);
    v.Var? || v.NamedVar? || v.TypeApp?
  }

  /** Since `calculate_size` records no sizes, a declaration with an argument or return type
      that is nominal is always reported as having an unsized type. */
  lemma NominalReported(ns: seq<UVarData>, g: Ghosts, nodeMap: map<NodeID, SymInfo>, order: seq<NodeID>, h: nat,
                        k: nat, j: nat)
    requires ValidState(ns, g) && SymsFinite(ns, g, nodeMap, h)
    requires Checkable(AllSymReports(map[], ns, g, nodeMap, h), order)
    requires k < |order| && j < |CheckedTypes(nodeMap[order[k]])|
    requires Wf(CheckedTypes(nodeMap[order[k]])[j], g.numeric) && Nominal(ns, g, CheckedTypes(nodeMap[order[k]])[j])
    ensures Diagnostic(UnsizedType, nodeMap[order[k]].pos) in ReportsOf(AllSymReports(map[], ns, g, nodeMap, h), order)
  {
    var sym := nodeMap[order[k]];
    CheckedTypesFinite(ns, g, sym, h);
    var t := CheckedTypes(sym)[j];
    FiniteUnfold(ns, g, t, h);
    assert SizeOf(map[], ns, g, t, h).Unsized?;
    assert HasUnsized(map[], ns, g, sym, h);
    ReportsComplete(map[], ns, g, nodeMap, order, h, k);
  }

  // ---------------------------------------------------------------------------------------
  // init

  /** The diagnostics `init` reports for the types left on dependency cycles: one per type,
      in the order they were left, at the type's declaration. */
  function RecursiveReports(tvarMap: map<TVar, TypeInfo>, cyclic: seq<TVar>): (r: seq<Diagnostic>)
    requires forall i :: 0 <= i < |cyclic| ==> cyclic[i] in tvarMap
    ensures |r| == |cyclic|
    ensures forall i :: 0 <= i < |cyclic| ==> r[i] == Diagnostic(RecursiveType, tvarMap[cyclic[i]].pos)
  {
    if cyclic == [] then []
    else RecursiveReports(tvarMap, cyclic[..|cyclic| - 1]) + [Diagnostic(RecursiveType, tvarMap[cyclic[|cyclic| - 1]].pos)]
  }

  /** `dep` is the dependency tree `make_dep_tree` builds: every nominal type has an entry,
      holding the type variables `get_tvars` collects for it. */
  ghost predicate DepTreeOf(ns: seq<UVarData>, g: Ghosts, tvarMap: map<TVar, TypeInfo>, nodeMap: map<NodeID, SymInfo>,
                            h: nat, dep: Graph)
    requires TablesFinite(ns, g, tvarMap, nodeMap, h)
  {
    && (forall tv :: tv in tvarMap ==> InfoOk(ns, g, tvarMap[tv], nodeMap, h))
    && (forall tv :: tv in dep <==> tv in tvarMap)
    && (forall tv :: tv in dep ==> InfoTvars(ns, g, tvarMap[tv], nodeMap, h, dep[tv]))
  }

  /** When every edge of the graph ends at one of its keys, the nodes left over by the sort
      are keys too: each is the target of an edge. */
  lemma LeftAreKeys(g: Graph, order: seq<TVar>, left: seq<TVar>)
    requires TopoSorted(g, order, left)
    requires forall u, v :: Edge(g, u, v) ==> v in g
    ensures forall i :: 0 <= i < |left| ==> left[i] in g
  {
    forall i | 0 <= i < |left|
      ensures left[i] in g
    {
      assert Listed(left, left[i]);
    }
  }

  /** The loop of `init` over the types left on cycles: each is looked up among the nominal
      types (the `unwrap` panics when it is not one) and reported as a recursive type. */
  method ReportCyclic(ctx: Context, tvarMap: map<TVar, TypeInfo>, cyclic: seq<TVar>) returns (ok: bool)
    modifies ctx
    ensures ok <==> forall i :: 0 <= i < |cyclic| ==> cyclic[i] in tvarMap
    ensures ok ==> ctx.diagnostics == old(ctx.diagnostics) + RecursiveReports(tvarMap, cyclic)
  {
    var i := 0;
    while i < |cyclic|
      invariant i <= |cyclic|
      invariant forall k :: 0 <= k < i ==> cyclic[k] in tvarMap
      invariant ctx.diagnostics == old(ctx.diagnostics) + RecursiveReports(tvarMap, cyclic[..i])
    {
      if cyclic[i] !in tvarMap {
        return false;
      }
      assert cyclic[..i + 1][..i] == cyclic[..i];
      ctx.Report(Diagnostic(RecursiveType, tvarMap[cyclic[i]].pos));
      i := i + 1;
    }
    assert cyclic[..i] == cyclic;
    ok := true;
  }

  /** The first two steps of `init`: `make_dep_tree`, then `topo_sort` of the tree. */
  method SortTypes(ns: seq<UVarData>, ghost g: Ghosts, nodeMap: map<NodeID, SymInfo>, tvarMap: map<TVar, TypeInfo>,
                   ghost h: nat)
    returns (r: Panicking<(seq<TVar>, seq<TVar>)>, ghost dep: Graph)
    requires TablesFinite(ns, g, tvarMap, nodeMap, h)
    ensures (forall tv :: tv in tvarMap ==> InfoOk(ns, g, tvarMap[tv], nodeMap, h)) ==> DepTreeOf(ns, g, tvarMap, nodeMap, h, dep)
    ensures r.Value? ==> DepTreeOf(ns, g, tvarMap, nodeMap, h, dep) && TopoSorted(dep, r.value.0, r.value.1)
    ensures (forall tv :: tv in tvarMap ==> InfoOk(ns, g, tvarMap[tv], nodeMap, h))
            && (forall u, v :: Edge(dep, u, v) ==> v in dep)
            ==> r.Value? && forall i :: 0 <= i < |r.value.1| ==> r.value.1[i] in tvarMap
  {
    dep := map[];
    var tree := MakeDepTree(ns, g, tvarMap, nodeMap, h);
    if tree.Panic? {
      return Panic(tree.reason), dep;
    }
    var depTree := tree.value;
    dep := depTree;
    r := TopoSort(depTree);
    if r.Value? && forall u, v :: Edge(dep, u, v) ==> v in dep {
      LeftAreKeys(dep, r.value.0, r.value.1);
    }
  }

  /** `SymTable::init`: the dependency tree of the nominal types, sorted; one recursive-type
      diagnostic per type left on a cycle; no sizes (`calculate_size`); then `check_sizes`.
      The table keeps both maps as they were given. */
  method Init(ctx: Context, ns: seq<UVarData>, ghost g: Ghosts, nodeMap: map<NodeID, SymInfo>,
              tvarMap: map<TVar, TypeInfo>, ghost h: nat)
    returns (r: Panicking<SymTable>, ghost dep: Graph, ghost cyclic: seq<TVar>, ghost checked: seq<NodeID>)
    requires TablesFinite(ns, g, tvarMap, nodeMap, h)
    modifies ctx
    ensures (forall tv :: tv in tvarMap ==> InfoOk(ns, g, tvarMap[tv], nodeMap, h)) ==> DepTreeOf(ns, g, tvarMap, nodeMap, h, dep)
    ensures r.Value? ==> r.value.nodeMap == nodeMap && r.value.tvarMap == tvarMap && r.value.tvarSize == map[]
    ensures r.Value? ==> DepTreeOf(ns, g, tvarMap, nodeMap, h, dep) && TopoSorted(dep, r.value.tvarOrder, cyclic)
    ensures r.Value? ==>
      && (forall i :: 0 <= i < |cyclic| ==> cyclic[i] in tvarMap)
      && Enumerates(nodeMap, checked)
      && Checkable(AllSymReports(map[], ns, g, nodeMap, h), checked)
      && ctx.diagnostics == old(ctx.diagnostics) + RecursiveReports(tvarMap, cyclic)
                            + ReportsOf(AllSymReports(map[], ns, g, nodeMap, h), checked)
    ensures && (forall tv :: tv in tvarMap ==> InfoOk(ns, g, tvarMap[tv], nodeMap, h))
            && (forall u, v :: Edge(dep, u, v) ==> v in dep)
            && (forall id :: id in nodeMap ==> SymReports(map[], ns, g, nodeMap[id], h).Value?)
            ==> r.Value?
  {
    cyclic, checked := [], [];
    var sorted;
    sorted, dep := SortTypes(ns, g, nodeMap, tvarMap, h);
    if sorted.Panic? {
      return Panic(sorted.reason), dep, cyclic, checked;
    }
    var tvarOrder := sorted.value.0;
    cyclic := sorted.value.1;
    var ok := ReportCyclic(ctx, tvarMap, sorted.value.1);
    if !ok {
      return Panic("called `Option::unwrap()` on a `None` value"), dep, cyclic, checked;
    }
    var tvarSize := CalculateSize(tvarMap, nodeMap, tvarOrder);
    assert tvarSize == map[];
    var st := SymTable(nodeMap, tvarMap, tvarOrder, tvarSize);
    ok, checked := CheckSizes(ctx, st, ns, g, h);
    if !ok {
      return Panic("explicit panic"), dep, cyclic, checked;
    }
    r := Value(st);
  }
}
