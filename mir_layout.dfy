/** Memory layouts of types and the lowering of a function's signature (src/mir/mod.rs). */
module MirLayout {
  import opened Wrappers
  import opened TVars
  import opened Types
  import opened SymInfos
  import opened SymTables
  import opened VarIds
  import opened MirAst
  import opened MirEnvs

  /** Why `get_layout` panics. */
  datatype Stop =
    | OpenType     // `panic!()` on Unknown, UVar and NumericUVar
    | UnwrapNone   // an `unwrap` of `builtin_as_mir_type` or `find_type_info` that finds nothing
    | Todo         // `todo!()` on builtin-kind and enum type variables
    | Depth        // struct nesting deeper than the fuel: stands for the call stack running out

  datatype Laid<T> = Done(value: T) | Stopped(why: Stop)

  /** What the lowering needs to know beyond the symbol table: the machine type of every
      builtin type variable with a size (`builtin_as_mir_type`, keyed by id), and the order in
      which the field map of each struct is visited. */
  datatype Lowering = Lowering(o: TVarOracle, mirTypes: map<nat, Prim>, fieldOrder: map<TVar, seq<string>>)

  /** The field order of every struct names each field exactly once, as a map iteration does. */
  ghost predicate OrdersOk(st: SymTable, lw: Lowering)
  {
    forall tv :: tv in st.tvarMap && st.tvarMap[tv].kind.StructKind? ==>
      && tv in lw.fieldOrder
      && (forall k :: 0 <= k < |lw.fieldOrder[tv]| ==> lw.fieldOrder[tv][k] in st.tvarMap[tv].kind.fields)
      && (forall f :: f in st.tvarMap[tv].kind.fields ==> f in lw.fieldOrder[tv])
      && (forall j, k :: 0 <= j < k < |lw.fieldOrder[tv]| ==> lw.fieldOrder[tv][j] != lw.fieldOrder[tv][k])
  }

  /** The field types of a struct, in visiting order. */
  function FieldTypes(fields: map<string, Type>, names: seq<string>): (r: seq<Type>)
    requires forall k :: 0 <= k < |names| ==> names[k] in fields
    ensures |r| == |names| && forall k :: 0 <= k < |names| ==> r[k] == fields[names[k]]
  {
    if names == [] then [] else FieldTypes(fields, names[..|names| - 1]) + [fields[names[|names| - 1]]]
  }

  /** The total size of a run of layouts. */
  function SizeSum(ls: seq<Layout>): nat
  {
    if ls == [] then 0 else SizeSum(ls[..|ls| - 1]) + ls[|ls| - 1].size
  }

  /** Layouts placed one after the other: each starts where the one before it ends. */
  function Packed(ls: seq<Layout>): (ps: seq<Layout>)
    ensures |ps| == |ls|
    ensures forall i :: 0 <= i < |ls| ==> ps[i] == ls[i].(offset := SizeSum(ls[..i]))
  {
    if ls == [] then []
    else
      var n := |ls| - 1;
      assert ls[..n][..n] == ls[..n];
      assert forall i :: 0 <= i < n ==> ls[..n][..i] == ls[..i];
      Packed(ls[..n]) + [ls[n].(offset := SizeSum(ls[..n]))]
  }

  /** The layout of a tuple (or struct) whose fields have the layouts `ls`. */
  function TupleOf(ls: seq<Layout>): Layout
  {
    Layout(TupleLayout(|ls|, Packed(ls)), SizeSum(ls), 0, 3)
  }

  /** `get_layout` of a type whose resolved unification variables have been substituted. */
  function LayoutOf(st: SymTable, lw: Lowering, t: Type, fuel: nat): (r: Laid<Layout>)
    requires OrdersOk(st, lw)
    ensures r.Done? ==> r.value.offset == 0 && r.value.align == 3
    decreases fuel, t, 1, 0
  {
    if t.Unknown? || t.UVar? || t.NumericUVar? then Stopped(OpenType)
    else if t.Var? || t.NamedVar? || t.TypeApp? then NamedLayout(st, lw, t, fuel)
    else if t.Tuple? then
      match ItemLayouts(st, lw, t, 0, fuel)
      case Stopped(why) => Stopped(why)
      case Done(ls) => Done(TupleOf(ls))
    else if t.Array? then
      match LayoutOf(st, lw, t.elem, fuel)
      case Stopped(why) => Stopped(why)
      case Done(l) => Done(Layout(ArrayLayout(l, t.size), 0, 0, 3))
    else Done(Layout(Simple(Tusize), 8, 0, 3))
  }

  /** The layout of a type named by a type variable: a builtin with a size is a machine value;
      otherwise a struct is laid out as the tuple of its fields. */
  function NamedLayout(st: SymTable, lw: Lowering, t: Type, fuel: nat): (r: Laid<Layout>)
    requires OrdersOk(st, lw) && (t.Var? || t.NamedVar? || t.TypeApp?)
    ensures r.Done? ==> r.value.offset == 0 && r.value.align == 3
    decreases fuel, t, 0, 0
  {
    var tv := t.tvar;
    match BuiltinSize(lw.o, tv)
    case Some(s) =>
      if tv.id in lw.mirTypes then Done(Layout(Simple(lw.mirTypes[tv.id]), s, 0, 3)) else Stopped(UnwrapNone)
    case None =>
      if tv !in st.tvarMap then Stopped(UnwrapNone)
      else
        match st.tvarMap[tv].kind
        case BuiltinKind => Stopped(Todo)
        case EnumKind(_) => Stopped(Todo)
        case StructKind(fields) =>
          if fuel == 0 then Stopped(Depth)
          else
            match ItemLayouts(st, lw, Tuple(FieldTypes(fields, lw.fieldOrder[tv])), 0, fuel - 1)
            case Stopped(why) => Stopped(why)
            case Done(ls) => Done(TupleOf(ls))
  }

  /** The layouts of the items of `parent` from index `i` on, or the first panic among them. */
  function ItemLayouts(st: SymTable, lw: Lowering, parent: Type, i: nat, fuel: nat): (r: Laid<seq<Layout>>)
    requires OrdersOk(st, lw) && parent.Tuple? && i <= |parent.items|
    ensures r.Done? ==> |r.value| == |parent.items| - i
    decreases fuel, parent, 0, |parent.items| - i
  {
    if i == |parent.items| then Done([])
    else
      match LayoutOf(st, lw, parent.items[i], fuel)
      case Stopped(why) => Stopped(why)
      case Done(l) =>
        match ItemLayouts(st, lw, parent, i + 1, fuel)
        case Stopped(why) => Stopped(why)
        case Done(ls) => Done([l] + ls)
  }

  /** `done` followed by the layouts in `rest`, or the panic of `rest`. */
  function After(done: seq<Layout>, rest: Laid<seq<Layout>>): Laid<seq<Layout>>
  {
    match rest
    case Stopped(why) => Stopped(why)
    case Done(ls) => Done(done + ls)
  }

  /** The layout of a tuple with the given items, or the first panic among them. */
  function TupleLayoutOf(items: Laid<seq<Layout>>): Laid<Layout>
  {
    match items
    case Stopped(why) => Stopped(why)
    case Done(ls) => Done(TupleOf(ls))
  }

  /** `get_layout`. */
  method GetLayout(st: SymTable, lw: Lowering, t: Type, fuel: nat) returns (r: Laid<Layout>)
    requires OrdersOk(st, lw)
    ensures r == LayoutOf(st, lw, t, fuel)
    decreases fuel, t, 1, 0
  {
    if t.Unknown? || t.UVar? || t.NumericUVar? {
      return Stopped(OpenType);
    } else if t.Var? || t.NamedVar? || t.TypeApp? {
      r := GetNamedLayout(st, lw, t, fuel);
    } else if t.Tuple? {
      r := PackItems(st, lw, t, fuel);
    } else if t.Array? {
      var elem := GetLayout(st, lw, t.elem, fuel);
      if elem.Stopped? {
        return Stopped(elem.why);
      }
      return Done(Layout(ArrayLayout(elem.value, t.size), 0, 0, 3));
    } else {
      return Done(Layout(Simple(Tusize), 8, 0, 3));
    }
  }

  /** The arm of `get_layout` for a type named by a type variable. */
  method GetNamedLayout(st: SymTable, lw: Lowering, t: Type, fuel: nat) returns (r: Laid<Layout>)
    requires OrdersOk(st, lw) && (t.Var? || t.NamedVar? || t.TypeApp?)
    ensures r == NamedLayout(st, lw, t, fuel)
    decreases fuel, t, 0, 0
  {
    var tv := t.tvar;
    var size := BuiltinSize(lw.o, tv);
    if size.Some? {
      if tv.id !in lw.mirTypes {
        return Stopped(UnwrapNone);
      }
      return Done(Layout(Simple(lw.mirTypes[tv.id]), size.value, 0, 3));
    }
    if tv !in st.tvarMap {
      return Stopped(UnwrapNone);
    }
    var kind := st.tvarMap[tv].kind;
    if !kind.StructKind? {
      return Stopped(Todo);
    }
    if fuel == 0 {
      return Stopped(Depth);
    }
    r := PackItems(st, lw, Tuple(FieldTypes(kind.fields, lw.fieldOrder[tv])), fuel - 1);
  }

  /** The loop of `get_layout` over the items of a tuple (or the fields of a struct): each
      field's layout is moved to the running offset, which then grows by its size. */
  method PackItems(st: SymTable, lw: Lowering, parent: Type, fuel: nat) returns (r: Laid<Layout>)
    requires OrdersOk(st, lw) && parent.Tuple?
    ensures r == TupleLayoutOf(ItemLayouts(st, lw, parent, 0, fuel))
    decreases fuel, parent, 0, |parent.items| + 1
  {
    var id := 0;
    var fields := [];
    var offset := 0;
    ghost var done := [];
    ghost var all := ItemLayouts(st, lw, parent, 0, fuel);
    assert all.Done? ==> [] + all.value == all.value;
    while id < |parent.items|
      invariant id <= |parent.items| && |done| == id
      invariant fields == Packed(done) && offset == SizeSum(done)
      invariant ItemLayouts(st, lw, parent, 0, fuel) == After(done, ItemLayouts(st, lw, parent, id, fuel))
      decreases |parent.items| - id
    {
      var layout := GetLayout(st, lw, parent.items[id], fuel);
      if layout.Stopped? {
        return Stopped(layout.why);
      }
      assert (done + [layout.value])[..id] == done;
      ghost var rest := ItemLayouts(st, lw, parent, id + 1, fuel);
      assert ItemLayouts(st, lw, parent, id, fuel) == After([layout.value], rest);
      assert rest.Done? ==> done + ([layout.value] + rest.value) == (done + [layout.value]) + rest.value;
      fields := fields + [layout.value.(offset := offset)];
      offset := offset + layout.value.size;
      done := done + [layout.value];
      id := id + 1;
    }
    assert done + [] == done;
    return Done(Layout(TupleLayout(id, fields), offset, 0, 3));
  }

  /** Moving layouts leaves their sizes, so packing keeps every prefix's total size. */
  lemma {:induction false} SizeSumPacked(ls: seq<Layout>, i: nat)
    requires i <= |ls|
    ensures SizeSum(Packed(ls)[..i]) == SizeSum(ls[..i])
    decreases i
  {
    if i > 0 {
      assert Packed(ls)[..i][..i - 1] == Packed(ls)[..i - 1];
      assert ls[..i][..i - 1] == ls[..i - 1];
      SizeSumPacked(ls, i - 1);
    }
  }

  /** A laid-out aggregate is consistent all the way down: a tuple counts its fields, each
      field starts where the previous one ends, the tuple is as large as its fields together,
      and an array reports size 0. */
  ghost predicate WellPacked(l: Layout)
    decreases l
  {
    match l.layout
    case Simple(_) => true
    case ArrayLayout(e, _) => l.size == 0 && WellPacked(e)
    case TupleLayout(n, fs) =>
      && n == |fs|
      && l.size == SizeSum(fs)
      && (forall i :: 0 <= i < |fs| ==> fs[i].offset == SizeSum(fs[..i]))
      && (forall i :: 0 <= i < |fs| ==> WellPacked(fs[i]))
  }

  /** Only the offset changed: the rest of the layout is still well packed. */
  lemma {:induction false} WellPackedMoved(l: Layout, off: nat)
    requires WellPacked(l)
    ensures WellPacked(l.(offset := off))
  {
  }

  /** Tuple layouts built from well-packed fields are well packed. */
  lemma {:induction false} TupleOfWellPacked(ls: seq<Layout>)
    requires forall i :: 0 <= i < |ls| ==> WellPacked(ls[i])
    ensures WellPacked(TupleOf(ls))
  {
    var fs := Packed(ls);
    SizeSumPacked(ls, |ls|);
    assert fs[..|ls|] == fs && ls[..|ls|] == ls;
    forall i | 0 <= i < |fs|
      ensures fs[i].offset == SizeSum(fs[..i]) && WellPacked(fs[i])
    {
      SizeSumPacked(ls, i);
      WellPackedMoved(ls[i], SizeSum(ls[..i]));
    }
  }

  /** Every layout `get_layout` returns is well packed. */
  lemma {:induction false} LayoutWellPacked(st: SymTable, lw: Lowering, t: Type, fuel: nat)
    requires OrdersOk(st, lw) && LayoutOf(st, lw, t, fuel).Done?
    ensures WellPacked(LayoutOf(st, lw, t, fuel).value)
    decreases fuel, t, 1, 0
  {
    if t.Var? || t.NamedVar? || t.TypeApp? {
      var tv := t.tvar;
      if BuiltinSize(lw.o, tv).None? {
        var fields := st.tvarMap[tv].kind.fields;
        var ls := ItemLayouts(st, lw, Tuple(FieldTypes(fields, lw.fieldOrder[tv])), 0, fuel - 1).value;
        ItemsWellPacked(st, lw, Tuple(FieldTypes(fields, lw.fieldOrder[tv])), 0, fuel - 1);
        TupleOfWellPacked(ls);
      }
    } else if t.Tuple? {
      ItemsWellPacked(st, lw, t, 0, fuel);
      TupleOfWellPacked(ItemLayouts(st, lw, t, 0, fuel).value);
    } else if t.Array? {
      LayoutWellPacked(st, lw, t.elem, fuel);
    }
  }

  /** The item layouts of a tuple are well packed. */
  lemma {:induction false} ItemsWellPacked(st: SymTable, lw: Lowering, parent: Type, i: nat, fuel: nat)
    requires OrdersOk(st, lw) && parent.Tuple? && i <= |parent.items|
    requires ItemLayouts(st, lw, parent, i, fuel).Done?
    ensures forall k :: 0 <= k < |parent.items| - i ==> WellPacked(ItemLayouts(st, lw, parent, i, fuel).value[k])
    decreases fuel, parent, 0, |parent.items| - i
  {
    if i < |parent.items| {
      LayoutWellPacked(st, lw, parent.items[i], fuel);
      ItemsWellPacked(st, lw, parent, i + 1, fuel);
    }
  }

  /** The item layouts are those of the items, one by one, and they fail exactly when one
      item fails, with the panic of the first item that does. */
  lemma {:induction false} ItemLayoutsAre(st: SymTable, lw: Lowering, parent: Type, i: nat, fuel: nat)
    requires OrdersOk(st, lw) && parent.Tuple? && i <= |parent.items|
    ensures ItemLayouts(st, lw, parent, i, fuel).Done? <==>
              forall k :: i <= k < |parent.items| ==> LayoutOf(st, lw, parent.items[k], fuel).Done?
    ensures ItemLayouts(st, lw, parent, i, fuel).Done? ==>
              forall k :: i <= k < |parent.items| ==>
                ItemLayouts(st, lw, parent, i, fuel).value[k - i] == LayoutOf(st, lw, parent.items[k], fuel).value
    ensures ItemLayouts(st, lw, parent, i, fuel).Stopped? ==>
              exists k :: i <= k < |parent.items| &&
                LayoutOf(st, lw, parent.items[k], fuel) == Stopped(ItemLayouts(st, lw, parent, i, fuel).why) &&
                forall j :: i <= j < k ==> LayoutOf(st, lw, parent.items[j], fuel).Done?
    decreases |parent.items| - i
  {
    if i < |parent.items| {
      ItemLayoutsAre(st, lw, parent, i + 1, fuel);
      if LayoutOf(st, lw, parent.items[i], fuel).Done? && ItemLayouts(st, lw, parent, i + 1, fuel).Stopped? {
        var k :| i + 1 <= k < |parent.items| &&
                 LayoutOf(st, lw, parent.items[k], fuel) == Stopped(ItemLayouts(st, lw, parent, i + 1, fuel).why) &&
                 forall j :: i + 1 <= j < k ==> LayoutOf(st, lw, parent.items[j], fuel).Done?;
        assert forall j :: i <= j < k ==> LayoutOf(st, lw, parent.items[j], fuel).Done?;
      }
    }
  }

  /** A tuple layout places item `i` at the sum of the sizes of the items before it, counts
      the items, and is as large as all of them together; it exists exactly when every item
      has a layout. */
  lemma TupleLayoutIs(st: SymTable, lw: Lowering, items: seq<Type>, fuel: nat)
    requires OrdersOk(st, lw)
    ensures LayoutOf(st, lw, Tuple(items), fuel).Done? <==>
              forall k :: 0 <= k < |items| ==> LayoutOf(st, lw, items[k], fuel).Done?
    ensures LayoutOf(st, lw, Tuple(items), fuel).Done? ==>
              var l := LayoutOf(st, lw, Tuple(items), fuel).value;
              && l.layout.TupleLayout?
              && l.layout.fieldCount == |l.layout.fields| == |items|
              && l.size == SizeSum(l.layout.fields)
              && forall k :: 0 <= k < |items| ==>
                   l.layout.fields[k] == LayoutOf(st, lw, items[k], fuel).value.(offset := SizeSum(l.layout.fields[..k]))
  {
    var t := Tuple(items);
    ItemLayoutsAre(st, lw, t, 0, fuel);
    if LayoutOf(st, lw, t, fuel).Done? {
      var ls := ItemLayouts(st, lw, t, 0, fuel).value;
      TupleOfShape(ls);
    }
  }

  /** The layout of a tuple of layouts `ls` counts them, places each at the sum of the sizes
      of the placed ones before it, and is as large as all of them together. */
  lemma TupleOfShape(ls: seq<Layout>)
    ensures var l := TupleOf(ls);
            && l.layout.TupleLayout?
            && l.layout.fieldCount == |l.layout.fields| == |ls|
            && l.size == SizeSum(l.layout.fields)
            && forall k :: 0 <= k < |ls| ==> l.layout.fields[k] == ls[k].(offset := SizeSum(l.layout.fields[..k]))
  {
    SizeSumPacked(ls, |ls|);
    assert Packed(ls)[..|ls|] == Packed(ls) && ls[..|ls|] == ls;
    forall k | 0 <= k < |ls|
      ensures Packed(ls)[k] == ls[k].(offset := SizeSum(Packed(ls)[..k]))
    {
      SizeSumPacked(ls, k);
    }
  }

  /** A struct with no builtin size is laid out as the tuple of its field types, taken in the
      field map's visiting order, one level of fuel down; it has one field per entry of the
      map. */
  lemma StructIsTuple(st: SymTable, lw: Lowering, t: Type, fuel: nat)
    requires OrdersOk(st, lw) && (t.Var? || t.NamedVar? || t.TypeApp?) && fuel > 0
    requires BuiltinSize(lw.o, t.tvar).None? && t.tvar in st.tvarMap && st.tvarMap[t.tvar].kind.StructKind?
    ensures var fields := st.tvarMap[t.tvar].kind.fields;
            && LayoutOf(st, lw, t, fuel) == LayoutOf(st, lw, Tuple(FieldTypes(fields, lw.fieldOrder[t.tvar])), fuel - 1)
            && |lw.fieldOrder[t.tvar]| == |fields|
  {
    var fields := st.tvarMap[t.tvar].kind.fields;
    DistinctListing(lw.fieldOrder[t.tvar], fields.Keys);
  }

  /** A duplicate-free listing of exactly the elements of a set is as long as the set is large. */
  lemma {:induction false} DistinctListing(names: seq<string>, keys: set<string>)
    requires forall k :: 0 <= k < |names| ==> names[k] in keys
    requires forall f :: f in keys ==> f in names
    requires forall j, k :: 0 <= j < k < |names| ==> names[j] != names[k]
    ensures |names| == |keys|
    decreases |names|
  {
    if names != [] {
      var last := names[|names| - 1];
      var front := names[..|names| - 1];
      assert forall f :: f in keys - {last} ==> f in front by {
        forall f | f in keys - {last}
          ensures f in front
        {
          var k :| 0 <= k < |names| && names[k] == f;
          assert front[k] == f;
        }
      }
      DistinctListing(front, keys - {last});
    }
  }

  /** The fixed shapes: an open type panics; an array records its length and its element's
      layout but has size 0; a function or pointer is a machine word of 8 bytes. */
  lemma FixedShapes(st: SymTable, lw: Lowering, n: nat, e: Type, args: seq<Type>, ret: Type, node: nat, fuel: nat)
    requires OrdersOk(st, lw)
    ensures LayoutOf(st, lw, Type.Unknown, fuel) == Stopped(OpenType)
    ensures LayoutOf(st, lw, UVar(node), fuel) == Stopped(OpenType)
    ensures LayoutOf(st, lw, NumericUVar(node), fuel) == Stopped(OpenType)
    ensures LayoutOf(st, lw, Array(n, e), fuel).Done? <==> LayoutOf(st, lw, e, fuel).Done?
    ensures LayoutOf(st, lw, Array(n, e), fuel).Done? ==>
              LayoutOf(st, lw, Array(n, e), fuel).value ==
                Layout(ArrayLayout(LayoutOf(st, lw, e, fuel).value, n), 0, 0, 3)
    ensures LayoutOf(st, lw, Fun(args, ret), fuel) == Done(Layout(Simple(Tusize), 8, 0, 3))
    ensures LayoutOf(st, lw, Ptr(e), fuel) == Done(Layout(Simple(Tusize), 8, 0, 3))
    ensures LayoutOf(st, lw, MutPtr(e), fuel) == Done(Layout(Simple(Tusize), 8, 0, 3))
  {
  }

  /** The hidden argument through which an aggregate result is written. */
  const RET_VAR: string := "__ret_var"

  /** The lowered signature: arguments as (id, mutable, machine type), the machine types
      returned in registers, and the variables that live in memory. */
  datatype Signature = Signature(args: seq<(VarID, bool, Prim)>, results: seq<Prim>, needsStack: map<VarID, bool>)

  /** The machine type an argument is passed as: its own when simple, else its address. */
  function ArgType(l: Layout): (p: Prim)
    ensures !RequireStack(l) ==> p == l.layout.tp
    ensures RequireStack(l) ==> p == Tusize
  {
    if l.layout.Simple? then l.layout.tp else Tusize
  }

  /** The types of the parameters, followed by the return type. */
  function SignatureTypes(params: seq<(string, bool, Type)>, ret: Type): (r: seq<Type>)
    ensures |r| == |params| + 1 && r[|params|] == ret
    ensures forall k :: 0 <= k < |params| ==> r[k] == params[k].2
  {
    if params == [] then [ret] else [params[0].2] + SignatureTypes(params[1..], ret)
  }

  /** The layouts `get_layout` gives the parameters and then the return type, or the first
      panic among them. */
  function SignatureLayouts(st: SymTable, lw: Lowering, params: seq<(string, bool, Type)>, ret: Type, fuel: nat): Laid<seq<Layout>>
    requires OrdersOk(st, lw)
  {
    ItemLayouts(st, lw, Tuple(SignatureTypes(params, ret)), 0, fuel)
  }

  /** Argument `k` of the first `n` keeps the parameter's mutability, is passed as its
      `ArgType`, and is marked as needing the stack exactly when its layout requires it. */
  ghost predicate ArgsLowered(args: seq<(VarID, bool, Prim)>, params: seq<(string, bool, Type)>, ls: seq<Layout>,
                              needs: map<VarID, bool>, n: nat)
  {
    n <= |args| && n <= |params| && n <= |ls| &&
    forall k :: 0 <= k < n ==>
      && args[k].1 == params[k].1
      && args[k].2 == ArgType(ls[k])
      && (args[k].0 in needs <==> RequireStack(ls[k]))
  }

  /** No id appears twice, every id is new, and only arguments are marked, always as true. */
  ghost predicate IdsFresh(args: seq<(VarID, bool, Prim)>, needs: map<VarID, bool>, before: set<VarID>, now: set<VarID>)
  {
    && (forall j, k :: 0 <= j < k < |args| ==> args[j].0 != args[k].0)
    && (forall k :: 0 <= k < |args| ==> args[k].0 !in before && args[k].0 in now)
    && (forall v :: v in needs ==> needs[v] && exists k :: 0 <= k < |args| && args[k].0 == v)
  }

  /** Each of the first `n` parameters whose name is neither reused later nor in `shadowed`
      is bound to its id. */
  ghost predicate NamesBound(vars: map<string, VarID>, args: seq<(VarID, bool, Prim)>, params: seq<(string, bool, Type)>,
                             n: nat, shadowed: set<string>)
    requires n <= |args| && n <= |params|
  {
    forall k :: 0 <= k < n ==> BoundAt(vars, args, params, n, shadowed, k)
  }

  /** Parameter `k` of the first `n`, when its name is neither reused later nor in `shadowed`,
      is bound to its id. */
  ghost predicate BoundAt(vars: map<string, VarID>, args: seq<(VarID, bool, Prim)>, params: seq<(string, bool, Type)>,
                          n: nat, shadowed: set<string>, k: nat)
    requires k < n <= |args| && n <= |params|
  {
    params[k].0 !in shadowed && (forall j :: k < j < n ==> params[j].0 != params[k].0) ==>
      params[k].0 in vars && vars[params[k].0] == args[k].0
  }

  /** The signature part of `tr_func`: each parameter gets a new variable; an aggregate
      parameter is passed by address and marked as living on the stack. An aggregate result
      adds a hidden last argument through which it is written; a simple one is returned in a
      register. Any parameter or result without a layout panics with the first such panic. */
  method LowerSignature(st: SymTable, lw: Lowering, env: Env, params: seq<(string, bool, Type)>, ret: Type, fuel: nat)
    returns (r: Laid<Signature>)
    requires OrdersOk(st, lw) && env.Valid()
    modifies env, env.varGen
    ensures env.Valid()
    ensures r.Stopped? <==> SignatureLayouts(st, lw, params, ret, fuel).Stopped?
    ensures r.Stopped? ==> r.why == SignatureLayouts(st, lw, params, ret, fuel).why
    ensures r.Done? ==>
              var ls := SignatureLayouts(st, lw, params, ret, fuel).value;
              var n := |params|;
              && ArgsLowered(r.value.args, params, ls, r.value.needsStack, n)
              && IdsFresh(r.value.args, r.value.needsStack, old(env.varGen.issued), env.varGen.issued)
              && (RequireStack(ls[n]) ==>
                    && |r.value.args| == n + 1 && r.value.results == []
                    && r.value.args[n].1 == false && r.value.args[n].2 == Tusize
                    && r.value.args[n].0 in r.value.needsStack
                    && RET_VAR in env.vars && env.vars[RET_VAR] == r.value.args[n].0
                    && NamesBound(env.vars, r.value.args, params, n, {RET_VAR}))
              && (!RequireStack(ls[n]) ==>
                    && |r.value.args| == n && r.value.results == [ls[n].layout.tp]
                    && NamesBound(env.vars, r.value.args, params, n, {}))
  {
    var ls := ItemLayoutsOf(st, lw, Tuple(SignatureTypes(params, ret)), fuel);
    if ls.Stopped? {
      return Stopped(ls.why);
    }
    ghost var before := env.varGen.issued;
    var args, needs := BindParams(env, params, ls.value[..|params|]);
    var rl := ls.value[|params|];
    var results := [];
    if RequireStack(rl) {
      ghost var issued := env.varGen.issued;
      ghost var vars := env.vars;
      var id := env.AddVar(RET_VAR);
      RetStep(args, params, ls.value[..|params|], needs, vars, id, before, issued);
      needs := needs[id := true];
      args := args + [(id, false, Tusize)];
    } else {
      results := [rl.layout.tp];
    }
    r := Done(Signature(args, results, needs));
  }

  /** The layouts of the items of a tuple, in order, stopping at the first panic. */
  method ItemLayoutsOf(st: SymTable, lw: Lowering, parent: Type, fuel: nat) returns (r: Laid<seq<Layout>>)
    requires OrdersOk(st, lw) && parent.Tuple?
    ensures r == ItemLayouts(st, lw, parent, 0, fuel)
  {
    ghost var all := ItemLayouts(st, lw, parent, 0, fuel);
    assert all.Done? ==> [] + all.value == all.value;
    var done := [];
    var i := 0;
    while i < |parent.items|
      invariant i <= |parent.items| && |done| == i
      invariant all == After(done, ItemLayouts(st, lw, parent, i, fuel))
      decreases |parent.items| - i
    {
      var layout := GetLayout(st, lw, parent.items[i], fuel);
      if layout.Stopped? {
        return Stopped(layout.why);
      }
      ItemsStep(st, lw, parent, i, fuel, done, layout.value);
      done := done + [layout.value];
      i := i + 1;
    }
    assert done + [] == done;
    r := Done(done);
  }

  /** The loop of `tr_func` over the parameters, given their layouts: each gets a new
      variable bound to its name. */
  method BindParams(env: Env, params: seq<(string, bool, Type)>, ls: seq<Layout>)
    returns (args: seq<(VarID, bool, Prim)>, needs: map<VarID, bool>)
    requires env.Valid() && |ls| == |params|
    modifies env, env.varGen
    ensures env.Valid() && old(env.varGen.issued) <= env.varGen.issued
    ensures |args| == |params|
    ensures ArgsLowered(args, params, ls, needs, |params|)
    ensures IdsFresh(args, needs, old(env.varGen.issued), env.varGen.issued)
    ensures NamesBound(env.vars, args, params, |params|, {})
  {
    ghost var before := env.varGen.issued;
    args := [];
    needs := map[];
    var i := 0;
    while i < |params|
      invariant i <= |params| && |args| == i
      invariant env.Valid() && before <= env.varGen.issued
      invariant ArgsLowered(args, params, ls, needs, i)
      invariant IdsFresh(args, needs, before, env.varGen.issued)
      invariant NamesBound(env.vars, args, params, i, {})
      decreases |params| - i
    {
      ghost var issued := env.varGen.issued;
      ghost var vars := env.vars;
      var id := env.AddVar(params[i].0);
      var needs' := if RequireStack(ls[i]) then needs[id := true] else needs;
      var arg := (id, params[i].1, ArgType(ls[i]));
      ArgsStep(args, params, ls, needs, needs', arg, before, issued);
      IdsStep(args, needs, needs', arg, before, issued);
      NamesStep(vars, args, params, arg);
      args, needs := args + [arg], needs';
      i := i + 1;
    }
  }

  /** One more item layout moves from the rest to what is done. */
  lemma ItemsStep(st: SymTable, lw: Lowering, parent: Type, i: nat, fuel: nat, done: seq<Layout>, l: Layout)
    requires OrdersOk(st, lw) && parent.Tuple? && i < |parent.items|
    requires LayoutOf(st, lw, parent.items[i], fuel) == Done(l)
    ensures After(done, ItemLayouts(st, lw, parent, i, fuel)) == After(done + [l], ItemLayouts(st, lw, parent, i + 1, fuel))
  {
    var rest := ItemLayouts(st, lw, parent, i + 1, fuel);
    assert rest.Done? ==> done + ([l] + rest.value) == (done + [l]) + rest.value;
  }

  /** Lowering one more parameter keeps `ArgsLowered`. */
  lemma ArgsStep(args: seq<(VarID, bool, Prim)>, params: seq<(string, bool, Type)>, ls: seq<Layout>,
                 needs: map<VarID, bool>, needs': map<VarID, bool>, arg: (VarID, bool, Prim),
                 before: set<VarID>, issued: set<VarID>)
    requires ArgsLowered(args, params, ls, needs, |args|)
    requires |args| < |params| == |ls|
    requires IdsFresh(args, needs, before, issued)
    requires arg.0 !in issued
    requires arg == (arg.0, params[|args|].1, ArgType(ls[|args|]))
    requires needs' == if RequireStack(ls[|args|]) then needs[arg.0 := true] else needs
    ensures ArgsLowered(args + [arg], params, ls, needs', |args| + 1)
  {
    assert forall k :: 0 <= k < |args| ==> args[k].0 != arg.0;
  }

  /** Adding the hidden result argument after the parameters keeps what holds of them, except
      that a parameter named like the hidden argument is no longer bound. */
  lemma RetStep(args: seq<(VarID, bool, Prim)>, params: seq<(string, bool, Type)>, ls: seq<Layout>,
                needs: map<VarID, bool>, vars: map<string, VarID>, id: VarID, before: set<VarID>, issued: set<VarID>)
    requires |args| == |params| && ArgsLowered(args, params, ls, needs, |params|)
    requires NamesBound(vars, args, params, |params|, {})
    requires IdsFresh(args, needs, before, issued) && id !in issued && before <= issued
    ensures ArgsLowered(args + [(id, false, Tusize)], params, ls, needs[id := true], |params|)
    ensures NamesBound(vars[RET_VAR := id], args + [(id, false, Tusize)], params, |params|, {RET_VAR})
    ensures IdsFresh(args + [(id, false, Tusize)], needs[id := true], before, issued + {id})
  {
    forall k | 0 <= k < |args|
      ensures args[k].0 != id
    {
      assert args[k].0 in issued;
    }
    RetArgs(args, params, ls, needs, id);
    RetNames(vars, args, params, id);
    IdsStep(args, needs, needs[id := true], (id, false, Tusize), before, issued);
  }

  /** The hidden argument, marked as living on the stack, disturbs no parameter's marking. */
  lemma RetArgs(args: seq<(VarID, bool, Prim)>, params: seq<(string, bool, Type)>, ls: seq<Layout>,
                needs: map<VarID, bool>, id: VarID)
    requires |args| == |params| && ArgsLowered(args, params, ls, needs, |params|)
    requires forall k :: 0 <= k < |args| ==> args[k].0 != id
    ensures ArgsLowered(args + [(id, false, Tusize)], params, ls, needs[id := true], |params|)
  {
    var args' := args + [(id, false, Tusize)];
    forall k | 0 <= k < |params|
      ensures args'[k] == args[k]
    {
    }
  }

  /** Binding the hidden argument's name leaves every other parameter name bound as before. */
  lemma RetNames(vars: map<string, VarID>, args: seq<(VarID, bool, Prim)>, params: seq<(string, bool, Type)>, id: VarID)
    requires |args| == |params| && NamesBound(vars, args, params, |params|, {})
    ensures NamesBound(vars[RET_VAR := id], args + [(id, false, Tusize)], params, |params|, {RET_VAR})
  {
    var args', vars', n, shadowed := args + [(id, false, Tusize)], vars[RET_VAR := id], |params|, {RET_VAR};
    forall k | 0 <= k < n
      ensures BoundAt(vars', args', params, n, shadowed, k)
    {
      assert BoundAt(vars, args, params, |params|, {}, k);
      if params[k].0 != RET_VAR && (forall j :: k < j < |params| ==> params[j].0 != params[k].0) {
        RetNameKept(vars, args, params, id, k);
      }
    }
  }

  /** One parameter name of `RetNames`, other than the hidden argument's. */
  lemma RetNameKept(vars: map<string, VarID>, args: seq<(VarID, bool, Prim)>, params: seq<(string, bool, Type)>,
                    id: VarID, k: nat)
    requires |args| == |params| && k < |params| && params[k].0 != RET_VAR
    requires params[k].0 in vars && vars[params[k].0] == args[k].0
    ensures params[k].0 in vars[RET_VAR := id] && vars[RET_VAR := id][params[k].0] == (args + [(id, false, Tusize)])[k].0
  {
  }

  /** A new id keeps the arguments' ids distinct and new. */
  lemma IdsStep(args: seq<(VarID, bool, Prim)>, needs: map<VarID, bool>, needs': map<VarID, bool>,
                arg: (VarID, bool, Prim), before: set<VarID>, issued: set<VarID>)
    requires IdsFresh(args, needs, before, issued) && arg.0 !in issued && before <= issued
    requires needs' == needs || needs' == needs[arg.0 := true]
    ensures IdsFresh(args + [arg], needs', before, issued + {arg.0})
  {
    var args' := args + [arg];
    forall v | v in needs'
      ensures needs'[v] && exists k :: 0 <= k < |args'| && args'[k].0 == v
    {
      if v == arg.0 {
        assert args'[|args|].0 == v;
      } else {
        var k :| 0 <= k < |args| && args[k].0 == v;
        assert args'[k].0 == v;
      }
    }
  }

  /** Binding the next parameter's name keeps every earlier, not rebound name bound. */
  lemma NamesStep(vars: map<string, VarID>, args: seq<(VarID, bool, Prim)>, params: seq<(string, bool, Type)>,
                  arg: (VarID, bool, Prim))
    requires |args| < |params| && NamesBound(vars, args, params, |args|, {})
    ensures NamesBound(vars[params[|args|].0 := arg.0], args + [arg], params, |args| + 1, {})
  {
    var n := |args|;
    var vars', args', n', none := vars[params[n].0 := arg.0], args + [arg], n + 1, {};
    forall k | 0 <= k < n'
      ensures BoundAt(vars', args', params, n', none, k)
    {
      if k < n {
        assert BoundAt(vars, args, params, n, {}, k);
        assert (args + [arg])[k] == args[k];
      } else {
        assert (args + [arg])[n] == arg;
      }
    }
  }
}
