/** The C rendering of the code generator (src/codegen/emit.rs): declarators of types with a
    name (`Type::with_name`) and the `Display` impls of type variables, node ids, variable
    references, values and statements. Writing to the output stream is left out; every
    rendering is a function returning its text. */
module Emit {
  import opened Wrappers
  import opened TVars
  import opened NodeIds
  import opened Types
  import opened UVars
  import opened TypeOps
  import opened VarIds
  import opened CodegenAst

  predicate IsDigit(c: char)
  {
    '0' <= c <= '9'
  }

  function Digit(d: nat): (c: char)
    requires d < 10
    ensures IsDigit(c) && DigitValue(c) == d
  {
    ['0', '1', '2', '3', '4', '5', '6', '7', '8', '9'][d]
  }

  function DigitValue(c: char): nat
    requires IsDigit(c)
  {
    c as int - '0' as int
  }

  /** `{}` of an unsigned number: its decimal digits, most significant first, without
      leading zeros. */
  function ShowNat(n: nat): (s: string)
    ensures |s| >= 1 && forall i :: 0 <= i < |s| ==> IsDigit(s[i])
    ensures |s| > 1 ==> s[0] != '0'
  {
    if n < 10 then [Digit(n)] else ShowNat(n / 10) + [Digit(n % 10)]
  }

  /** The number a string of decimal digits stands for. */
  function ReadNat(s: string): nat
    requires forall i :: 0 <= i < |s| ==> IsDigit(s[i])
  {
    if s == [] then 0 else ReadNat(s[..|s| - 1]) * 10 + DigitValue(s[|s| - 1])
  }

  /** Reading the printed digits back gives the number. */
  lemma {:induction false} ReadShowNat(n: nat)
    ensures ReadNat(ShowNat(n)) == n
  {
    if n >= 10 {
      var s := ShowNat(n);
      assert s[..|s| - 1] == ShowNat(n / 10);
      ReadShowNat(n / 10);
    }
  }

  lemma ShowNatInjective(a: nat, b: nat)
    ensures ShowNat(a) == ShowNat(b) <==> a == b
  {
    ReadShowNat(a);
    ReadShowNat(b);
  }

  /** Decimal digits only. */
  predicate AllDigits(s: string)
  {
    forall i :: 0 <= i < |s| ==> IsDigit(s[i])
  }

  /** `Display for TVar`: "tv_" and the id in decimal. */
  function ShowTVar(tv: TVar): (s: string)
    ensures |s| > 3 && s[..3] == "tv_" && AllDigits(s[3..]) && ReadNat(s[3..]) == tv.id
  {
    ReadShowNat(tv.id);
    var s := "tv_" + ShowNat(tv.id);
    assert s[3..] == ShowNat(tv.id);
    s
  }

  /** `Display for NodeID`: "id_" and the id in decimal. */
  function ShowNodeId(n: NodeID): (s: string)
    ensures |s| > 3 && s[..3] == "id_" && AllDigits(s[3..]) && ReadNat(s[3..]) == n.id
  {
    ReadShowNat(n.id);
    var s := "id_" + ShowNat(n.id);
    assert s[3..] == ShowNat(n.id);
    s
  }

  /** A variable reference shows as its id. The codegen `VarID` has no `Display` impl in the
      source; the model shows its number. */
  function ShowVarRef(v: VarRef): (s: string)
    ensures v.LocalVar? ==> AllDigits(s) && ReadNat(s) == v.id.n
    ensures v.GlobalVar? ==> |s| > 3 && s[..3] == "id_" && AllDigits(s[3..]) && ReadNat(s[3..]) == v.gid.id
  {
    match v
    case LocalVar(id) => ReadShowNat(id.n); ShowNat(id.n)
    case GlobalVar(id) => ShowNodeId(id)
  }

  /** Type variables display alike exactly when their ids are equal, matching equality by id. */
  lemma ShowTVarById(a: TVar, b: TVar)
    ensures ShowTVar(a) == ShowTVar(b) <==> a.id == b.id
  {
    ShowNatInjective(a.id, b.id);
    if ShowTVar(a) == ShowTVar(b) {
      assert ShowTVar(a)[3..] == ShowNat(a.id) && ShowTVar(b)[3..] == ShowNat(b.id);
    }
  }

  /** No two different variable references print alike: a local prints as bare digits, a global
      as "id_" and digits. */
  lemma ShowVarRefInjective(a: VarRef, b: VarRef)
    ensures ShowVarRef(a) == ShowVarRef(b) <==> a == b
  {
    if ShowVarRef(a) == ShowVarRef(b) {
      match a
      case LocalVar(x) =>
        ShowNatInjective(x.n, b.id.n);
      case GlobalVar(x) =>
        assert ShowVarRef(a)[3..] == ShowNat(x.id) && ShowVarRef(b)[3..] == ShowNat(b.gid.id);
        ShowNatInjective(x.id, b.gid.id);
    }
  }

  /** `Type::with_name`: the C declarator of a variable `name` of type `t`, looking at every
      level through `view`. */
  function WithName(ns: seq<UVarData>, ghost g: Ghosts, t: Type, name: string, ghost h: nat): (r: Panicking<string>)
    requires ValidState(ns, g) && Wf(t, g.numeric) && Finite(ns, g, t, h)
    decreases h, 0
  {
    FiniteUnfold(ns, g, t, h);
    WithNameNode(ns, g, ViewIn(ns, g, t), name, h - 1)
  }

  /** The match of `with_name` on a viewed type. */
  function WithNameNode(ns: seq<UVarData>, ghost g: Ghosts, v: Type, name: string, ghost h: nat): (r: Panicking<string>)
    requires ValidState(ns, g) && Wf(v, g.numeric) && FiniteBelow(ns, g, v, h)
    decreases h, 2
  {
    match v
    case Unknown => Panic("invalid type")
    case UVar(_) => Panic("invalid type")
    case NumericUVar(_) => Panic("invalid type")
    case Var(tv) => Value(ShowTVar(tv) + " " + name)
    case NamedVar(tv, _) => Value(ShowTVar(tv) + " " + name)
    case Tuple(items) =>
      (match TupleFields(ns, g, items, h)
       case Panic(why) => Panic(why)
       case Value(fields) => Value("struct {" + fields + "}"))
    case Array(n, e) =>
      (match WithName(ns, g, e, name, h)
       case Panic(why) => Panic(why)
       case Value(s) => Value(s + "[" + ShowNat(n) + "]"))
    case Fun(args, ret) =>
      (match WithName(ns, g, ret, "", h)
       case Panic(why) => Panic(why)
       case Value(rs) =>
         match ArgList(ns, g, args, h)
         case Panic(why) => Panic(why)
         case Value(as_) => Value(rs + "(*" + name + ")(" + as_ + ")"))
    case Ptr(p) => PointerTo(ns, g, p, name, h)
    case MutPtr(p) => PointerTo(ns, g, p, name, h)
    case TypeApp(_, _, _) => Panic("not yet implemented")
  }

  /** The shared arm of `Ptr` and `MutPtr`: the pointee unnamed, then " *" and the name. */
  function PointerTo(ns: seq<UVarData>, ghost g: Ghosts, p: Type, name: string, ghost h: nat): (r: Panicking<string>)
    requires ValidState(ns, g) && Wf(p, g.numeric) && Finite(ns, g, p, h)
    decreases h, 1, 0
  {
    match WithName(ns, g, p, "", h)
    case Panic(why) => Panic(why)
    case Value(s) => Value(s + " *" + name)
  }

  /** The fields of a tuple struct: item `i` named "__i", each followed by ";". */
  function TupleFields(ns: seq<UVarData>, ghost g: Ghosts, ts: seq<Type>, ghost h: nat): (r: Panicking<string>)
    requires ValidState(ns, g) && AllWf(ts, g.numeric) && AllFinite(ns, g, ts, h)
    decreases h, 1, |ts|
  {
    if ts == [] then Value("")
    else
      match TupleFields(ns, g, ts[..|ts| - 1], h)
      case Panic(why) => Panic(why)
      case Value(pre) =>
        match WithName(ns, g, ts[|ts| - 1], "__" + ShowNat(|ts| - 1), h)
        case Panic(why) => Panic(why)
        case Value(s) => Value(pre + s + ";")
  }

  /** The unnamed argument declarators of a function type, joined by ", ". */
  function ArgList(ns: seq<UVarData>, ghost g: Ghosts, ts: seq<Type>, ghost h: nat): (r: Panicking<string>)
    requires ValidState(ns, g) && AllWf(ts, g.numeric) && AllFinite(ns, g, ts, h)
    decreases h, 1, |ts|
  {
    if ts == [] then Value("")
    else
      match ArgList(ns, g, ts[..|ts| - 1], h)
      case Panic(why) => Panic(why)
      case Value(pre) =>
        match WithName(ns, g, ts[|ts| - 1], "", h)
        case Panic(why) => Panic(why)
        case Value(s) => Value(if |ts| == 1 then s else pre + ", " + s)
  }

  /** Where the name goes in the unnamed declarator of `t`, or None when the name is dropped
      (a tuple struct) or the rendering fails. */
  ghost function NameSlot(ns: seq<UVarData>, g: Ghosts, t: Type, h: nat): Option<nat>
    requires ValidState(ns, g) && Wf(t, g.numeric) && Finite(ns, g, t, h)
    decreases h, 0
  {
    FiniteUnfold(ns, g, t, h);
    NameSlotNode(ns, g, ViewIn(ns, g, t), h - 1)
  }

  ghost function NameSlotNode(ns: seq<UVarData>, g: Ghosts, v: Type, h: nat): Option<nat>
    requires ValidState(ns, g) && Wf(v, g.numeric) && FiniteBelow(ns, g, v, h)
    decreases h, 2
  {
    match v
    case Var(tv) => Some(|ShowTVar(tv)| + 1)
    case NamedVar(tv, _) => Some(|ShowTVar(tv)| + 1)
    case Array(_, e) => NameSlot(ns, g, e, h)
    case Fun(_, ret) => if WithName(ns, g, ret, "", h).Value? then Some(|WithName(ns, g, ret, "", h).value| + 2) else None
    case Ptr(p) => if WithName(ns, g, p, "", h).Value? then Some(|WithName(ns, g, p, "", h).value| + 2) else None
    case MutPtr(p) => if WithName(ns, g, p, "", h).Value? then Some(|WithName(ns, g, p, "", h).value| + 2) else None
    case _ => None
  }

  /** The text `r` with `name` inserted at `slot`. */
  function Splice(r: Panicking<string>, slot: Option<nat>, name: string): Panicking<string>
  {
    match r
    case Panic(_) => r
    case Value(s) => if slot.Some? && slot.value <= |s| then Value(s[..slot.value] + name + s[slot.value..]) else r
  }

  /** The declarator of a named variable is the unnamed declarator with the name inserted at
      one place that does not depend on the name, or the unnamed declarator itself when the
      outermost declarator is a tuple struct; whether rendering panics does not depend on the
      name either. */
  lemma {:induction false} WithNameSplices(ns: seq<UVarData>, g: Ghosts, t: Type, name: string, h: nat)
    requires ValidState(ns, g) && Wf(t, g.numeric) && Finite(ns, g, t, h)
    ensures WithName(ns, g, t, name, h) == Splice(WithName(ns, g, t, "", h), NameSlot(ns, g, t, h), name)
    ensures NameSlot(ns, g, t, h).Some? && WithName(ns, g, t, "", h).Value? ==>
      NameSlot(ns, g, t, h).value <= |WithName(ns, g, t, "", h).value|
    decreases h, 0
  {
    FiniteUnfold(ns, g, t, h);
    WithNameNodeSplices(ns, g, ViewIn(ns, g, t), name, h - 1);
  }

  lemma {:induction false} WithNameNodeSplices(ns: seq<UVarData>, g: Ghosts, v: Type, name: string, h: nat)
    requires ValidState(ns, g) && Wf(v, g.numeric) && FiniteBelow(ns, g, v, h)
    ensures WithNameNode(ns, g, v, name, h) == Splice(WithNameNode(ns, g, v, "", h), NameSlotNode(ns, g, v, h), name)
    ensures NameSlotNode(ns, g, v, h).Some? && WithNameNode(ns, g, v, "", h).Value? ==>
      NameSlotNode(ns, g, v, h).value <= |WithNameNode(ns, g, v, "", h).value|
    decreases h, 2
  {
    match v
    case Var(tv) =>
      var s0 := ShowTVar(tv) + " " + "";
      assert s0[..|ShowTVar(tv)| + 1] + name + s0[|ShowTVar(tv)| + 1..] == ShowTVar(tv) + " " + name;
    case NamedVar(tv, _) =>
      var s0 := ShowTVar(tv) + " " + "";
      assert s0[..|ShowTVar(tv)| + 1] + name + s0[|ShowTVar(tv)| + 1..] == ShowTVar(tv) + " " + name;
    case Array(n, e) =>
      ArraySplices(ns, g, v, name, h);
    case Fun(args, ret) =>
      FunSplices(ns, g, v, name, h);
    case Ptr(p) =>
      var p0 := WithName(ns, g, p, "", h);
      if p0.Value? {
        var s0 := p0.value + " *" + "";
        assert s0[..|p0.value| + 2] + name + s0[|p0.value| + 2..] == p0.value + " *" + name;
      }
    case MutPtr(p) =>
      var p0 := WithName(ns, g, p, "", h);
      if p0.Value? {
        var s0 := p0.value + " *" + "";
        assert s0[..|p0.value| + 2] + name + s0[|p0.value| + 2..] == p0.value + " *" + name;
      }
    case _ =>
  }

  lemma {:induction false} ArraySplices(ns: seq<UVarData>, g: Ghosts, v: Type, name: string, h: nat)
    requires ValidState(ns, g) && Wf(v, g.numeric) && FiniteBelow(ns, g, v, h) && v.Array?
    ensures WithNameNode(ns, g, v, name, h) == Splice(WithNameNode(ns, g, v, "", h), NameSlotNode(ns, g, v, h), name)
    ensures NameSlotNode(ns, g, v, h).Some? && WithNameNode(ns, g, v, "", h).Value? ==>
      NameSlotNode(ns, g, v, h).value <= |WithNameNode(ns, g, v, "", h).value|
    decreases h, 1
  {
    var e := v.elem;
    var t := "[" + ShowNat(v.size) + "]";
    WithNameSplices(ns, g, e, name, h);
    SpliceSuffixed(WithName(ns, g, e, "", h), NameSlot(ns, g, e, h), name, t);
    ArraySuffixed(ns, g, v, name, h);
    ArraySuffixed(ns, g, v, "", h);
  }

  /** The `Array` arm appends the length in brackets to the element's declarator. */
  lemma ArraySuffixed(ns: seq<UVarData>, g: Ghosts, v: Type, name: string, h: nat)
    requires ValidState(ns, g) && Wf(v, g.numeric) && FiniteBelow(ns, g, v, h) && v.Array?
    ensures WithNameNode(ns, g, v, name, h) == Suffixed(WithName(ns, g, v.elem, name, h), "[" + ShowNat(v.size) + "]")
  {
    var r := WithName(ns, g, v.elem, name, h);
    if r.Value? {
      assert r.value + "[" + ShowNat(v.size) + "]" == r.value + ("[" + ShowNat(v.size) + "]");
    }
  }

  /** `r` followed by `t`, or the panic of `r`. */
  function Suffixed(r: Panicking<string>, t: string): Panicking<string>
  {
    match r
    case Panic(_) => r
    case Value(s) => Value(s + t)
  }

  /** Inserting a name at a slot inside `r` commutes with appending text after `r`. */
  lemma SpliceSuffixed(r: Panicking<string>, slot: Option<nat>, name: string, t: string)
    requires r.Value? && slot.Some? ==> slot.value <= |r.value|
    ensures Suffixed(Splice(r, slot, name), t) == Splice(Suffixed(r, t), slot, name)
    ensures Suffixed(r, t).Value? && slot.Some? ==> slot.value <= |Suffixed(r, t).value|
  {
    if r.Value? && slot.Some? {
      var s, k := r.value, slot.value;
      assert (s + t)[..k] == s[..k];
      assert (s + t)[k..] == s[k..] + t;
      assert s[..k] + name + s[k..] + t == s[..k] + name + (s[k..] + t);
    }
  }

  lemma {:induction false} FunSplices(ns: seq<UVarData>, g: Ghosts, v: Type, name: string, h: nat)
    requires ValidState(ns, g) && Wf(v, g.numeric) && FiniteBelow(ns, g, v, h) && v.Fun?
    ensures WithNameNode(ns, g, v, name, h) == Splice(WithNameNode(ns, g, v, "", h), NameSlotNode(ns, g, v, h), name)
    ensures NameSlotNode(ns, g, v, h).Some? && WithNameNode(ns, g, v, "", h).Value? ==>
      NameSlotNode(ns, g, v, h).value <= |WithNameNode(ns, g, v, "", h).value|
    decreases h, 1
  {
    var args, ret := v.args, v.ret;
    var r0 := WithName(ns, g, ret, "", h);
    var a0 := ArgList(ns, g, args, h);
    if r0.Value? && a0.Value? {
      var k := |r0.value| + 2;
      var s0 := r0.value + "(*" + "" + ")(" + a0.value + ")";
      assert s0[..k] == r0.value + "(*";
      assert s0[k..] == ")(" + a0.value + ")";
      assert WithNameNode(ns, g, v, "", h) == Value(s0);
      assert s0[..k] + name + s0[k..] == r0.value + "(*" + name + ")(" + a0.value + ")";
    }
  }


  /** A type C can print: no unknown, no unresolved unification variable, and no type
      application anywhere in it. */
  predicate Printable(t: Type)
  {
    match t
    case Unknown => false
    case UVar(_) => false
    case NumericUVar(_) => false
    case TypeApp(_, _, _) => false
    case Var(_) => true
    case NamedVar(_, _) => true
    case Tuple(items) => forall k :: 0 <= k < |items| ==> Printable(items[k])
    case Array(_, e) => Printable(e)
    case Fun(args, ret) => (forall k :: 0 <= k < |args| ==> Printable(args[k])) && Printable(ret)
    case Ptr(p) => Printable(p)
    case MutPtr(p) => Printable(p)
  }

  /** `with_name` panics exactly when the type it stands for, with every resolved unification
      variable looked through, is not printable. */
  lemma {:induction false} WithNamePrintable(ns: seq<UVarData>, g: Ghosts, t: Type, name: string, h: nat)
    requires ValidState(ns, g) && Wf(t, g.numeric) && Finite(ns, g, t, h)
    ensures WithName(ns, g, t, name, h).Value? <==> Printable(Deep(ns, g, t, h))
    decreases h, 0
  {
    FiniteUnfold(ns, g, t, h);
    WithNameNodePrintable(ns, g, ViewIn(ns, g, t), name, h - 1);
  }

  lemma {:induction false} WithNameNodePrintable(ns: seq<UVarData>, g: Ghosts, v: Type, name: string, h: nat)
    requires ValidState(ns, g) && Wf(v, g.numeric) && FiniteBelow(ns, g, v, h)
    ensures WithNameNode(ns, g, v, name, h).Value? <==> Printable(DeepNode(ns, g, v, h))
    decreases h, 2
  {
    match v
    case Tuple(items) =>
      TuplePrintable(ns, g, v, name, h);
    case Array(_, e) =>
      WithNamePrintable(ns, g, e, name, h);
    case Fun(args, ret) =>
      FunPrintable(ns, g, v, name, h);
    case Ptr(p) =>
      WithNamePrintable(ns, g, p, "", h);
    case MutPtr(p) =>
      WithNamePrintable(ns, g, p, "", h);
    case _ =>
  }

  lemma {:induction false} TuplePrintable(ns: seq<UVarData>, g: Ghosts, v: Type, name: string, h: nat)
    requires ValidState(ns, g) && Wf(v, g.numeric) && FiniteBelow(ns, g, v, h) && v.Tuple?
    ensures WithNameNode(ns, g, v, name, h).Value? <==> Printable(DeepNode(ns, g, v, h))
    decreases h, 1, |v.items| + 1
  {
    TupleFieldsPrintable(ns, g, v.items, h);
    DeepAllAt(ns, g, v.items, h);
  }

  lemma {:induction false} FunPrintable(ns: seq<UVarData>, g: Ghosts, v: Type, name: string, h: nat)
    requires ValidState(ns, g) && Wf(v, g.numeric) && FiniteBelow(ns, g, v, h) && v.Fun?
    ensures WithNameNode(ns, g, v, name, h).Value? <==> Printable(DeepNode(ns, g, v, h))
    decreases h, 1, |v.args| + 1
  {
    WithNamePrintable(ns, g, v.ret, "", h);
    ArgListPrintable(ns, g, v.args, h);
    DeepAllAt(ns, g, v.args, h);
  }

  lemma {:induction false} TupleFieldsPrintable(ns: seq<UVarData>, g: Ghosts, ts: seq<Type>, h: nat)
    requires ValidState(ns, g) && AllWf(ts, g.numeric) && AllFinite(ns, g, ts, h)
    ensures TupleFields(ns, g, ts, h).Value? <==> forall k :: 0 <= k < |ts| ==> Printable(Deep(ns, g, ts[k], h))
    decreases h, 1, |ts|
  {
    if ts != [] {
      var n := |ts| - 1;
      AllButLast(ns, g, ts, h);
      PrintableSplit(ns, g, ts, ts[..n], h);
      TupleFieldsPrintable(ns, g, ts[..n], h);
      WithNamePrintable(ns, g, ts[n], "__" + ShowNat(n), h);
    }
  }

  lemma {:induction false} ArgListPrintable(ns: seq<UVarData>, g: Ghosts, ts: seq<Type>, h: nat)
    requires ValidState(ns, g) && AllWf(ts, g.numeric) && AllFinite(ns, g, ts, h)
    ensures ArgList(ns, g, ts, h).Value? <==> forall k :: 0 <= k < |ts| ==> Printable(Deep(ns, g, ts[k], h))
    decreases h, 1, |ts|
  {
    if ts != [] {
      var n := |ts| - 1;
      AllButLast(ns, g, ts, h);
      PrintableSplit(ns, g, ts, ts[..n], h);
      ArgListPrintable(ns, g, ts[..n], h);
      WithNamePrintable(ns, g, ts[n], "", h);
      ArgListSnoc(ns, g, ts, h);
    }
  }

  /** The argument list prints exactly when the arguments but the last and the last one do. */
  lemma ArgListSnoc(ns: seq<UVarData>, g: Ghosts, ts: seq<Type>, h: nat)
    requires ValidState(ns, g) && AllWf(ts, g.numeric) && AllFinite(ns, g, ts, h) && ts != []
    requires AllWf(ts[..|ts| - 1], g.numeric) && AllFinite(ns, g, ts[..|ts| - 1], h)
    requires Wf(ts[|ts| - 1], g.numeric) && Finite(ns, g, ts[|ts| - 1], h)
    ensures ArgList(ns, g, ts, h).Value? <==>
      ArgList(ns, g, ts[..|ts| - 1], h).Value? && WithName(ns, g, ts[|ts| - 1], "", h).Value?
  {
  }

  /** Every type of a list prints exactly when every type but the last does and the last does. */
  lemma PrintableSplit(ns: seq<UVarData>, g: Ghosts, ts: seq<Type>, pre: seq<Type>, h: nat)
    requires ValidState(ns, g) && AllWf(ts, g.numeric) && AllFinite(ns, g, ts, h) && ts != []
    requires pre == ts[..|ts| - 1] && AllWf(pre, g.numeric) && AllFinite(ns, g, pre, h)
    ensures (forall k :: 0 <= k < |ts| ==> Printable(Deep(ns, g, ts[k], h))) <==>
      (forall k :: 0 <= k < |pre| ==> Printable(Deep(ns, g, pre[k], h))) && Printable(Deep(ns, g, ts[|ts| - 1], h))
  {
    assert forall k :: 0 <= k < |pre| ==> pre[k] == ts[k];
  }

  /** `Display for LValue`: only a plain variable is implemented. */
  function ShowLValue(lv: LValue): (r: Panicking<string>)
    ensures r.Value? <==> lv.VarRefL?
  {
    match lv
    case VarRefL(v) => Value(ShowVarRef(v))
    case _ => Panic("not yet implemented")
  }

  /** The initialisers of a tuple value: ".__i = v" for field `i`, with no separator. */
  function TupleInits(vals: seq<VarRef>): string
  {
    if vals == [] then ""
    else TupleInits(vals[..|vals| - 1]) + FieldInit(|vals| - 1, vals[|vals| - 1])
  }

  /** The initialiser ".__i = v" of field `i`. */
  function FieldInit(i: nat, v: VarRef): string
  {
    ".__" + ShowNat(i) + " = " + ShowVarRef(v)
  }

  /** `Display for RValue`. */
  function ShowRValue(rv: RValue): (r: Panicking<string>)
    ensures r.Value? <==> rv.NumLit? || rv.ArrayInit? || rv.Tuple? || (rv.ValueOf? && rv.lv.VarRefL?)
  {
    match rv
    case NumLit(n, _) => Value(ShowNat(n))
    case ValueOf(lv) => ShowLValue(lv)
    case ArrayInit(_) => Value("[]")
    case Tuple(vals) => Value("{" + TupleInits(vals) + "}")
    case _ => Panic("not yet implemented")
  }

  /** The declared types of `s` and of the statements nested in it can be rendered. */
  ghost predicate StmtOk(ns: seq<UVarData>, g: Ghosts, s: Stmt, h: nat)
    requires ValidState(ns, g)
  {
    match s
    case VarDecl(_, tp) => Wf(tp, g.numeric) && Finite(ns, g, tp, h)
    case If(_, th, el, _) => (forall k :: 0 <= k < |th| ==> StmtOk(ns, g, th[k], h)) && (forall k :: 0 <= k < |el| ==> StmtOk(ns, g, el[k], h))
    case While(_, body) => forall k :: 0 <= k < |body| ==> StmtOk(ns, g, body[k], h)
    case _ => true
  }

  /** `Display for Stmt`. */
  function ShowStmt(ns: seq<UVarData>, ghost g: Ghosts, s: Stmt, ghost h: nat): (r: Panicking<string>)
    requires ValidState(ns, g) && StmtOk(ns, g, s, h)
    ensures s.Return? ==> r.Value?
    ensures s.Assign? ==> (r.Value? <==> s.lval.VarRefL? && ShowRValue(s.rval).Value?)
    decreases s, 1
  {
    match s
    case Return(e, _) => Value("return " + ShowVarRef(e))
    case VarDecl(id, tp) => WithName(ns, g, tp, ShowNat(id.n), h)
    case If(p, th, el, _) =>
      (match ShowLines(ns, g, th, h)
       case Panic(why) => Panic(why)
       case Value(ths) =>
         match ShowLines(ns, g, el, h)
         case Panic(why) => Panic(why)
         case Value(els) => Value("if (" + ShowVarRef(p) + ") {\n" + ths + "} else {\n" + els + "}\n"))
    case Assign(l, r) =>
      (match ShowLValue(l)
       case Panic(why) => Panic(why)
       case Value(ls) =>
         match ShowRValue(r)
         case Panic(why) => Panic(why)
         case Value(rs) => Value(ls + " = " + rs))
    case While(c, body) =>
      (match ShowLines(ns, g, body, h)
       case Panic(why) => Panic(why)
       case Value(bs) => Value("while (" + ShowVarRef(c) + ") {\n" + bs + "};\n"))
  }

  /** The statements of a nested block, each on its own indented line ending in ";". */
  function ShowLines(ns: seq<UVarData>, ghost g: Ghosts, ss: seq<Stmt>, ghost h: nat): (r: Panicking<string>)
    requires ValidState(ns, g) && forall k :: 0 <= k < |ss| ==> StmtOk(ns, g, ss[k], h)
    ensures r.Value? ==> Occurrences(r.value, '\n') >= |ss|
    decreases ss, 0
  {
    if ss == [] then Value("")
    else
      var pre := ss[..|ss| - 1];
      match ShowLines(ns, g, pre, h)
      case Panic(why) => Panic(why)
      case Value(before) =>
        match ShowStmt(ns, g, ss[|ss| - 1], h)
        case Panic(why) => Panic(why)
        case Value(line) =>
          LineAdded(before, line);
          Value(before + ("    " + line + ";\n"))
  }

  /** One more rendered line adds at least one line break. */
  lemma LineAdded(before: string, line: string)
    ensures Occurrences(before + ("    " + line + ";\n"), '\n') >= Occurrences(before, '\n') + 1
  {
    var last := "    " + line + ";\n";
    OccurrencesAppend(before, last, '\n');
    assert last[..|last| - 1] + ['\n'] == last;
  }

  /** How often the character `c` occurs in `s`. */
  function Occurrences(s: string, c: char): nat
  {
    if s == [] then 0 else Occurrences(s[..|s| - 1], c) + (if s[|s| - 1] == c then 1 else 0)
  }

  lemma {:induction false} OccurrencesAppend(a: string, b: string, c: char)
    ensures Occurrences(a + b, c) == Occurrences(a, c) + Occurrences(b, c)
    decreases |b|
  {
    if b == [] {
      assert a + b == a;
    } else {
      assert (a + b)[..|a + b| - 1] == a + b[..|b| - 1];
      OccurrencesAppend(a, b[..|b| - 1], c);
    }
  }

  lemma {:induction false} Absent(s: string, c: char)
    requires forall i :: 0 <= i < |s| ==> s[i] != c
    ensures Occurrences(s, c) == 0
    decreases |s|
  {
    if s != [] {
      Absent(s[..|s| - 1], c);
    }
  }

  /** A variable reference prints without an `=`. */
  lemma VarRefHasNoEquals(v: VarRef)
    ensures Occurrences(ShowVarRef(v), '=') == 0
  {
    match v
    case LocalVar(id) => Absent(ShowNat(id.n), '=');
    case GlobalVar(id) => Absent(ShowVarRef(v), '=');
  }

  /** One field initialiser holds one `=`. */
  lemma InitCount(i: nat, v: VarRef)
    ensures Occurrences(FieldInit(i, v), '=') == 1
  {
    var num := ShowNat(i);
    NumeralHasNoEquals(i);
    VarRefHasNoEquals(v);
    InitPunctuation();
    OccurrencesAppend(".__", num, '=');
    OccurrencesAppend(".__" + num, " = ", '=');
    OccurrencesAppend(".__" + num + " = ", ShowVarRef(v), '=');
  }

  lemma NumeralHasNoEquals(n: nat)
    ensures Occurrences(ShowNat(n), '=') == 0
  {
    Absent(ShowNat(n), '=');
  }

  /** The fixed text around a field initialiser: no `=` before the number, one after it. */
  lemma InitPunctuation()
    ensures Occurrences(".__", '=') == 0 && Occurrences(" = ", '=') == 1
  {
    assert ".__"[..2] == "._" && ".__"[..2][..1] == "." && " = "[..2] == " =" && " = "[..2][..1] == " ";
  }

  /** The initialisers of a tuple value hold one `=` per field. */
  lemma {:induction false} TupleInitsCount(vals: seq<VarRef>)
    ensures Occurrences(TupleInits(vals), '=') == |vals|
    decreases |vals|
  {
    if vals != [] {
      var n := |vals| - 1;
      TupleInitsCount(vals[..n]);
      InitCount(n, vals[n]);
      OccurrencesAppend(TupleInits(vals[..n]), FieldInit(n, vals[n]), '=');
    }
  }
  /** `Display for RValue` of a tuple never panics, and prints its fields between braces with
      exactly one initialiser per field. */
  lemma ShowTupleValue(vals: seq<VarRef>)
    ensures ShowRValue(RValue.Tuple(vals)).Value?
    ensures var s := ShowRValue(RValue.Tuple(vals)).value;
            |s| >= 2 && s[0] == '{' && s[|s| - 1] == '}' && Occurrences(s, '=') == |vals|
  {
    var t := TupleInits(vals);
    TupleInitsCount(vals);
    OccurrencesAppend("{", t, '=');
    OccurrencesAppend("{" + t, "}", '=');
  }
}
