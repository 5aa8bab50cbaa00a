/** The type representation and its pure constructors (src/tp/mod.rs). */
module Types {
  import opened Wrappers
  import opened Common
  import opened TVars

  /** `Type`/`TypeView`. A unification variable is the index of its node in the `UVars.Arena`. */
  datatype Type =
    | Unknown
    | UVar(node: nat)
    | NumericUVar(node: nat)
    | Var(tvar: TVar)
    | NamedVar(tvar: TVar, name: string)
    | Tuple(items: seq<Type>)
    | Array(size: nat, elem: Type)
    | Fun(args: seq<Type>, ret: Type)
    | Ptr(pointee: Type)
    | MutPtr(pointee: Type)
    | TypeApp(tvar: TVar, name: string, args: seq<Type>)

  function Unit(): Type
  {
    Tuple([])
  }

  /** `Type::named_var`: a type constructor cannot be used without its arguments. */
  function NamedVarOf(tv: TVar, name: string, pos: Position): (r: Res<Type>)
    ensures !r.Abort?
    ensures r.Err? <==> tv.kind.TypeCons?
    ensures r.Err? ==> r.diag == Diagnostic(TypeParamsMismatch(tv.kind.arity, 0), pos)
    ensures r.Ok? ==> r.value == NamedVar(tv, name)
  {
    if tv.kind.TypeCons? then Err(Diagnostic(TypeParamsMismatch(tv.kind.arity, 0), pos))
    else Ok(NamedVar(tv, name))
  }

  /** `Type::type_app`: only a type constructor applied to exactly its arity of arguments. */
  function TypeAppOf(tv: TVar, name: string, tps: seq<Type>, pos: Position): (r: Res<Type>)
    ensures !r.Abort?
    ensures r.Ok? <==> tv.kind.TypeCons? && |tps| == tv.kind.arity
    ensures r.Ok? ==> r.value == TypeApp(tv, name, tps)
    ensures r.Err? && tv.kind.TypeCons? ==> r.diag == Diagnostic(TypeParamsMismatch(tv.kind.arity, |tps|), pos)
    ensures r.Err? && !tv.kind.TypeCons? ==> r.diag == Diagnostic(TypeParamsMismatch(0, |tps|), pos)
  {
    if tv.kind.TypeCons? then
      if |tps| != tv.kind.arity then Err(Diagnostic(TypeParamsMismatch(tv.kind.arity, |tps|), pos))
      else Ok(TypeApp(tv, name, tps))
    else Err(Diagnostic(TypeParamsMismatch(0, |tps|), pos))
  }

  /** `Type::builtin`: the named variable of a reserved builtin type variable. */
  function Builtin(name: string): (r: Panicking<Type>)
    ensures r.Value? <==> OfBuiltin(name).Value?
    ensures r.Value? ==> r.value == NamedVar(OfBuiltin(name).value, name)
  {
    match OfBuiltin(name)
    case Panic(why) => Panic(why)
    case Value(tv) => Value(NamedVarOf(tv, name, Nowhere).value)
  }

  /** The never type and the bool type, as `Type::builtin` builds them. */
  function Never(): (t: Type)
    ensures Builtin("never") == Value(t)
  {
    NamedVar(TVar(1, Proper), "never")
  }

  function Bool(): (t: Type)
    ensures Builtin("bool") == Value(t)
  {
    NamedVar(TVar(2, Proper), "bool")
  }

  /** The integer builtins have no type variable, so `Type::builtin("i32")` panics. */
  lemma BuiltinI32Panics()
    ensures Builtin("i32").Panic?
  {
  }
}
