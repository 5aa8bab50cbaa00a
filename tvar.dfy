/** Type variables (src/tp/tvar.rs). */
module TVars {
  import opened Wrappers

  /** The first id handed out by `TVar::new`: the counter starts at 64 and is bumped before use. */
  const FIRST_TVAR_ID: nat := 65

  type Arity = n: nat | 0 < n witness 1

  /** What a type variable stands for: a generic parameter, a proper type, or a type
      constructor expecting `arity` arguments. */
  datatype TVarKind = Parameter | Proper | TypeCons(arity: Arity)

  /** A type variable. The source compares, orders and hashes type variables by `id` alone;
      the model compares ids wherever the source compares type variables (see `SameTVar`). */
  datatype TVar = TVar(id: nat, kind: TVarKind)

  predicate SameTVar(a: TVar, b: TVar)
  {
    a.id == b.id
  }

  /** The static `COUNTER` of `TVar::new`, made an explicit field. */
  class TVarGen {
    var counter: nat

    ghost predicate Valid()
      reads this
    {
      counter >= FIRST_TVAR_ID - 1
    }

    constructor ()
      ensures Valid() && counter == FIRST_TVAR_ID - 1
    {
      counter := FIRST_TVAR_ID - 1;
    }

    /** `TVar::new`: bumps the counter and returns the new value as the id. */
    method New(kind: TVarKind) returns (tv: TVar)
      requires Valid()
      modifies this
      ensures Valid()
      ensures counter == old(counter) + 1
      ensures tv == TVar(counter, kind)
      ensures tv.id >= FIRST_TVAR_ID
    {
      counter := counter + 1;
      tv := TVar(counter, kind);
    }
  }

  /** `TVar::of_builtin`: only "never" and "bool" have reserved type variables. */
  function OfBuiltin(name: string): (r: Panicking<TVar>)
    ensures r.Value? <==> name == "never" || name == "bool"
    ensures name == "never" ==> r.value.id == 1
    ensures name == "bool" ==> r.value.id == 2
    ensures r.Value? ==> r.value.kind == Proper
  {
    if name == "never" then Value(TVar(1, Proper))
    else if name == "bool" then Value(TVar(2, Proper))
    else Panic("not a builtin name: " + name)
  }

  /** The numeric builtin names have no reserved type variable: asking for one panics. */
  lemma OfBuiltinRejectsNumeric()
    ensures OfBuiltin("i32").Panic? && OfBuiltin("u8").Panic? && OfBuiltin("usize").Panic?
  {
  }

  /** A reserved builtin type variable never collides with one made by `TVar::new`. */
  lemma OfBuiltinNotFresh(name: string, tv: TVar)
    requires OfBuiltin(name).Value? && tv.id >= FIRST_TVAR_ID
    ensures !SameTVar(OfBuiltin(name).value, tv)
  {
  }

  /** `is_numeric`, `is_never`, `is_builtin` and `builtin_size` have no body in the source
      (`todo!()`); the model takes them as an uninterpreted table keyed by id. */
  datatype TVarOracle = TVarOracle(numeric: set<nat>, never: set<nat>, builtin: set<nat>, sizes: map<nat, nat>)

  predicate IsNumeric(o: TVarOracle, tv: TVar)
  {
    tv.id in o.numeric
  }

  predicate IsNever(o: TVarOracle, tv: TVar)
  {
    tv.id in o.never
  }

  predicate IsBuiltin(o: TVarOracle, tv: TVar)
  {
    tv.id in o.builtin
  }

  function BuiltinSize(o: TVarOracle, tv: TVar): Option<nat>
  {
    if tv.id in o.sizes then Some(o.sizes[tv.id]) else None
  }
}
