/** The variable environment of the MIR lowering (src/mir/env.rs). */
module MirEnvs {
  import opened Wrappers
  import opened VarIds

  /** `Env`: the current id of every named variable, and the spawner of fresh ids. */
  class Env {
    var vars: map<string, VarID>
    const varGen: VarSpawner

    /** Every bound id has been handed out by the spawner. */
    ghost predicate Valid()
      reads this, varGen
    {
      varGen.Valid() && forall name :: name in vars ==> vars[name] in varGen.issued
    }

    /** `Env::new`: no names bound, nothing handed out. */
    constructor ()
      ensures Valid() && fresh(varGen)
      ensures vars == map[] && varGen.last == 0 && varGen.issued == {}
    {
      vars := map[];
      varGen := new VarSpawner();
    }

    /** `Env::fresh_var`: a never-seen id; no binding changes. */
    method FreshVar() returns (id: VarID)
      requires Valid()
      modifies varGen
      ensures Valid()
      ensures id !in old(varGen.issued) && varGen.issued == old(varGen.issued) + {id}
      ensures vars == old(vars)
    {
      id := varGen.Fresh();
    }

    /** `Env::add_var`: a never-seen id, bound to `name` in place of any earlier binding. */
    method AddVar(name: string) returns (id: VarID)
      requires Valid()
      modifies this, varGen
      ensures Valid()
      ensures id !in old(varGen.issued) && varGen.issued == old(varGen.issued) + {id}
      ensures vars == old(vars)[name := id]
      ensures Lookup(name) == Value(id)
    {
      id := varGen.Fresh();
      vars := vars[name := id];
    }

    /** `Env::lookup`: the name's current id; an unbound name fails the `unwrap`. */
    function Lookup(name: string): (r: Panicking<VarID>)
      reads this
      ensures r.Value? <==> name in vars
      ensures r.Value? ==> r.value == vars[name]
    {
      if name in vars then Value(vars[name]) else Panic("called `Option::unwrap()` on a `None` value")
    }
  }
}
