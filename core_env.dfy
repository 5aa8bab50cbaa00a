/** The variable environment of the core lowering (src/core/env.rs): MIR variable ids are
    renamed to core variable ids. */
module CoreEnvs {
  import opened Wrappers
  import opened VarIds

  class Env {
    /** From MIR ids to core ids. */
    var ids: map<VarID, VarID>
    const varGen: VarSpawner

    ghost predicate Valid()
      reads this, varGen
    {
      varGen.Valid() && forall m :: m in ids ==> ids[m] in varGen.issued
    }

    /** `Env::new`: an empty map and a spawner at 0. */
    constructor ()
      ensures Valid() && fresh(varGen)
      ensures ids == map[] && varGen.last == 0 && varGen.issued == {}
    {
      ids := map[];
      varGen := new VarSpawner();
    }

    /** `Env::fresh_var`: a never-seen core id; the map is unchanged. */
    method FreshVar() returns (id: VarID)
      requires Valid()
      modifies varGen
      ensures Valid()
      ensures id !in old(varGen.issued) && varGen.issued == old(varGen.issued) + {id}
      ensures ids == old(ids)
    {
      id := varGen.Fresh();
    }

    /** `Env::add_var`: maps the MIR id to a never-seen core id, replacing an earlier mapping
        of the same MIR id by the newer one. */
    method AddVar(mirId: VarID) returns (id: VarID)
      requires Valid()
      modifies this, varGen
      ensures Valid()
      ensures id !in old(varGen.issued) && varGen.issued == old(varGen.issued) + {id}
      ensures ids == old(ids)[mirId := id]
      ensures Lookup(mirId) == Value(id)
      ensures mirId in old(ids) ==> Lookup(mirId) != old(Lookup(mirId))
    {
      id := varGen.Fresh();
      ids := ids[mirId := id];
    }

    /** `Env::lookup`: the core id of a MIR id; an unmapped id fails the `unwrap`. */
    function Lookup(mirId: VarID): (r: Panicking<VarID>)
      reads this
      ensures r.Value? <==> mirId in ids
      ensures r.Value? ==> r.value == ids[mirId]
    {
      if mirId in ids then Value(ids[mirId]) else Panic("called `Option::unwrap()` on a `None` value")
    }
  }
}
