/** Variable ids of the lowered representations and the counter that hands them out
    (src/mir/ast.rs:82-102). The core and codegen representations carry copies of the same two
    types (src/core/ast.rs:73-91, src/codegen/ast.rs:87-99) that behave identically; the model
    has one of each. */
module VarIds {
  /** `VarID`: a number, compared, ordered and hashed as that number. */
  datatype VarID = VarID(n: nat)
  {
    /** `VarID::get`: the wrapped number. */
    function Get(): (k: nat)
      ensures VarID(k) == this
    {
      n
    }
  }

  /** `VarSpawner`: the number of ids handed out so far. `issued` records those ids, so that
      freshness can be stated. */
  class VarSpawner {
    var last: nat
    ghost var issued: set<VarID>

    ghost predicate Valid()
      reads this
    {
      forall v :: v in issued ==> 1 <= v.n <= last
    }

    /** `VarSpawner::new`: nothing handed out yet. */
    constructor ()
      ensures Valid() && last == 0 && issued == {}
    {
      last := 0;
      issued := {};
    }

    /** `VarSpawner::fresh`: bumps the counter and returns it, so the ids are 1, 2, 3, ... and
        no id is handed out twice. */
    method Fresh() returns (v: VarID)
      requires Valid()
      modifies this
      ensures Valid()
      ensures last == old(last) + 1 && v == VarID(last)
      ensures v !in old(issued) && issued == old(issued) + {v}
    {
      last := last + 1;
      v := VarID(last);
      issued := issued + {v};
    }
  }

  /** Two ids taken one after the other from a new spawner are 1 and 2, and differ. */
  method FreshFromNew() returns (a: VarID, b: VarID)
    ensures a == VarID(1) && b == VarID(2)
  {
    var gen := new VarSpawner();
    a := gen.Fresh();
    b := gen.Fresh();
  }
}
