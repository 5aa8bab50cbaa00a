/** The variable environment of the code generator (src/codegen/env.rs). */
module CodegenEnvs {
  import opened Wrappers
  import opened Types
  import opened VarIds
  import opened CodegenAst

  class Env {
    var vars: map<string, VarID>
    const varGen: VarSpawner

    /** Every bound id has been handed out by the spawner. */
    ghost predicate Valid()
      reads this, varGen
    {
      varGen.Valid() && forall name :: name in vars ==> vars[name] in varGen.issued
    }

    /** `Env::new`: no names bound, a spawner at 0. */
    constructor ()
      ensures Valid() && fresh(varGen)
      ensures vars == map[] && varGen.last == 0 && varGen.issued == {}
    {
      vars := map[];
      varGen := new VarSpawner();
    }

    /** `Env::fresh_var`: a never-seen id; no binding changes. */
    method FreshVar() returns (id: VarID)
      requires Valid()
      modifies varGen
      ensures Valid()
      ensures id !in old(varGen.issued) && varGen.issued == old(varGen.issued) + {id}
      ensures vars == old(vars)
    {
      id := varGen.Fresh();
    }

    /** `Env::add_var`: a never-seen id, bound to `name`. */
    method AddVar(name: string) returns (id: VarID)
      requires Valid()
      modifies this, varGen
      ensures Valid()
      ensures id !in old(varGen.issued) && varGen.issued == old(varGen.issued) + {id}
      ensures vars == old(vars)[name := id]
      ensures Lookup(name) == Value(LocalVar(id))
    {
      id := varGen.Fresh();
      vars := vars[name := id];
    }

    /** `Env::var_decl`: a never-seen id, bound to the name only when one is given, returned
        both as a variable reference and as the declaration of that same variable. */
    method DeclareVar(name: Option<string>, tp: Type) returns (v: VarRef, decl: Stmt)
      requires Valid()
      modifies this, varGen
      ensures Valid()
      ensures v.LocalVar? && decl == VarDecl(v.id, tp)
      ensures v.id !in old(varGen.issued) && varGen.issued == old(varGen.issued) + {v.id}
      ensures vars == if name.Some? then old(vars)[name.value := v.id] else old(vars)
    {
      var id := varGen.Fresh();
      if name.Some? {
        vars := vars[name.value := id];
      }
      decl := VarDecl(id, tp);
      v := LocalVar(id);
    }

    /** `Env::lookup`: the name's current variable; an unbound name fails the `unwrap`. */
    function Lookup(name: string): (r: Panicking<VarRef>)
      reads this
      ensures r.Value? <==> name in vars
      ensures r.Value? ==> r.value == LocalVar(vars[name])
    {
      if name in vars then Value(LocalVar(vars[name]))
      else Panic("called `Option::unwrap()` on a `None` value")
    }
  }
}
