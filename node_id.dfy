/** Ids of top-level declarations (src/common/node_id.rs). */
module NodeIds {
  import opened Wrappers

  /** The first id handed out by `NodeID::new_global`: the counter starts at 64. */
  const FIRST_NODE_ID: nat := 65

  /** The builtin type names, at the index `NodeID::of_builtin_type` gives them. */
  const BUILTIN_TYPES: seq<string> :=
    ["never", "bool", "order", "u8", "u16", "u32", "u64", "usize", "i8", "i16", "i32", "i64", "isize"]

  /** A node id; ids are compared, ordered and hashed as numbers. */
  datatype NodeID = NodeID(id: nat)

  /** The static `COUNTER` of `NodeID::new_global`, made an explicit field. */
  class NodeIdGen {
    var counter: nat

    ghost predicate Valid()
      reads this
    {
      counter >= FIRST_NODE_ID - 1
    }

    constructor ()
      ensures Valid() && counter == FIRST_NODE_ID - 1
    {
      counter := FIRST_NODE_ID - 1;
    }

    /** `NodeID::new_global`: bumps the counter and returns the new value as the id, so
        every id it returns is larger than all earlier ones. */
    method NewGlobal() returns (n: NodeID)
      requires Valid()
      modifies this
      ensures Valid()
      ensures counter == old(counter) + 1 && n == NodeID(counter)
      ensures n.id >= FIRST_NODE_ID && n.id > old(counter)
    {
      counter := counter + 1;
      n := NodeID(counter);
    }
  }

  /** `NodeID::of_root`. */
  function OfRoot(): (n: NodeID)
    ensures n.id == 0
  {
    NodeID(0)
  }

  /** `NodeID::of_builtin_type`: the index of the name among the builtin names; any other
      name panics. */
  function OfBuiltinType(name: string): (r: Panicking<NodeID>)
    ensures r.Value? <==> name in BUILTIN_TYPES
    ensures r.Value? ==> r.value.id < |BUILTIN_TYPES| && BUILTIN_TYPES[r.value.id] == name
  {
    match name
    case "never" => Value(NodeID(0))
    case "bool" => Value(NodeID(1))
    case "order" => Value(NodeID(2))
    case "u8" => Value(NodeID(3))
    case "u16" => Value(NodeID(4))
    case "u32" => Value(NodeID(5))
    case "u64" => Value(NodeID(6))
    case "usize" => Value(NodeID(7))
    case "i8" => Value(NodeID(8))
    case "i16" => Value(NodeID(9))
    case "i32" => Value(NodeID(10))
    case "i64" => Value(NodeID(11))
    case "isize" => Value(NodeID(12))
    case _ => Panic("not a builtin name: " + name)
  }

  /** Different builtin names get different ids. */
  lemma OfBuiltinTypeInjective(a: string, b: string)
    requires OfBuiltinType(a).Value? && OfBuiltinType(b).Value?
    ensures OfBuiltinType(a) == OfBuiltinType(b) ==> a == b
  {
  }

  /** The never type shares its id with the root module. */
  lemma NeverIsRoot()
    ensures OfBuiltinType("never") == Value(OfRoot())
  {
  }

  /** An id from `new_global` is neither the root id nor a builtin type id. */
  lemma FreshIsNotReserved(n: NodeID, name: string)
    requires n.id >= FIRST_NODE_ID
    ensures n != OfRoot()
    ensures OfBuiltinType(name).Value? ==> OfBuiltinType(name).value != n
  {
  }
}
