/** Layouts of the MIR (src/mir/ast.rs:5-52). */
module MirAst {
  /** The machine types of the MIR. */
  datatype Prim = Tu8 | Tu16 | Tu32 | Tu64 | Tusize | Ti8 | Ti16 | Ti32 | Ti64 | Tisize

  /** How a value is laid out: a machine value, an array of `elems` elements, or a tuple of
      fields. */
  datatype TypeLayout =
    | Simple(tp: Prim)
    | ArrayLayout(elemLayout: Layout, elems: nat)
    | TupleLayout(fieldCount: nat, fields: seq<Layout>)

  datatype Layout = Layout(layout: TypeLayout, size: nat, offset: nat, align: nat)

  /** `Layout::require_stack`: only machine values live outside memory; arrays and tuples,
      even empty ones, need a stack slot. Size, offset and alignment play no part. */
  function RequireStack(l: Layout): (r: bool)
    ensures r <==> !l.layout.Simple?
  {
    match l.layout
    case Simple(_) => false
    case ArrayLayout(_, _) => true
    case TupleLayout(_, _) => true
  }
}
