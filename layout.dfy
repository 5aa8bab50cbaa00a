/** Layouts of the symbol table (src/symtable/layout.rs). */
module SymLayouts {
  /** The machine types a primitive layout holds. */
  datatype Prim = Tu8 | Tu16 | Tu32 | Tu64 | Tusize | Ti8 | Ti16 | Ti32 | Ti64 | Tisize

  /** A primitive, a struct of (field layout, offset) pairs, or a union of variant layouts. */
  datatype LayoutKind =
    | Primitive(tp: Prim)
    | Struct(items: seq<(Layout, int)>)
    | Union(layouts: seq<Layout>)

  /** `Layout`; sizes and alignments are `u32` in the source. */
  datatype Layout = Layout(size: nat, align: nat, kind: LayoutKind)

  /** `Layout::require_stack`: a primitive does not need the stack, a struct or a union does,
      even one with no fields or no variants. */
  function RequireStack(l: Layout): (r: bool)
    ensures r <==> !l.kind.Primitive?
    ensures l.kind.Struct? && l.kind.items == [] ==> r
    ensures l.kind.Union? && l.kind.layouts == [] ==> r
  {
    match l.kind
    case Primitive(_) => false
    case Struct(_) => true
    case Union(_) => true
  }
}
