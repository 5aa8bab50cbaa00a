/** The syntax tree after the namespace pass (src/mod_tree/ast.rs): every declaration carries
    its fresh `NodeID`; imports are gone from the items. */
module ModTreeAst {
  import opened Wrappers
  import opened Common
  import opened NodeIds
  import Scopes
  import P = ParsedAst

  datatype Func = Func(attributes: seq<P.Attribute>, vis: Visibility, id: NodeID, name: Ident,
                       args: seq<P.FnArg>, retType: Option<P.RType>, body: Option<P.Expr>, pos: Position)

  datatype Constructor =
    | TupleCons(attributes: seq<P.Attribute>, id: NodeID, name: Ident, pos: Position, params: seq<P.RType>)
    | StructCons(attributes: seq<P.Attribute>, id: NodeID, name: Ident, pos: Position, fields: seq<(Ident, P.RType)>)

  datatype Struct = Struct(attributes: seq<P.Attribute>, vis: Visibility, id: NodeID, name: Ident,
                           fields: seq<(Ident, P.RType)>, pos: Position, methods: seq<Func>)

  datatype Enum = Enum(attributes: seq<P.Attribute>, vis: Visibility, id: NodeID, name: Ident,
                       constructors: seq<Constructor>, pos: Position, methods: seq<Func>)

  datatype ModuleItem =
    | SubModule(sub: Module)
    | FuncItem(func: Func)
    | StructItem(st: Struct)
    | EnumItem(en: Enum)

  datatype Module = Module(attributes: seq<P.Attribute>, vis: Visibility, id: NodeID, name: Ident,
                           items: seq<ModuleItem>, pos: Position)

  /** `Module::empty()` with the id it draws from the counter. */
  function EmptyModule(id: NodeID): (m: Module)
    ensures m.items == [] && m.id == id && m.vis == Private && m.name.data == "<unknown>"
  {
    Module([], Private, id, Ident("<unknown>", Nowhere), [], Nowhere)
  }

  datatype Program = Program(scopes: Scopes.ScopeInfo, ast: Module)
}
