/** The syntax tree the type checker produces (src/typecheck/ast.rs): every expression carries
    the types the checker settled on. The variants are the ones `check_expr` builds; a tuple is
    built without a type and a field access with its field name, as the checker constructs
    them. */
module TypedAst {
  import opened NodeIds
  import opened Types

  datatype TExpr =
    | NumLit(n: nat, tp: Type)
    | LocalVar(name: string, tp: Type)
    | GlobalVar(id: NodeID, tp: Type)
    | Tuple(items: seq<TExpr>)
    | FunCall(callee: TExpr, args: seq<TExpr>, argsTp: seq<Type>, retTp: Type)
    | FieldAccess(object: TExpr, fieldName: string, fieldTp: Type)
    | Block(exprs: seq<TExpr>, lastExpr: TExpr, blockTp: Type)
    | Return(expr: TExpr, retTp: Type)
    | Let(name: string, isMut: bool, tp: Type, expr: TExpr)
    | If(pred: TExpr, th: TExpr, el: TExpr, blockTp: Type)
    | Assign(lval: TExpr, rval: TExpr, assignTp: Type)
    | Ref(expr: TExpr, tp: Type)
    | RefMut(expr: TExpr, tp: Type)
    | Deref(expr: TExpr, inTp: Type)
    | Error

  /** A checked function: its arguments as (name, mutability, type), its return type and body. */
  datatype TFunc = TFunc(id: NodeID, name: string, args: seq<(string, bool, Type)>, retType: Type, body: TExpr)
}
