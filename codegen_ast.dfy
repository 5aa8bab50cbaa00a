/** The C-like output representation of the code generator (src/codegen/ast.rs), with the
    statement and value forms its printer handles (src/codegen/emit.rs:166-251). */
module CodegenAst {
  import opened NodeIds
  import opened Types
  import opened VarIds

  datatype VarRef = LocalVar(id: VarID) | GlobalVar(gid: NodeID)

  datatype LValue =
    | VarRefL(vr: VarRef)
    | FieldAccess(fvar: VarRef, fieldId: string, fieldTp: Type)
    | Deref(dvar: VarRef, inTp: Type)

  datatype RValue =
    | NumLit(n: nat, tp: Type)
    | FunCall(callee: VarRef, args: seq<VarRef>, retTp: Type)
    | Ref(rvar: VarRef, rtp: Type)
    | StructCons(sid: NodeID, initializers: seq<(string, RValue)>, stp: Type)
    | ValueOf(lv: LValue)  // `RValue::Value`
    | ArrayInit(elems: seq<RValue>)
    | Tuple(vals: seq<VarRef>)

  datatype Stmt =
    | Return(expr: VarRef, retTp: Type)
    | VarDecl(did: VarID, tp: Type)
    | If(pred: VarRef, th: seq<Stmt>, el: seq<Stmt>, blockTp: Type)
    | Assign(lval: LValue, rval: RValue)
    | While(cond: VarRef, body: seq<Stmt>)
}
