/** The syntax tree after name resolution (src/resolve/ast.rs): every path is now a reference
    to a local variable or to a declaration, and type syntax is a `Type`. */
module ResolvedAst {
  import opened Wrappers
  import opened Common
  import opened NodeIds
  import Types

  /** What a path refers to: a local variable by name, or a declaration by id. */
  datatype SymRef = LocalRef(name: string) | GlobalRef(id: NodeID)

  datatype Expr =
    | Var(sym: SymRef, pos: Position)
    | NumLit(n: nat, pos: Position)
    | Str(s: string, pos: Position)
    | Tuple(items: seq<Expr>, pos: Position)
    | FunCall(callee: Expr, args: seq<Expr>, pos: Position)
    | MethodCall(recv: Expr, methodName: string, args: seq<Expr>, pos: Position)
    | FieldAccess(inner: Expr, field: string, pos: Position)
    | Block(stmts: seq<Expr>, last: Expr, pos: Position)
    | Return(value: Expr, pos: Position)
    | Let(name: string, isMut: bool, tp: Option<Types.Type>, init: Expr, pos: Position)
    | Ref(inner: Expr, pos: Position)
    | RefMut(inner: Expr, pos: Position)
    | Deref(inner: Expr, pos: Position)
    | If(cond: Expr, thenBranch: Expr, elseBranch: Expr, pos: Position)
    | StructCons(id: NodeID, fields: map<string, Expr>, pos: Position)
    | Assign(lhs: Expr, rhs: Expr, pos: Position)
    | Error(pos: Position)
    | IndexAccess(arr: Expr, index: Expr, pos: Position)
    | Match(scrutinee: Expr, clauses: seq<Clause>, pos: Position)
    | While(cond: Expr, body: Expr, pos: Position)
    | Cast(inner: Expr, target: Types.Type, pos: Position)
    | ArrayInitExact(items: seq<Expr>, pos: Position)
    | ArrayInitRepeat(item: Expr, size: nat, pos: Position)
    | Char(c: char, pos: Position)

  datatype Clause = Clause(pattern: Pattern, body: Expr, pos: Position)

  datatype Pattern =
    | PError(pos: Position)
    | PWildcard(pos: Position)
    | PNumber(n: nat, pos: Position)
    | PVar(name: string, pos: Position)
    | PTuple(items: seq<Pattern>, pos: Position)
    | PTupleCons(id: NodeID, items: seq<Pattern>, pos: Position)

  datatype FnArg = FnArg(isMut: bool, name: string, tp: Types.Type, pos: Position)

  datatype Func = Func(id: NodeID, args: seq<FnArg>, name: string, retType: Types.Type, body: Expr, pos: Position)

  /** The unit value `()` at `pos`, which the resolver supplies for omitted tails and values. */
  function UnitAt(pos: Position): (e: Expr)
    ensures e.Tuple? && e.items == [] && e.pos == pos
  {
    Tuple([], pos)
  }
}
