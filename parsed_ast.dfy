/** The syntax tree the parser produces (src/parser/ast.rs), as far as the namespace tree and
    the resolver read it. Attributes, argument and field types and bodies are carried along. */
module ParsedAst {
  import opened Wrappers
  import opened Common

  /** An attribute `@name(args)`. */
  datatype Attribute = Attribute(name: Ident, args: seq<Ident>)

  /** Type syntax. `TypeApp` is matched by the resolver although the parser does not build it. */
  datatype RType =
    | RVar(path: Path, pos: Position)
    | RTuple(items: seq<RType>, pos: Position)
    | RArray(size: nat, elem: RType, pos: Position)
    | RPtr(pointee: RType, pos: Position)
    | RMutPtr(pointee: RType, pos: Position)
    | RSlice(elem: RType, pos: Position)
    | RMutSlice(elem: RType, pos: Position)
    | RFun(args: seq<RType>, ret: RType, pos: Position)
    | RTypeApp(path: Path, args: seq<RType>, pos: Position)

  datatype FnArg =
    | Named(isMut: bool, name: Ident, tp: RType, pos: Position)
    | NSelf(isMut: bool, pos: Position)
    | PtrSelf(pos: Position)
    | MutPtrSelf(pos: Position)

  datatype Pattern =
    | PWildcard(pos: Position)
    | PNumber(n: nat, pos: Position)
    | PVar(name: Ident, pos: Position)
    | PTuple(items: seq<Pattern>, pos: Position)
    | PTupleCons(path: Path, items: seq<Pattern>, pos: Position)

  /** Expressions; the last four are matched by the resolver only. */
  datatype Expr =
    | EError(pos: Position)
    | EVar(path: Path, pos: Position)
    | ENumber(n: nat, pos: Position)
    | EChar(c: char, pos: Position)
    | EString(s: string, pos: Position)
    | ETuple(items: seq<Expr>, pos: Position)
    | EFunCall(callee: Expr, args: seq<Expr>, pos: Position)
    | EMethodCall(recv: Expr, methodName: Ident, args: seq<Expr>, pos: Position)
    | EFieldAccess(inner: Expr, field: Ident, pos: Position)
    | EClosedBlock(stmts: seq<Expr>, pos: Position)
    | EOpenBlock(stmts: seq<Expr>, last: Expr, pos: Position)
    | EReturn(value: Option<Expr>, pos: Position)
    | ELet(name: Ident, isMut: bool, tp: Option<RType>, init: Expr, pos: Position)
    | EMatch(scrutinee: Expr, clauses: seq<Clause>, pos: Position)
    | ERef(inner: Expr, pos: Position)
    | ERefMut(inner: Expr, pos: Position)
    | EDeref(inner: Expr, pos: Position)
    | EIf(cond: Expr, thenBranch: Expr, elseBranch: Option<Expr>, pos: Position)
    | EWhile(cond: Expr, body: Expr, pos: Position)
    | EStructCons(path: Path, fields: seq<(Ident, Expr)>, pos: Position)
    | EAssign(lhs: Expr, rhs: Expr, pos: Position)
    | EArrayInitExact(items: seq<Expr>, pos: Position)
    | EArrayInitRepeat(item: Expr, size: nat, pos: Position)
    | EIndexAccess(arr: Expr, index: Expr, pos: Position)
    | ECast(inner: Expr, target: RType, pos: Position)

  datatype Clause = Clause(pattern: Pattern, body: Expr, pos: Position)

  datatype Func = Func(attributes: seq<Attribute>, vis: Visibility, name: Ident, args: seq<FnArg>,
                       retType: Option<RType>, body: Option<Expr>, pos: Position)

  /** Enum constructors: tuple-like, or with named fields. */
  datatype Constructor =
    | TupleCons(attributes: seq<Attribute>, name: Ident, pos: Position, params: seq<RType>)
    | StructCons(attributes: seq<Attribute>, name: Ident, pos: Position, fields: seq<(Ident, RType)>)

  datatype Struct = Struct(attributes: seq<Attribute>, vis: Visibility, name: Ident,
                           fields: seq<(Ident, RType)>, pos: Position, methods: seq<Func>)

  datatype Enum = Enum(attributes: seq<Attribute>, vis: Visibility, name: Ident,
                       constructors: seq<Constructor>, pos: Position, methods: seq<Func>)

  /** Import syntax: `*`, a name with an optional alias, a braced list, or a path segment. */
  datatype ImportPath =
    | All(pos: Position)
    | Exact(ident: Ident, alias: Option<Ident>, pos: Position)
    | Many(paths: seq<ImportPath>, pos: Position)
    | Segment(ident: Ident, next: ImportPath, pos: Position)

  datatype ImportStmt = ImportStmt(vis: Visibility, path: ImportPath, pos: Position)

  /** A module declared `mod name;` and implemented in its own file. */
  datatype ModuleDecl = ModuleDecl(attributes: seq<Attribute>, vis: Visibility, name: Ident, pos: Position)

  datatype ModuleItem =
    | SubModule(sub: Module)
    | DeclItem(decl: ModuleDecl)
    | ImportItem(stmt: ImportStmt)
    | FuncItem(func: Func)
    | StructItem(st: Struct)
    | EnumItem(en: Enum)
    | ErrorItem

  datatype Module = Module(attributes: seq<Attribute>, vis: Visibility, name: Ident,
                           items: seq<ModuleItem>, pos: Position)
}
