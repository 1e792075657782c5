/** The part of the JavaScript AST the translator's front door builds or
    inspects. Node shapes that only other translators build are `Other…`
    values with an identity tag. */
module JsAst {
  import opened Wrappers
  import opened Numerics

  datatype JsExpr =
    | NullLiteral
    | BooleanLiteral(b: bool)
    /** A number literal built from a Java `int`. */
    | IntLiteral(i: int)
    /** A number literal built from a Java `double`. */
    | DoubleLiteral(d: Float64)
    | StringLiteral(s: string)
    | NameRef(name: string, qualifier: Option<JsExpr>)
    | Invocation(callee: JsExpr, arguments: seq<JsExpr>)
    | ArrayAccess(array: JsExpr, index: JsExpr)
    | OtherExpr(tag: int)

  datatype JsStmt =
    | ExprStmt(expr: JsExpr)
    | Return(result: JsExpr)
    | Block(statements: seq<JsStmt>)
    | OtherStmt(tag: int)

  /** What a per-kind translator returns: an expression or a statement. */
  datatype JsNode = ExprNode(expr: JsExpr) | StmtNode(stmt: JsStmt)

  /** `JsAstUtils.convertToStatement`: a bare expression becomes an
      expression statement, a statement is kept. */
  function ConvertToStatement(n: JsNode): JsStmt {
    match n
    case ExprNode(x) => ExprStmt(x)
    case StmtNode(s) => s
  }

  /** The run-time value a literal evaluates to, for the literal shapes whose
      value is an exact integer, a boolean, a string or null. */
  datatype JsValue = JsNull | JsBoolean(b: bool) | JsNumber(n: int) | JsString(s: string)

  function LiteralValue(e: JsExpr): Option<JsValue> {
    match e
    case NullLiteral => Some(JsNull)
    case BooleanLiteral(b) => Some(JsBoolean(b))
    case IntLiteral(i) => Some(JsNumber(i))
    case StringLiteral(s) => Some(JsString(s))
    case _ => None
  }

  /** One entry of a fragment's name table. */
  datatype NameBinding = NameBinding(key: string, name: string)

  /** The output of translating one source file (`JsProgramFragment`). */
  datatype Fragment = Fragment(
    statements: seq<JsStmt>,
    nameBindings: seq<NameBinding>,
    imports: map<string, JsExpr>)

  const EmptyFragment := Fragment([], [], map[])

  datatype JsFunction = JsFunction(parameters: seq<string>, body: seq<JsStmt>)

  /** The finished program: the global block, and the root function the
      module wrapper placed inside it. */
  datatype JsProgram = JsProgram(globalBlock: seq<JsStmt>, rootFunction: JsFunction)
}
