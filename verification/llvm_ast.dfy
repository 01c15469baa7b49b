/** The tree the LLVM IR generator walks: the subset of ESTree nodes it dispatches on,
    after the front end has turned `console.log(x)` into a `PrintStatement`.
    Every tag the generator's `switch` statements do not name is an `Unknown*` node
    carrying its tag, which the generator quotes in a diagnostic comment. */
module LlvmAst {
  import opened Options

  /** The `value` of a `Literal`: numbers are modelled as integers; `OtherValue`
      stands for `null`, regular expressions and big integers. */
  datatype LitValue =
    | NumberValue(n: int)
    | StringValue(s: string)
    | BooleanValue(b: bool)
    | OtherValue

  datatype Expr =
    | Literal(value: LitValue)
    | Identifier(name: string)
    | BinaryExpression(operator: string, left: Expr, right: Expr)
    | UnaryExpression(operator: string, argument: Expr)
    | AssignmentExpression(operator: string, left: Expr, right: Expr)
    | UpdateExpression(operator: string, argument: Expr, prefix: bool)
    | CallExpression(callee: Expr, arguments: seq<Expr>)
    | UnknownExpression(tag: string)

  /** One `id = init` of a declaration; `init` is absent for `let x;`. */
  datatype Declarator = Declarator(id: string, init: Option<Expr>)

  datatype Stmt =
    | VariableDeclaration(declarations: seq<Declarator>)
    | ExpressionStatement(expression: Expr)
    | PrintStatement(printed: Option<Expr>)
    | IfStatement(test: Expr, consequent: Stmt, alternate: Option<Stmt>)
    | WhileStatement(test: Expr, body: Stmt)
    | ForStatement
    | BlockStatement(statements: seq<Stmt>)
    | ReturnStatement(returned: Option<Expr>)
    | UnknownStatement(tag: string)

  datatype Program = Program(body: seq<Stmt>)

  /** The print-dispatch policy `isStringExpression`: a syntactic string literal. */
  predicate IsStringExpression(e: Expr) {
    e.Literal? && e.value.StringValue?
  }

  /** Whether lowering `e` reaches an undefined visitor and throws. Lowering visits the
      right-hand side of an assignment and both operands of a binary expression, and
      nothing else below an expression. */
  predicate ExprThrows(e: Expr) {
    match e
    case UnaryExpression(_, _) => true
    case BinaryExpression(_, l, r) => ExprThrows(l) || ExprThrows(r)
    case AssignmentExpression(_, _, r) => ExprThrows(r)
    case _ => false
  }

  predicate DeclaratorsThrow(ds: seq<Declarator>) {
    exists i :: 0 <= i < |ds| && ds[i].init.Some? && ExprThrows(ds[i].init.value)
  }

  /** Whether lowering `s` throws: it reaches a `for` loop, a unary expression, or a
      print statement without an argument (reading `type` of `undefined`). */
  predicate StmtThrows(s: Stmt) {
    match s
    case VariableDeclaration(ds) => DeclaratorsThrow(ds)
    case ExpressionStatement(e) => ExprThrows(e)
    case PrintStatement(arg) => arg.None? || ExprThrows(arg.value)
    case IfStatement(t, c, a) => ExprThrows(t) || StmtThrows(c) || (a.Some? && StmtThrows(a.value))
    case WhileStatement(t, b) => ExprThrows(t) || StmtThrows(b)
    case ForStatement => true
    case BlockStatement(ss) => exists i :: 0 <= i < |ss| && StmtThrows(ss[i])
    case ReturnStatement(arg) => arg.Some? && ExprThrows(arg.value)
    case UnknownStatement(_) => false
  }
}
