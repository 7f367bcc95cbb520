/** The syntax tree: one constructor per expression and statement node class,
    holding the fields those classes hold. */
module Ast {
  import opened Wrappers
  import opened Tokens

  datatype Expr =
    | BinaryExpr(left: Expr, op: TokenKind, right: Expr)
    | LiteralExpr(value: int)
    | VarExpr(name: string)
    | AssignExpr(name: string, rhs: Expr)
    | StringLiteralExpr(text: string)
    | CallExpr(functionName: string, arguments: seq<Expr>)

  datatype Stmt =
    | AssignStmt(name: string, rhs: Expr)
    | PrintStmt(expressions: seq<Expr>)
    | ExpressionStmt(expression: Expr)
    | IfStmt(condition: Expr, ifBranch: Stmt, elseBranch: Option<Stmt>)
    | ReturnStmt(returnValue: Option<Expr>)
    | FunctionStmt(definition: Function)
    | BlockStmt(statements: seq<Stmt>)

  /** A function definition: the name, parameter names and body of a
      FunctionStmt, shared by the function tables that register it. */
  datatype Function = Function(name: string, parameters: seq<string>, body: Stmt)
}
