/** The expression and statement trees shared by the parser, the lowering pass, the
    constant folder and the definite-assignment analysis (src/ast.rs), without source
    spans except on identifiers, where a warning needs one. */
module Ast {

  datatype Option<+T> = None | Some(value: T)

  datatype Result<+T, +E> = Success(value: T) | Failure(error: E)

  datatype BinaryOp =
    | Add | Sub | Mul | Div | Mod
    | And | Or
    | BitAnd | BitOr | BitXor | ShiftLeft | ShiftRight
    | Equals | NotEquals | Greater | GreaterEq | Less | LessEq

  datatype UnaryOp = Neg | Not | BitNot

  /** `Lambda` carries the one expression of a block that has no statements. */
  datatype Expr =
    | Unit
    | NoneLit
    | Bool(b: bool)
    | Integer(n: int)
    | Str(s: string)
    | Identifier(name: string, span: nat)
    | Placeholder(index: nat)
    | List(items: seq<Expr>)
    | Unary(uop: UnaryOp, operand: Expr)
    | Binary(op: BinaryOp, left: Expr, right: Expr)
    | Ternary(cond: Expr, thenBranch: Expr, elseBranch: Expr)
    | Call(callee: Expr, args: seq<Expr>)
    | Member(target: Expr, property: string)
    | Index(base: Expr, position: Expr)
    | Pipeline(source: Expr, stage: Expr)
    | Throw(thrown: Expr)
    | Lambda(params: seq<string>, body: Expr)

  datatype Block = Block(stmts: seq<Stmt>, value: Option<Expr>)

  datatype Branch = Branch(cond: Expr, body: Block)

  datatype Stmt =
    | Binding(name: string, value: Expr)
    | ExprStmt(expr: Expr)
    | Return(result: Expr)
    | If(cond: Expr, body: Block, elifs: seq<Branch>, orelse: Option<Block>)
    | While(cond: Expr, body: Block)
    | For(variable: string, iterable: Expr, body: Block)
    | ForKV(keyVar: string, valueVar: string, iterable: Expr, body: Block)
    | ForRange(variable: string, start: Expr, end: Expr, step: Option<Expr>, body: Block)
    | FieldAssign(target: Expr, field: string, value: Expr)
    | Break
    | Continue
}
