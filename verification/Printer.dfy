/** Rendering trees back to tokens with parentheses only where the ladder needs them, and
    the proof that the parser undoes it. */
module Printer {
  import opened Ast
  import opened Grammar

  // ---------------------------------------------------------------- rendering

  /** The trees an expression can parse to. */
  predicate Renderable(e: Expr)
    decreases e
  {
    match e
    case Integer(n) => n >= 0
    case List(items) => AllRenderable(items)
    case Unary(op, operand) => !op.BitNot? && Renderable(operand)
    case Binary(_, left, right) => Renderable(left) && Renderable(right)
    case Ternary(cond, a, b) => Renderable(cond) && Renderable(a) && Renderable(b)
    case Call(callee, args) => Renderable(callee) && AllRenderable(args)
    case Member(target, _) => Renderable(target)
    case Index(base, position) => Renderable(base) && Renderable(position)
    case Pipeline(source, stage) => Renderable(source) && Renderable(stage)
    case Throw(_) => false
    case Lambda(_, _) => false
    case _ => true
  }

  predicate AllRenderable(es: seq<Expr>)
    decreases es
  {
    es == [] || (Renderable(es[0]) && AllRenderable(es[1..]))
  }

  /** The ladder level that builds a tree. */
  function Level(e: Expr): (k: nat)
    ensures k <= PRIMARY
  {
    match e
    case Ternary(_, _, _) => TERNARY
    case Pipeline(_, _) => PIPELINE
    case Binary(op, _, _) => OpLevel(op)
    case Unary(_, _) => UNARY
    case Call(_, _) => CALL
    case Member(_, _) => CALL
    case Index(_, _) => CALL
    case _ => PRIMARY
  }

  /** No tree may stand above this level without parentheses. */
  const GROUP: nat := 15

  /** A callee named `map` would start a map literal, so it takes parentheses. */
  predicate IsMapName(e: Expr) { e.Identifier? && e.name == "map" }

  function CalleeLevel(e: Expr): nat { if IsMapName(e) then GROUP else CALL }

  /** Decreases when a pending parenthesis is opened. */
  ghost function Pending(e: Expr, k: nat): nat { if k > Level(e) then 1 else 0 }

  function Tok(kind: Kind): seq<Token> { [Token(kind, 0)] }

  /** The tokens of a tree where level `k` is expected. */
  function Render(e: Expr, k: nat): seq<Token>
    requires Renderable(e)
    decreases e, Pending(e, k)
  {
    if k > Level(e) then Tok(LParen) + (Render(e, TERNARY) + Tok(RParen))
    else
      match e
      case Unit => Tok(LParen) + Tok(RParen)
      case NoneLit => Tok(KwNone)
      case Bool(b) => Tok(if b then KwTrue else KwFalse)
      case Integer(n) => Tok(Number(n))
      case Str(s) => Tok(Text(s))
      case Identifier(name, span) => [Token(Word(name), span)]
      case Placeholder(index) => Tok(Dollar(index))
      case List(items) => Tok(LBracket) + RenderItems(items, RBracket)
      case Unary(op, operand) => Tok(if op.Not? then Bang else Op(Sub)) + Render(operand, UNARY)
      case Binary(op, left, right) =>
        Render(left, OpLevel(op)) + (Tok(Op(op)) + Render(right, OpLevel(op) + 1))
      case Pipeline(source, stage) => Render(source, PIPELINE) + (Tok(Tilde) + Render(stage, PIPELINE + 1))
      case Ternary(cond, a, b) =>
        Render(cond, PIPELINE) + (Tok(Question) + (Render(a, PIPELINE) + (Tok(Bang) + Render(b, TERNARY))))
      case Call(callee, args) => Render(callee, CalleeLevel(callee)) + (Tok(LParen) + RenderItems(args, RParen))
      case Member(target, property) => Render(target, CALL) + (Tok(Dot) + Tok(Word(property)))
      case Index(base, position) =>
        Render(base, CALL) + (Tok(LBracket) + (Render(position, TERNARY) + Tok(RBracket)))
      case _ => []
  }

  /** Items separated by commas, and the closing token. */
  function RenderItems(es: seq<Expr>, close: Kind): seq<Token>
    requires AllRenderable(es)
    decreases es, 0
  {
    if es == [] then Tok(close)
    else if |es| == 1 then Render(es[0], TERNARY) + Tok(close)
    else Render(es[0], TERNARY) + (Tok(Comma) + RenderItems(es[1..], close))
  }

  /** How many tokens a tree takes where level `k` is expected. */
  function Width(e: Expr, k: nat): (n: nat)
    ensures n > 0
    decreases e, Pending(e, k)
  {
    if k > Level(e) then Width(e, TERNARY) + 2
    else
      match e
      case Unit => 2
      case List(items) => 1 + ItemsWidth(items)
      case Unary(_, operand) => 1 + Width(operand, UNARY)
      case Binary(op, left, right) => Width(left, OpLevel(op)) + 1 + Width(right, OpLevel(op) + 1)
      case Pipeline(source, stage) => Width(source, PIPELINE) + 1 + Width(stage, PIPELINE + 1)
      case Ternary(cond, a, b) => Width(cond, PIPELINE) + 1 + Width(a, PIPELINE) + 1 + Width(b, TERNARY)
      case Call(callee, args) => Width(callee, CalleeLevel(callee)) + 1 + ItemsWidth(args)
      case Member(target, _) => Width(target, CALL) + 2
      case Index(base, position) => Width(base, CALL) + 1 + Width(position, TERNARY) + 1
      case _ => 1
  }

  function ItemsWidth(es: seq<Expr>): (n: nat)
    ensures n > 0
    decreases es, 0
  {
    if es == [] then 1
    else if |es| == 1 then Width(es[0], TERNARY) + 1
    else Width(es[0], TERNARY) + 1 + ItemsWidth(es[1..])
  }
}
