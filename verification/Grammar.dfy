/** The expression grammar of src/parser.rs as functions over a token sequence: what the
    recursive-descent parser returns and where it stops, from any position. */
module Grammar {
  import opened Ast

  datatype Kind =
    | Word(name: string)
    | Number(n: nat)
    | Text(s: string)
    | KwTrue | KwFalse | KwNone
    | Dollar(index: nat)
    | Op(op: BinaryOp)
    | Tilde | Question | Bang
    | LParen | RParen | LBracket | RBracket
    | Comma | Dot | Colon
    | KwReturn | KwBreak | KwContinue
    | Eof

  datatype Token = Token(kind: Kind, span: nat)

  /** `Unmodelled` marks syntax whose tree is not part of this model (map literals, named
      arguments). */
  datatype ParseError = Unexpected | Unmodelled

  datatype Parsed = Ok(e: Expr, next: nat) | Err(error: ParseError)
  datatype ParsedAll = OkAll(es: seq<Expr>, next: nat) | ErrAll(error: ParseError)

  /** Items already read, before what the rest of a list adds. */
  function Prepend(items: seq<Expr>, rest: ParsedAll): ParsedAll {
    if rest.OkAll? then OkAll(items + rest.es, rest.next) else rest
  }

  lemma PrependTwice(items: seq<Expr>, e: Expr, rest: ParsedAll)
    ensures Prepend(items, Prepend([e], rest)) == Prepend(items + [e], rest)
  {
    if rest.OkAll? { assert items + ([e] + rest.es) == items + [e] + rest.es; }
  }

  function KindAt(ts: seq<Token>, i: nat): Kind { if i < |ts| then ts[i].kind else Eof }

  // ---------------------------------------------------------------- the ladder

  const TERNARY: nat := 0
  const PIPELINE: nat := 1
  const UNARY: nat := 12
  const CALL: nat := 13
  const PRIMARY: nat := 14

  function OpLevel(op: BinaryOp): (k: nat)
    ensures PIPELINE < k < UNARY
  {
    match op
    case Or => 2
    case And => 3
    case BitOr => 4
    case BitXor => 5
    case BitAnd => 6
    case Equals => 7
    case NotEquals => 7
    case Greater => 8
    case GreaterEq => 8
    case Less => 8
    case LessEq => 8
    case ShiftLeft => 9
    case ShiftRight => 9
    case Add => 10
    case Sub => 10
    case Mul => 11
    case Div => 11
    case Mod => 11
  }

  /** The level of the loop that consumes a token, or TERNARY when none does. */
  function JoinLevel(kind: Kind): (k: nat)
    ensures k < UNARY
  {
    match kind
    case Tilde => PIPELINE
    case Op(op) => OpLevel(op)
    case _ => TERNARY
  }

  function Join(kind: Kind, left: Expr, right: Expr): Expr
    requires JoinLevel(kind) > TERNARY
  {
    if kind.Tilde? then Pipeline(left, right) else Binary(kind.op, left, right)
  }

  predicate StartsGuard(kind: Kind) { kind.KwReturn? || kind.KwBreak? || kind.KwContinue? }

  /** The property named by the token after a dot: a word or one of the keywords. */
  function PropertyName(kind: Kind): Option<string> {
    match kind
    case Word(name) => Some(name)
    case KwTrue => Some("true")
    case KwFalse => Some("false")
    case KwNone => Some("none")
    case KwReturn => Some("return")
    case KwBreak => Some("break")
    case KwContinue => Some("continue")
    case Op(op) =>
      (match op
       case And => Some("and")
       case Or => Some("or")
       case Equals => Some("is")
       case NotEquals => Some("isnt")
       case _ => None)
    case _ => None
  }

  // ---------------------------------------------------------------- the parser's functions

  function ParseExpression(ts: seq<Token>, i: nat): (r: Parsed)
    requires i <= |ts|
    ensures r.Ok? ==> i < r.next <= |ts|
    decreases |ts| - i, 20
  {
    var c := ParseLadder(ts, i, PIPELINE);
    if c.Err? then c
    else if KindAt(ts, c.next).Question? && !StartsGuard(KindAt(ts, c.next + 1)) then
      var a := ParseLadder(ts, c.next + 1, PIPELINE);
      if a.Err? then a
      else if !KindAt(ts, a.next).Bang? then Err(Unexpected)
      else
        var b := ParseExpression(ts, a.next + 1);
        if b.Err? then b else Ok(Ternary(c.e, a.e, b.e), b.next)
    else if KindAt(ts, c.next).Bang? && KindAt(ts, c.next + 1).KwReturn? then Err(Unexpected)
    else c
  }

  /** One level of the binary ladder; levels past the last operator are prefix operators. */
  function ParseLadder(ts: seq<Token>, i: nat, k: nat): (r: Parsed)
    requires i <= |ts| && PIPELINE <= k <= UNARY
    ensures r.Ok? ==> i < r.next <= |ts|
    decreases |ts| - i, 19 - k
  {
    if k == UNARY then ParseUnary(ts, i)
    else
      var first := ParseLadder(ts, i, k + 1);
      if first.Err? then first else ParseRest(ts, first.e, first.next, k)
  }

  /** The loop of a ladder level, with the tree built so far. */
  function ParseRest(ts: seq<Token>, acc: Expr, i: nat, k: nat): (r: Parsed)
    requires i <= |ts| && PIPELINE <= k < UNARY
    ensures r.Ok? ==> i <= r.next <= |ts|
    decreases |ts| - i, 21
  {
    if JoinLevel(KindAt(ts, i)) != k then Ok(acc, i)
    else
      var rhs := ParseLadder(ts, i + 1, k + 1);
      if rhs.Err? then rhs else ParseRest(ts, Join(KindAt(ts, i), acc, rhs.e), rhs.next, k)
  }

  function ParseUnary(ts: seq<Token>, i: nat): (r: Parsed)
    requires i <= |ts|
    ensures r.Ok? ==> i < r.next <= |ts|
    decreases |ts| - i, 6
  {
    var kind := KindAt(ts, i);
    if kind == Op(Sub) || kind.Bang? then
      var r := ParseUnary(ts, i + 1);
      if r.Err? then r else Ok(Unary(if kind.Bang? then Not else Neg, r.e), r.next)
    else ParseCall(ts, i)
  }

  function ParseCall(ts: seq<Token>, i: nat): (r: Parsed)
    requires i <= |ts|
    ensures r.Ok? ==> i < r.next <= |ts|
    decreases |ts| - i, 5
  {
    var p := ParsePrimary(ts, i);
    if p.Err? then p else ParsePostfix(ts, p.e, p.next)
  }

  function ParsePostfix(ts: seq<Token>, acc: Expr, i: nat): (r: Parsed)
    requires i <= |ts|
    ensures r.Ok? ==> i <= r.next <= |ts|
    decreases |ts| - i, 21
  {
    match KindAt(ts, i)
    case LParen =>
      var args := ParseArguments(ts, i + 1);
      if args.ErrAll? then Err(args.error) else ParsePostfix(ts, Call(acc, args.es), args.next)
    case Dot =>
      var name := PropertyName(KindAt(ts, i + 1));
      if name.None? then Err(Unexpected) else ParsePostfix(ts, Member(acc, name.value), i + 2)
    case LBracket =>
      var index := ParseExpression(ts, i + 1);
      if index.Err? then index
      else if !KindAt(ts, index.next).RBracket? then Err(Unexpected)
      else ParsePostfix(ts, Index(acc, index.e), index.next + 1)
    case _ => Ok(acc, i)
  }

  function ParseArguments(ts: seq<Token>, i: nat): (r: ParsedAll)
    requires i <= |ts|
    ensures r.OkAll? ==> i < r.next <= |ts|
    decreases |ts| - i, 22
  {
    if KindAt(ts, i).RParen? then OkAll([], i + 1) else ParseItems(ts, i, RParen)
  }

  /** One or more expressions separated by commas, up to the closing token. */
  function ParseItems(ts: seq<Token>, i: nat, close: Kind): (r: ParsedAll)
    requires i <= |ts| && !close.Eof?
    ensures r.OkAll? ==> i < r.next <= |ts|
    decreases |ts| - i, 21
  {
    if close.RParen? && KindAt(ts, i).Word? && KindAt(ts, i + 1).Colon? then ErrAll(Unmodelled)
    else
      var head := ParseExpression(ts, i);
      if head.Err? then ErrAll(head.error)
      else if KindAt(ts, head.next).Comma? then
        Prepend([head.e], ParseItems(ts, head.next + 1, close))
      else if KindAt(ts, head.next) == close then OkAll([head.e], head.next + 1)
      else ErrAll(Unexpected)
  }

  /** The items of a parenthesised list after its first comma; a trailing comma is allowed. */
  function ParseTuple(ts: seq<Token>, i: nat): (r: ParsedAll)
    requires i <= |ts|
    ensures r.OkAll? ==> i < r.next <= |ts|
    decreases |ts| - i, 21
  {
    if KindAt(ts, i).RParen? then OkAll([], i + 1)
    else
      var head := ParseExpression(ts, i);
      if head.Err? then ErrAll(head.error)
      else if KindAt(ts, head.next).Comma? then
        Prepend([head.e], ParseTuple(ts, head.next + 1))
      else if KindAt(ts, head.next).RParen? then OkAll([head.e], head.next + 1)
      else ErrAll(Unexpected)
  }

  function ParsePrimary(ts: seq<Token>, i: nat): (r: Parsed)
    requires i <= |ts|
    ensures r.Ok? ==> i < r.next <= |ts|
    decreases |ts| - i, 4
  {
    match KindAt(ts, i)
    case Number(n) => Ok(Integer(n), i + 1)
    case Text(s) => Ok(Str(s), i + 1)
    case KwTrue => Ok(Bool(true), i + 1)
    case KwFalse => Ok(Bool(false), i + 1)
    case KwNone => Ok(NoneLit, i + 1)
    case Dollar(index) => Ok(Placeholder(index), i + 1)
    case Word(name) =>
      if name == "map" && KindAt(ts, i + 1).LParen? then Err(Unmodelled)
      else Ok(Identifier(name, ts[i].span), i + 1)
    case Op(op) =>
      if op.Equals? then Ok(Identifier("is", ts[i].span), i + 1)
      else if op.NotEquals? then Ok(Identifier("isnt", ts[i].span), i + 1)
      else Err(Unexpected)
    case LParen => ParseParens(ts, i + 1)
    case LBracket =>
      if KindAt(ts, i + 1).RBracket? then Ok(List([]), i + 2)
      else
        var items := ParseItems(ts, i + 1, RBracket);
        if items.ErrAll? then Err(items.error) else Ok(List(items.es), items.next)
    case _ => Err(Unexpected)
  }

  /** What follows an opening parenthesis: unit, a group or a list. */
  function ParseParens(ts: seq<Token>, i: nat): (r: Parsed)
    requires i <= |ts|
    ensures r.Ok? ==> i < r.next <= |ts|
    decreases |ts| - i, 21
  {
    if KindAt(ts, i).RParen? then Ok(Unit, i + 1)
    else
      var first := ParseExpression(ts, i);
      if first.Err? then first
      else if KindAt(ts, first.next).Comma? then
        var rest := ParseTuple(ts, first.next + 1);
        if rest.ErrAll? then Err(rest.error) else Ok(List([first.e] + rest.es), rest.next)
      else if KindAt(ts, first.next).RParen? then Ok(first.e, first.next + 1)
      else Err(Unexpected)
  }

  /** The parser for the expressions that may stand at a level of the ladder. */
  function ParseAt(ts: seq<Token>, i: nat, k: nat): (r: Parsed)
    requires i <= |ts| && k <= PRIMARY
    ensures r.Ok? ==> i < r.next <= |ts|
  {
    if k == TERNARY then ParseExpression(ts, i)
    else if k <= UNARY then ParseLadder(ts, i, k)
    else if k == CALL then ParseCall(ts, i)
    else ParsePrimary(ts, i)
  }
}
