/** The recursive-descent expression parser of src/parser.rs: methods that advance `index`
    through the tokens, each computing what the grammar function of the same name says. */
module Parser {
  import opened Ast
  import opened Grammar
  import opened Printer
  import G = Grammar
  import RoundTrip

  class Parser {
    const tokens: seq<Token>
    var index: nat

    ghost predicate Valid()
      reads this
    {
      index <= |tokens|
    }

    /** The parser's answer and position are those of the grammar. */
    ghost predicate Agrees(r: Result<Expr, ParseError>, spec: Parsed)
      reads this
    {
      match spec
      case Ok(e, next) => r == Success(e) && index == next
      case Err(error) => r == Failure(error)
    }

    ghost predicate AgreesAll(r: Result<seq<Expr>, ParseError>, spec: ParsedAll)
      reads this
    {
      match spec
      case OkAll(es, next) => r == Success(es) && index == next
      case ErrAll(error) => r == Failure(error)
    }

    constructor (tokens: seq<Token>)
      ensures Valid() && this.tokens == tokens && index == 0
    {
      this.tokens := tokens;
      index := 0;
    }

    function Peek(ahead: nat): (kind: Kind)
      reads this
    {
      KindAt(tokens, index + ahead)
    }

    /** Consumes the next token if it is of the given kind. */
    method Matches(kind: Kind) returns (matched: bool)
      requires Valid() && !kind.Eof?
      modifies this`index
      ensures Valid() && matched == (KindAt(tokens, old(index)) == kind)
      ensures index == if matched then old(index) + 1 else old(index)
    {
      matched := Peek(0) == kind;
      if matched { index := index + 1; }
    }

    method ParseExpression() returns (r: Result<Expr, ParseError>)
      requires Valid()
      modifies this`index
      ensures Valid() && Agrees(r, G.ParseExpression(tokens, old(index)))
      decreases |tokens| - index, 20
    {
      var cond := ParseLadder(PIPELINE);
      if cond.Failure? { return cond; }
      if Peek(0).Question? && !StartsGuard(Peek(1)) {
        index := index + 1;
        var thenBranch := ParseLadder(PIPELINE);
        if thenBranch.Failure? { return thenBranch; }
        var bang := Matches(Bang);
        if !bang { return Failure(Unexpected); }
        var elseBranch := ParseExpression();
        if elseBranch.Failure? { return elseBranch; }
        return Success(Ternary(cond.value, thenBranch.value, elseBranch.value));
      } else if Peek(0).Bang? && Peek(1).KwReturn? {
        return Failure(Unexpected);
      }
      return cond;
    }

    /** The levels of the binary ladder, from the pipeline at 1 to `*`, `/` and `%` at 11. */
    method ParseLadder(k: nat) returns (r: Result<Expr, ParseError>)
      requires Valid() && PIPELINE <= k <= UNARY
      modifies this`index
      ensures Valid() && Agrees(r, G.ParseLadder(tokens, old(index), k))
      decreases |tokens| - index, 19 - k
    {
      if k == UNARY {
        r := ParseUnary();
        return;
      }
      r := ParseLadder(k + 1);
      if r.Failure? { return; }
      var expr := r.value;
      while JoinLevel(Peek(0)) == k
        invariant Valid() && old(index) < index
        invariant G.ParseLadder(tokens, old(index), k) == G.ParseRest(tokens, expr, index, k)
        decreases |tokens| - index
      {
        var kind := Peek(0);
        index := index + 1;
        var rhs := ParseLadder(k + 1);
        if rhs.Failure? { return rhs; }
        expr := Join(kind, expr, rhs.value);
      }
      r := Success(expr);
    }

    method ParseUnary() returns (r: Result<Expr, ParseError>)
      requires Valid()
      modifies this`index
      ensures Valid() && Agrees(r, G.ParseUnary(tokens, old(index)))
      decreases |tokens| - index, 6
    {
      var minus := Matches(Op(Sub));
      if minus {
        r := ParseUnary();
        if r.Success? { r := Success(Unary(Neg, r.value)); }
        return;
      }
      var bang := Matches(Bang);
      if bang {
        r := ParseUnary();
        if r.Success? { r := Success(Unary(Not, r.value)); }
        return;
      }
      r := ParseCall();
    }

    method ParseCall() returns (r: Result<Expr, ParseError>)
      requires Valid()
      modifies this`index
      ensures Valid() && Agrees(r, G.ParseCall(tokens, old(index)))
      decreases |tokens| - index, 5
    {
      r := ParsePrimary();
      if r.Failure? { return; }
      var expr := r.value;
      while true
        invariant Valid() && old(index) < index
        invariant G.ParseCall(tokens, old(index)) == G.ParsePostfix(tokens, expr, index)
        decreases |tokens| - index
      {
        var kind := Peek(0);
        if kind.LParen? {
          index := index + 1;
          var args := ParseArguments();
          if args.Failure? { return Failure(args.error); }
          expr := Call(expr, args.value);
        } else if kind.Dot? {
          var name := PropertyName(Peek(1));
          if name.None? { return Failure(Unexpected); }
          index := index + 2;
          expr := Member(expr, name.value);
        } else if kind.LBracket? {
          index := index + 1;
          var position := ParseExpression();
          if position.Failure? { return position; }
          var closed := Matches(RBracket);
          if !closed { return Failure(Unexpected); }
          expr := Index(expr, position.value);
        } else {
          return Success(expr);
        }
      }
    }

    method ParseArguments() returns (r: Result<seq<Expr>, ParseError>)
      requires Valid()
      modifies this`index
      ensures Valid() && AgreesAll(r, G.ParseArguments(tokens, old(index)))
      decreases |tokens| - index, 22
    {
      var empty := Matches(RParen);
      if empty { return Success([]); }
      r := ParseItems(RParen);
    }

    method ParseItems(close: Kind) returns (r: Result<seq<Expr>, ParseError>)
      requires Valid() && !close.Eof? && !close.Comma?
      modifies this`index
      ensures Valid() && AgreesAll(r, G.ParseItems(tokens, old(index), close))
      decreases |tokens| - index, 21
    {
      var items: seq<Expr> := [];
      while true
        invariant Valid() && old(index) <= index
        invariant G.ParseItems(tokens, old(index), close) == Prepend(items, G.ParseItems(tokens, index, close))
        decreases |tokens| - index
      {
        if close.RParen? && Peek(0).Word? && Peek(1).Colon? { return Failure(Unmodelled); }
        var item := ParseExpression();
        if item.Failure? { return Failure(item.error); }
        ghost var before := items;
        items := items + [item.value];
        var comma := Matches(Comma);
        if comma { PrependTwice(before, item.value, G.ParseItems(tokens, index, close)); }
        if !comma {
          var closed := Matches(close);
          return if closed then Success(items) else Failure(Unexpected);
        }
      }
    }

    method ParseTuple(first: Expr) returns (r: Result<seq<Expr>, ParseError>)
      requires Valid()
      modifies this`index
      ensures Valid() && AgreesAll(r, Prepend([first], G.ParseTuple(tokens, old(index))))
      decreases |tokens| - index, 21
    {
      var items := [first];
      while !Peek(0).RParen?
        invariant Valid() && old(index) <= index
        invariant Prepend([first], G.ParseTuple(tokens, old(index))) == Prepend(items, G.ParseTuple(tokens, index))
        decreases |tokens| - index
      {
        var item := ParseExpression();
        if item.Failure? { return Failure(item.error); }
        ghost var before := items;
        items := items + [item.value];
        var comma := Matches(Comma);
        if comma { PrependTwice(before, item.value, G.ParseTuple(tokens, index)); }
        if !comma {
          var closed := Matches(RParen);
          return if closed then Success(items) else Failure(Unexpected);
        }
      }
      assert items + [] == items;
      index := index + 1;
      r := Success(items);
    }

    method ParsePrimary() returns (r: Result<Expr, ParseError>)
      requires Valid()
      modifies this`index
      ensures Valid() && Agrees(r, G.ParsePrimary(tokens, old(index)))
      decreases |tokens| - index, 4
    {
      var kind := Peek(0);
      if kind.Eof? { return Failure(Unexpected); }
      var span := if index < |tokens| then tokens[index].span else 0;
      if kind.LParen? {
        index := index + 1;
        r := ParseParens();
        return;
      }
      if kind.LBracket? {
        index := index + 1;
        var empty := Matches(RBracket);
        if empty { return Success(List([])); }
        var items := ParseItems(RBracket);
        return if items.Failure? then Failure(items.error) else Success(List(items.value));
      }
      match kind {
        case Word(name) =>
          if name == "map" && Peek(1).LParen? { return Failure(Unmodelled); }
          r := Success(Identifier(name, span));
        case Number(n) => r := Success(Integer(n));
        case Text(s) => r := Success(Str(s));
        case KwTrue => r := Success(Bool(true));
        case KwFalse => r := Success(Bool(false));
        case KwNone => r := Success(NoneLit);
        case Dollar(i) => r := Success(Placeholder(i));
        case Op(op) =>
          if op != Equals && op != NotEquals { return Failure(Unexpected); }
          r := Success(Identifier(if op.Equals? then "is" else "isnt", span));
        case _ => return Failure(Unexpected);
      }
      index := index + 1;
    }

    method ParseParens() returns (r: Result<Expr, ParseError>)
      requires Valid()
      modifies this`index
      ensures Valid() && Agrees(r, G.ParseParens(tokens, old(index)))
      decreases |tokens| - index, 21
    {
      var empty := Matches(RParen);
      if empty { return Success(Unit); }
      r := ParseExpression();
      if r.Failure? { return; }
      var comma := Matches(Comma);
      if comma {
        var items := ParseTuple(r.value);
        return if items.Failure? then Failure(items.error) else Success(List(items.value));
      }
      var closed := Matches(RParen);
      if !closed { return Failure(Unexpected); }
    }
  }

  /** Running the parser over a rendered tree gives the tree back and reads every token. */
  method ParseRendered(e: Expr) returns (r: Result<Expr, ParseError>, next: nat)
    requires Renderable(e)
    ensures r == Success(e) && next == |Render(e, TERNARY)|
  {
    var parser := new Parser(Render(e, TERNARY));
    r := parser.ParseExpression();
    next := parser.index;
    RoundTrip.ParseUndoesRender(e);
  }
}
