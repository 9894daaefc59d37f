/** From text to tree: printing a tree as text, lexing the text and parsing the tokens gives the
    tree back. */
module Frontend {
  import opened Ast
  import G = Grammar
  import opened Printer
  import Parser
  import RoundTrip
  import Scanner
  import Lexer
  import LexLoop
  import opened Spelling

  /** Trees whose names, numbers and placeholders can be written; positions are left out. */
  predicate Writable(e: Expr)
    decreases e
  {
    match e
    case Integer(n) => 0 <= n <= Scanner.I64_MAX
    case Identifier(name, span) => IsName(name) && span == 0
    case Placeholder(index) => index <= Scanner.U32_MAX
    case List(items) => AllWritable(items)
    case Unary(op, operand) => !op.BitNot? && Writable(operand)
    case Binary(_, left, right) => Writable(left) && Writable(right)
    case Ternary(cond, a, b) => Writable(cond) && Writable(a) && Writable(b)
    case Call(callee, args) => Writable(callee) && AllWritable(args)
    case Member(target, property) => Writable(target) && IsName(property)
    case Index(base, position) => Writable(base) && Writable(position)
    case Pipeline(source, stage) => Writable(source) && Writable(stage)
    case Throw(_) => false
    case Lambda(_, _) => false
    case _ => true
  }

  predicate AllWritable(es: seq<Expr>)
    decreases es
  {
    es == [] || (Writable(es[0]) && AllWritable(es[1..]))
  }

  lemma {:induction false} WritableIsRenderable(e: Expr)
    requires Writable(e)
    ensures Renderable(e)
    decreases e
  {
    match e
    case List(items) => AllWritableAreRenderable(items);
    case Unary(_, operand) => WritableIsRenderable(operand);
    case Binary(_, left, right) => WritableIsRenderable(left); WritableIsRenderable(right);
    case Ternary(cond, a, b) => WritableIsRenderable(cond); WritableIsRenderable(a); WritableIsRenderable(b);
    case Call(callee, args) => WritableIsRenderable(callee); AllWritableAreRenderable(args);
    case Member(target, _) => WritableIsRenderable(target);
    case Index(base, position) => WritableIsRenderable(base); WritableIsRenderable(position);
    case Pipeline(source, stage) => WritableIsRenderable(source); WritableIsRenderable(stage);
    case _ =>
  }

  lemma {:induction false} AllWritableAreRenderable(es: seq<Expr>)
    requires AllWritable(es)
    ensures AllRenderable(es)
    decreases es
  {
    if es != [] {
      WritableIsRenderable(es[0]);
      AllWritableAreRenderable(es[1..]);
    }
  }

  // ---------------------------------------------------------------- rendered tokens can be written

  predicate Written(ts: seq<G.Token>) { forall i :: 0 <= i < |ts| ==> Spellable(ts[i].kind) && ts[i].span == 0 }

  lemma WrittenTok(kind: G.Kind)
    requires Spellable(kind)
    ensures Written(Tok(kind))
  {
  }

  lemma WrittenConcat(a: seq<G.Token>, b: seq<G.Token>)
    requires Written(a) && Written(b)
    ensures Written(a + b)
  {
  }

  lemma {:induction false} RenderIsWritten(e: Expr, k: nat)
    requires Writable(e) && Renderable(e)
    ensures Written(Render(e, k)) && Render(e, k) != []
    decreases e, Pending(e, k)
  {
    hide Spellable, Writable, Renderable;
    if k > Level(e) {
      RenderIsWritten(e, G.TERNARY);
      assert Written(Tok(G.LParen)) && Written(Tok(G.RParen)) by { Symbols(); }
    } else {
      PiecesAreWritten(e, k);
    }
  }

  lemma Symbols()
    ensures Written(Tok(G.LParen)) && Written(Tok(G.RParen)) && Written(Tok(G.LBracket)) && Written(Tok(G.RBracket))
    ensures Written(Tok(G.Comma)) && Written(Tok(G.Dot)) && Written(Tok(G.Tilde)) && Written(Tok(G.Question))
            && Written(Tok(G.Bang))
    ensures Written(Tok(G.KwTrue)) && Written(Tok(G.KwFalse)) && Written(Tok(G.KwNone))
    ensures forall op :: Written(Tok(G.Op(op)))
    ensures Spellable(G.RParen) && Spellable(G.RBracket)
  {
  }

  lemma {:induction false} PiecesAreWritten(e: Expr, k: nat)
    requires Writable(e) && Renderable(e) && k <= Level(e)
    ensures Written(Render(e, k)) && Render(e, k) != []
    decreases e, 0, 0
  {
    hide Spellable, IsName, Written;
    Symbols();
    match e
    case Unit => WrittenConcat(Tok(G.LParen), Tok(G.RParen));
    case Integer(n) => assert Written(Tok(G.Number(n))) by { WrittenNumber(n); }
    case Str(s) => assert Written(Tok(G.Text(s))) by { WrittenText(s); }
    case Identifier(name, span) => assert Written(Tok(G.Word(name))) by { WrittenName(name); }
    case Placeholder(index) => assert Written(Tok(G.Dollar(index))) by { WrittenDollar(index); }
    case List(items) =>
      ItemsAreWritten(items, G.RBracket);
      WrittenConcat(Tok(G.LBracket), RenderItems(items, G.RBracket));
    case Unary(op, operand) =>
      RenderIsWritten(operand, G.UNARY);
      WrittenConcat(Tok(if op.Not? then G.Bang else G.Op(Sub)), Render(operand, G.UNARY));
    case Binary(op, left, right) =>
      var level := G.OpLevel(op);
      RenderIsWritten(left, level);
      RenderIsWritten(right, level + 1);
      WrittenConcat(Tok(G.Op(op)), Render(right, level + 1));
      WrittenConcat(Render(left, level), Tok(G.Op(op)) + Render(right, level + 1));
    case Pipeline(source, stage) =>
      RenderIsWritten(source, G.PIPELINE);
      RenderIsWritten(stage, G.PIPELINE + 1);
      WrittenConcat(Tok(G.Tilde), Render(stage, G.PIPELINE + 1));
      WrittenConcat(Render(source, G.PIPELINE), Tok(G.Tilde) + Render(stage, G.PIPELINE + 1));
    case Ternary(c, a, b) =>
      RenderIsWritten(c, G.PIPELINE);
      RenderIsWritten(a, G.PIPELINE);
      RenderIsWritten(b, G.TERNARY);
      WrittenConcat(Tok(G.Bang), Render(b, G.TERNARY));
      WrittenConcat(Render(a, G.PIPELINE), Tok(G.Bang) + Render(b, G.TERNARY));
      WrittenConcat(Tok(G.Question), Render(a, G.PIPELINE) + (Tok(G.Bang) + Render(b, G.TERNARY)));
      WrittenConcat(Render(c, G.PIPELINE),
                    Tok(G.Question) + (Render(a, G.PIPELINE) + (Tok(G.Bang) + Render(b, G.TERNARY))));
      RoundTrip.TernaryTokens(c, a, b);
    case Call(callee, args) =>
      RenderIsWritten(callee, CalleeLevel(callee));
      ItemsAreWritten(args, G.RParen);
      WrittenConcat(Tok(G.LParen), RenderItems(args, G.RParen));
      WrittenConcat(Render(callee, CalleeLevel(callee)), Tok(G.LParen) + RenderItems(args, G.RParen));
    case Member(target, property) =>
      RenderIsWritten(target, G.CALL);
      assert Written(Tok(G.Word(property))) by { WrittenName(property); }
      WrittenConcat(Tok(G.Dot), Tok(G.Word(property)));
      WrittenConcat(Render(target, G.CALL), Tok(G.Dot) + Tok(G.Word(property)));
    case Index(base, position) =>
      RenderIsWritten(base, G.CALL);
      RenderIsWritten(position, G.TERNARY);
      WrittenConcat(Render(position, G.TERNARY), Tok(G.RBracket));
      WrittenConcat(Tok(G.LBracket), Render(position, G.TERNARY) + Tok(G.RBracket));
      WrittenConcat(Render(base, G.CALL), Tok(G.LBracket) + (Render(position, G.TERNARY) + Tok(G.RBracket)));
    case _ =>
  }

  lemma WrittenNumber(n: nat)
    requires n <= Scanner.I64_MAX
    ensures Written(Tok(G.Number(n)))
  {
  }

  lemma WrittenText(s: string)
    ensures Written(Tok(G.Text(s)))
  {
  }

  lemma WrittenName(name: string)
    requires IsName(name)
    ensures Written(Tok(G.Word(name)))
  {
    hide IsName;
  }

  lemma WrittenDollar(index: nat)
    requires index <= Scanner.U32_MAX
    ensures Written(Tok(G.Dollar(index)))
  {
  }

  lemma {:induction false} ItemsAreWritten(es: seq<Expr>, close: G.Kind)
    requires AllWritable(es) && AllRenderable(es) && Spellable(close)
    ensures Written(RenderItems(es, close))
    decreases es, 0, 0
  {
    hide Spellable, Written, Render, Writable, Renderable;
    Symbols();
    WrittenTok(close);
    if es != [] {
      RenderIsWritten(es[0], G.TERNARY);
      if |es| == 1 {
        WrittenConcat(Render(es[0], G.TERNARY), Tok(close));
      } else {
        ItemsAreWritten(es[1..], close);
        WrittenConcat(Tok(G.Comma), RenderItems(es[1..], close));
        WrittenConcat(Render(es[0], G.TERNARY), Tok(G.Comma) + RenderItems(es[1..], close));
      }
    }
  }

  // ---------------------------------------------------------------- text and back

  function KindsOf(ts: seq<G.Token>): seq<G.Kind> { seq(|ts|, i requires 0 <= i < |ts| => ts[i].kind) }

  /** A tree as text. */
  function TextOf(e: Expr): string
    requires Renderable(e)
  {
    SpellAll(KindsOf(Render(e, G.TERNARY)))
  }

  /** Lexed tokens as the parser sees them, without positions. */
  function ForParser(ts: seq<Scanner.Token>): seq<G.Token> {
    seq(|ts|, i requires 0 <= i < |ts| => G.Token(Classify(ts[i].kind), 0))
  }

  /** The text of a writable tree lexes, and its tokens parse to exactly that tree. */
  lemma TextRoundTrips(e: Expr)
    requires Writable(e) && Renderable(e)
    ensures var lexed := Lexer.Lex(TextOf(e));
            && lexed.Success? && |lexed.value| == |Render(e, G.TERNARY)| + 2
            && G.ParseExpression(ForParser(lexed.value), 0) == G.Ok(e, |Render(e, G.TERNARY)|)
  {
    hide Writable, Renderable, Render, Spellable, Classify, SpellAll, Lexer.Lex, G.ParseExpression;
    var ts := Render(e, G.TERNARY);
    var kinds := KindsOf(ts);
    RenderIsWritten(e, G.TERNARY);
    SpelledLexes(kinds);
    var lexed := Lexer.Lex(TextOf(e)).value;
    var us := ForParser(lexed);
    forall i | 0 <= i < |ts| ensures us[i] == ts[i] {
      assert kinds[i] == ts[i].kind;
    }
    assert us[0..0 + |ts|] == ts;
    assert RoundTrip.At(us, 0, ts);
    assert G.KindAt(us, |ts|) == G.Eof && G.KindAt(us, |ts| + 1) == G.Eof by { LayoutIsEnd(lexed, |ts|); }
    RoundTrip.ParseSpelled(us, 0, e, G.TERNARY);
  }

  lemma LayoutIsEnd(ts: seq<Scanner.Token>, n: nat)
    requires |ts| == n + 2 && ts[n].kind.Newline? && ts[n + 1].kind.Eof?
    ensures G.KindAt(ForParser(ts), n) == G.Eof && G.KindAt(ForParser(ts), n + 1) == G.Eof
  {
  }

  /** Runs the lexer and the parser over the text of a tree. */
  method ReadBack(e: Expr) returns (r: Result<Expr, G.ParseError>)
    requires Writable(e)
    ensures r == Success(e)
  {
    WritableIsRenderable(e);
    TextRoundTrips(e);
    var lexed := LexLoop.Tokenize(TextOf(e));
    var parser := new Parser.Parser(ForParser(lexed.value));
    r := parser.ParseExpression();
  }

  /** So two trees are never written alike. */
  lemma TextIsInjective(a: Expr, b: Expr)
    requires Writable(a) && Writable(b) && Renderable(a) && Renderable(b) && TextOf(a) == TextOf(b)
    ensures a == b
  {
    hide Writable, Renderable, TextOf, Lexer.Lex, G.ParseExpression;
    TextRoundTrips(a);
    TextRoundTrips(b);
  }
}
