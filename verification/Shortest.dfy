/** Rendering is minimal: no token sequence that parses to a tree is shorter than the one
    the printer writes for it. */
module Shortest {
  import opened Ast
  import opened Grammar
  import opened Printer
  import opened RoundTrip

  lemma {:induction false} RenderWidth(e: Expr, k: nat)
    requires Renderable(e)
    ensures |Render(e, k)| == Width(e, k)
    decreases e, Pending(e, k)
  {
    hide OpLevel;
    if k > Level(e) {
      RenderWidth(e, TERNARY);
    } else {
      match e
      case List(items) => ItemsRenderWidth(items, RBracket);
      case Unary(_, operand) => RenderWidth(operand, UNARY);
      case Binary(op, left, right) => RenderWidth(left, OpLevel(op)); RenderWidth(right, OpLevel(op) + 1);
      case Pipeline(left, right) => RenderWidth(left, PIPELINE); RenderWidth(right, PIPELINE + 1);
      case Ternary(c, a, b) => RenderWidth(c, PIPELINE); RenderWidth(a, PIPELINE); RenderWidth(b, TERNARY);
      case Call(callee, args) => RenderWidth(callee, CalleeLevel(callee)); ItemsRenderWidth(args, RParen);
      case Member(target, _) => RenderWidth(target, CALL);
      case Index(base, position) => RenderWidth(base, CALL); RenderWidth(position, TERNARY);
      case _ =>
    }
  }

  lemma {:induction false} ItemsRenderWidth(es: seq<Expr>, close: Kind)
    requires AllRenderable(es)
    ensures |RenderItems(es, close)| == ItemsWidth(es)
    decreases es, 0
  {
    if es != [] {
      RenderWidth(es[0], TERNARY);
      if |es| > 1 { ItemsRenderWidth(es[1..], close); }
    }
  }

  lemma WidthGrows(e: Expr, k: nat, m: nat)
    requires k <= m
    ensures Width(e, k) <= Width(e, m) <= Width(e, TERNARY) + 2
  {
    if k <= Level(e) { SameWidth(e, k); }
    if m <= Level(e) { SameWidth(e, m); }
  }

  lemma SameWidth(e: Expr, k: nat)
    requires k <= Level(e)
    ensures Width(e, k) == Width(e, TERNARY)
  {
  }

  ghost predicate Fits(r: Parsed, start: nat, k: nat) {
    r.Ok? ==> Renderable(r.e) && start + Width(r.e, k) <= r.next
  }

  ghost predicate AllFit(r: ParsedAll, start: nat) {
    r.OkAll? ==> AllRenderable(r.es) && start + ItemsWidth(r.es) <= r.next
  }

  lemma TernaryWidth(c: Expr, a: Expr, b: Expr)
    requires Renderable(c) && Renderable(a) && Renderable(b)
    ensures Renderable(Ternary(c, a, b))
    ensures Width(Ternary(c, a, b), TERNARY) == Width(c, PIPELINE) + 1 + Width(a, PIPELINE) + 1 + Width(b, TERNARY)
  {
  }

  lemma {:induction false} ExpressionFits(ts: seq<Token>, i: nat)
    requires i <= |ts|
    ensures Fits(ParseExpression(ts, i), i, TERNARY)
    decreases |ts| - i, 20
  {
    hide ParseLadder, Width, Renderable;
    LadderFits(ts, i, PIPELINE);
    var c := ParseLadder(ts, i, PIPELINE);
    if c.Ok? {
      WidthGrows(c.e, TERNARY, PIPELINE);
      if KindAt(ts, c.next).Question? {
        LadderFits(ts, c.next + 1, PIPELINE);
        var a := ParseLadder(ts, c.next + 1, PIPELINE);
        if a.Ok? && KindAt(ts, a.next).Bang? {
          ExpressionFits(ts, a.next + 1);
          var b := ParseExpression(ts, a.next + 1);
          if b.Ok? { TernaryWidth(c.e, a.e, b.e); }
        }
      }
    }
  }

  lemma {:induction false} LadderFits(ts: seq<Token>, i: nat, k: nat)
    requires i <= |ts| && PIPELINE <= k <= UNARY
    ensures Fits(ParseLadder(ts, i, k), i, k)
    decreases |ts| - i, 19 - k
  {
    hide ParseUnary;
    if k == UNARY {
      UnaryFits(ts, i);
    } else {
      LadderFits(ts, i, k + 1);
      var first := ParseLadder(ts, i, k + 1);
      if first.Ok? {
        WidthGrows(first.e, k, k + 1);
        RestFits(ts, first.e, first.next, k, i);
      }
    }
  }

  lemma BinaryWidth(op: BinaryOp, left: Expr, right: Expr)
    ensures var k := OpLevel(op);
            Width(Binary(op, left, right), k) == Width(left, k) + 1 + Width(right, k + 1)
  {
    hide OpLevel;
  }

  lemma PipelineWidth(left: Expr, right: Expr)
    ensures Width(Pipeline(left, right), PIPELINE) == Width(left, PIPELINE) + 1 + Width(right, PIPELINE + 1)
  {
  }

  lemma JoinWidth(kind: Kind, left: Expr, right: Expr)
    requires JoinLevel(kind) > TERNARY && Renderable(left) && Renderable(right)
    ensures var k := JoinLevel(kind);
            && Renderable(Join(kind, left, right))
            && Width(Join(kind, left, right), k) == Width(left, k) + 1 + Width(right, k + 1)
  {
    hide Width, OpLevel;
    PipelineWidth(left, right);
    if kind.Op? { BinaryWidth(kind.op, left, right); }
  }

  lemma {:induction false} RestFits(ts: seq<Token>, acc: Expr, i: nat, k: nat, start: nat)
    requires i <= |ts| && PIPELINE <= k < UNARY && Renderable(acc) && start + Width(acc, k) <= i
    ensures Fits(ParseRest(ts, acc, i, k), start, k)
    decreases |ts| - i, 21
  {
    hide ParseLadder, Width, Renderable, Join;
    if JoinLevel(KindAt(ts, i)) == k {
      LadderFits(ts, i + 1, k + 1);
      var rhs := ParseLadder(ts, i + 1, k + 1);
      if rhs.Ok? {
        JoinWidth(KindAt(ts, i), acc, rhs.e);
        RestFits(ts, Join(KindAt(ts, i), acc, rhs.e), rhs.next, k, start);
      }
    }
  }

  lemma {:induction false} UnaryFits(ts: seq<Token>, i: nat)
    requires i <= |ts|
    ensures Fits(ParseUnary(ts, i), i, UNARY)
    decreases |ts| - i, 6
  {
    hide ParseCall;
    var kind := KindAt(ts, i);
    if kind == Op(Sub) || kind.Bang? {
      UnaryFits(ts, i + 1);
    } else {
      CallFits(ts, i);
      var r := ParseCall(ts, i);
      if r.Ok? { WidthGrows(r.e, UNARY, CALL); }
    }
  }

  lemma {:induction false} CallFits(ts: seq<Token>, i: nat)
    requires i <= |ts|
    ensures Fits(ParseCall(ts, i), i, CALL)
    decreases |ts| - i, 5
  {
    hide ParsePrimary, ParsePostfix;
    PrimaryFits(ts, i);
    var p := ParsePrimary(ts, i);
    if p.Ok? {
      WidthGrows(p.e, CALL, PRIMARY);
      PostfixFits(ts, p.e, p.next, i);
    }
  }

  /** A bare word `map` is never followed by an opening parenthesis. */
  ghost predicate MapGuarded(ts: seq<Token>, e: Expr, start: nat, i: nat) {
    IsMapName(e) ==> start + 3 <= i || !KindAt(ts, i).LParen?
  }

  lemma CalleeFits(ts: seq<Token>, e: Expr, start: nat, i: nat)
    requires Renderable(e) && start + Width(e, CALL) <= i && MapGuarded(ts, e, start, i) && KindAt(ts, i).LParen?
    ensures start + Width(e, CalleeLevel(e)) <= i
  {
    if IsMapName(e) { assert Width(e, GROUP) == 3; }
  }

  lemma PropertyIsToken(ts: seq<Token>, i: nat)
    ensures PropertyName(KindAt(ts, i)).Some? ==> i < |ts|
  {
  }

  /** How wide the three postfix forms are. */
  lemma PostfixWidths(acc: Expr)
    requires Renderable(acc)
    ensures forall args :: AllRenderable(args) ==>
              Renderable(Call(acc, args))
              && Width(Call(acc, args), CALL) == Width(acc, CalleeLevel(acc)) + 1 + ItemsWidth(args)
    ensures forall name :: Renderable(Member(acc, name)) && Width(Member(acc, name), CALL) == Width(acc, CALL) + 2
    ensures forall position :: Renderable(position) ==>
              Renderable(Index(acc, position))
              && Width(Index(acc, position), CALL) == Width(acc, CALL) + 1 + Width(position, TERNARY) + 1
  {
  }

  lemma {:induction false} PostfixFits(ts: seq<Token>, acc: Expr, i: nat, start: nat)
    requires i <= |ts| && Renderable(acc) && start + Width(acc, CALL) <= i && MapGuarded(ts, acc, start, i)
    ensures Fits(ParsePostfix(ts, acc, i), start, CALL)
    decreases |ts| - i, 21
  {
    hide ParseArguments, ParseExpression, PropertyName, Width, Renderable, AllRenderable, ItemsWidth;
    PostfixWidths(acc);
    match KindAt(ts, i)
    case LParen =>
      ArgumentsFit(ts, i + 1);
      CalleeFits(ts, acc, start, i);
      var args := ParseArguments(ts, i + 1);
      if args.OkAll? { PostfixFits(ts, Call(acc, args.es), args.next, start); }
    case Dot =>
      var name := PropertyName(KindAt(ts, i + 1));
      PropertyIsToken(ts, i + 1);
      if name.Some? { PostfixFits(ts, Member(acc, name.value), i + 2, start); }
    case LBracket =>
      ExpressionFits(ts, i + 1);
      var index := ParseExpression(ts, i + 1);
      if index.Ok? && KindAt(ts, index.next).RBracket? {
        PostfixFits(ts, Index(acc, index.e), index.next + 1, start);
      }
    case _ =>
  }

  lemma {:induction false} ArgumentsFit(ts: seq<Token>, i: nat)
    requires i <= |ts|
    ensures AllFit(ParseArguments(ts, i), i)
    decreases |ts| - i, 22
  {
    hide ParseItems;
    if !KindAt(ts, i).RParen? { ItemsFit(ts, i, RParen); }
  }

  lemma ConsWidth(e: Expr, es: seq<Expr>)
    requires Renderable(e) && AllRenderable(es)
    ensures AllRenderable([e] + es)
    ensures ItemsWidth([e] + es) == Width(e, TERNARY) + if es == [] then 1 else 1 + ItemsWidth(es)
  {
    assert ([e] + es)[1..] == es;
  }

  lemma {:induction false} ItemsFit(ts: seq<Token>, i: nat, close: Kind)
    requires i <= |ts| && !close.Eof?
    ensures AllFit(ParseItems(ts, i, close), i)
    decreases |ts| - i, 21
  {
    hide ParseExpression, Width, Renderable, ItemsWidth, AllRenderable;
    ExpressionFits(ts, i);
    var head := ParseExpression(ts, i);
    if head.Ok? {
      ConsWidth(head.e, []);
      assert [head.e] + [] == [head.e];
      if KindAt(ts, head.next).Comma? {
        ItemsFit(ts, head.next + 1, close);
        var tail := ParseItems(ts, head.next + 1, close);
        if tail.OkAll? { ConsWidth(head.e, tail.es); }
      }
    }
  }

  lemma {:induction false} TupleFits(ts: seq<Token>, i: nat)
    requires i <= |ts|
    ensures AllFit(ParseTuple(ts, i), i)
    decreases |ts| - i, 21
  {
    hide ParseExpression;
    if !KindAt(ts, i).RParen? {
      ExpressionFits(ts, i);
      var head := ParseExpression(ts, i);
      if head.Ok? {
        ConsWidth(head.e, []);
        assert [head.e] + [] == [head.e];
        if KindAt(ts, head.next).Comma? {
          TupleFits(ts, head.next + 1);
          var tail := ParseTuple(ts, head.next + 1);
          if tail.OkAll? { ConsWidth(head.e, tail.es); }
        }
      }
    }
  }

  lemma {:induction false} PrimaryFits(ts: seq<Token>, i: nat)
    requires i <= |ts|
    ensures Fits(ParsePrimary(ts, i), i, PRIMARY)
    ensures var r := ParsePrimary(ts, i); r.Ok? ==> MapGuarded(ts, r.e, i, r.next)
    decreases |ts| - i, 4
  {
    hide ParseParens, ParseItems;
    match KindAt(ts, i)
    case LParen => ParensFit(ts, i + 1);
    case LBracket => if !KindAt(ts, i + 1).RBracket? { ItemsFit(ts, i + 1, RBracket); }
    case _ =>
  }

  lemma {:induction false} ParensFit(ts: seq<Token>, i: nat)
    requires 0 < i <= |ts|
    ensures Fits(ParseParens(ts, i), i - 1, PRIMARY)
    ensures var r := ParseParens(ts, i); r.Ok? && IsMapName(r.e) ==> i + 2 <= r.next
    decreases |ts| - i, 21
  {
    hide ParseExpression, ParseTuple;
    if !KindAt(ts, i).RParen? {
      ExpressionFits(ts, i);
      var first := ParseExpression(ts, i);
      if first.Ok? {
        WidthGrows(first.e, TERNARY, PRIMARY);
        if KindAt(ts, first.next).Comma? {
          TupleFits(ts, first.next + 1);
          var rest := ParseTuple(ts, first.next + 1);
          if rest.OkAll? { ConsWidth(first.e, rest.es); }
        }
      }
    }
  }

  /** Whatever parses completely has a tree the printer can write, in no more tokens, and
      what it writes parses to the same tree. */
  lemma RenderIsShortest(ts: seq<Token>, e: Expr)
    requires ParseExpression(ts, 0) == Ok(e, |ts|)
    ensures Renderable(e) && |Render(e, TERNARY)| <= |ts|
    ensures ParseExpression(Render(e, TERNARY), 0) == Ok(e, |Render(e, TERNARY)|)
  {
    hide ParseExpression, Render;
    ExpressionFits(ts, 0);
    RenderWidth(e, TERNARY);
    ParseUndoesRender(e);
  }
}
