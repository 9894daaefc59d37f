/** Desugaring placeholders into lambdas and pipelines into calls (src/lower.rs). */
module Lowering {
  import opened Ast
  import Integers

  datatype LowerError =
    | PlaceholderAsFunction | PlaceholderLeftOfPipeline | PlaceholderOutsideArgument
    | BadPipelineTarget | MissingPlaceholder(index: nat)

  /** A lowered expression and the indexes of the placeholders it still holds. */
  datatype Lowered = Lowered(expr: Expr, holes: set<nat>)
  datatype LoweredAll = LoweredAll(exprs: seq<Expr>, holes: set<nat>)

  // ---------------------------------------------------------------- measures

  /** How many pipelines an expression contains, anywhere. */
  function Pipes(e: Expr): nat
    decreases e
  {
    match e
    case List(items) => PipesAll(items)
    case Unary(_, operand) => Pipes(operand)
    case Binary(_, left, right) => Pipes(left) + Pipes(right)
    case Ternary(cond, a, b) => Pipes(cond) + Pipes(a) + Pipes(b)
    case Call(callee, args) => Pipes(callee) + PipesAll(args)
    case Member(target, _) => Pipes(target)
    case Index(base, position) => Pipes(base) + Pipes(position)
    case Pipeline(source, stage) => Pipes(source) + Pipes(stage) + 1
    case Throw(thrown) => Pipes(thrown)
    case Lambda(_, body) => Pipes(body)
    case _ => 0
  }

  function PipesAll(es: seq<Expr>): nat
    decreases es
  {
    if es == [] then 0 else Pipes(es[0]) + PipesAll(es[1..])
  }

  // ---------------------------------------------------------------- placeholders

  function Normalize(index: nat): nat { if index == 0 then 1 else index }

  function ArgName(k: nat): string { "_arg" + Integers.Digits(k) }

  function ArgNames(n: nat): (names: seq<string>)
    ensures |names| == n && forall k :: 0 <= k < n ==> names[k] == ArgName(k)
  {
    seq(n, k requires 0 <= k => ArgName(k))
  }

  /** Placeholders become the parameters of the lambda built around them; lambdas keep theirs. */
  function ReplaceHoles(e: Expr): Expr
    decreases e
  {
    match e
    case Placeholder(index) => Identifier(ArgName(Normalize(index) - 1), 0)
    case List(items) => List(ReplaceAllHoles(items))
    case Unary(op, operand) => Unary(op, ReplaceHoles(operand))
    case Binary(op, left, right) => Binary(op, ReplaceHoles(left), ReplaceHoles(right))
    case Ternary(cond, a, b) => Ternary(ReplaceHoles(cond), ReplaceHoles(a), ReplaceHoles(b))
    case Call(callee, args) => Call(ReplaceHoles(callee), ReplaceAllHoles(args))
    case Member(target, property) => Member(ReplaceHoles(target), property)
    case Index(base, position) => Index(ReplaceHoles(base), ReplaceHoles(position))
    case Throw(thrown) => Throw(ReplaceHoles(thrown))
    case _ => e
  }

  function ReplaceAllHoles(es: seq<Expr>): seq<Expr>
    decreases es
  {
    if es == [] then [] else [ReplaceHoles(es[0])] + ReplaceAllHoles(es[1..])
  }

  /** Whether a pipeline stage's argument mentions a placeholder outside lambdas and inner
      pipelines. */
  predicate ContainsHole(e: Expr)
    decreases e
  {
    match e
    case Placeholder(_) => true
    case List(items) => AnyContainsHole(items)
    case Unary(_, operand) => ContainsHole(operand)
    case Binary(_, left, right) => ContainsHole(left) || ContainsHole(right)
    case Ternary(cond, a, b) => ContainsHole(cond) || ContainsHole(a) || ContainsHole(b)
    case Call(callee, args) => ContainsHole(callee) || AnyContainsHole(args)
    case Member(target, _) => ContainsHole(target)
    case Index(base, position) => ContainsHole(base) || ContainsHole(position)
    case Throw(thrown) => ContainsHole(thrown)
    case _ => false
  }

  predicate AnyContainsHole(es: seq<Expr>)
    decreases es
  {
    es != [] && (ContainsHole(es[0]) || AnyContainsHole(es[1..]))
  }

  /** Every such placeholder replaced by the left side of the pipeline. */
  function Fill(e: Expr, left: Expr): Expr
    decreases e
  {
    match e
    case Placeholder(_) => left
    case List(items) => List(FillAll(items, left))
    case Unary(op, operand) => Unary(op, Fill(operand, left))
    case Binary(op, l, r) => Binary(op, Fill(l, left), Fill(r, left))
    case Ternary(cond, a, b) => Ternary(Fill(cond, left), Fill(a, left), Fill(b, left))
    case Call(callee, args) => Call(Fill(callee, left), FillAll(args, left))
    case Member(target, property) => Member(Fill(target, left), property)
    case Index(base, position) => Index(Fill(base, left), Fill(position, left))
    case Throw(thrown) => Throw(Fill(thrown, left))
    case _ => e
  }

  function FillAll(es: seq<Expr>, left: Expr): seq<Expr>
    decreases es
  {
    if es == [] then [] else [Fill(es[0], left)] + FillAll(es[1..], left)
  }

  lemma {:induction false} FillPipes(e: Expr, left: Expr)
    requires Pipes(left) == 0
    ensures Pipes(Fill(e, left)) == Pipes(e)
    decreases e
  {
    match e
    case List(items) => FillAllPipes(items, left);
    case Unary(_, operand) => FillPipes(operand, left);
    case Binary(_, l, r) => FillPipes(l, left); FillPipes(r, left);
    case Ternary(cond, a, b) => FillPipes(cond, left); FillPipes(a, left); FillPipes(b, left);
    case Call(callee, args) => FillPipes(callee, left); FillAllPipes(args, left);
    case Member(target, _) => FillPipes(target, left);
    case Index(base, position) => FillPipes(base, left); FillPipes(position, left);
    case Throw(thrown) => FillPipes(thrown, left);
    case _ =>
  }

  lemma {:induction false} FillAllPipes(es: seq<Expr>, left: Expr)
    requires Pipes(left) == 0
    ensures PipesAll(FillAll(es, left)) == PipesAll(es)
    decreases es
  {
    if es != [] {
      FillPipes(es[0], left);
      FillAllPipes(es[1..], left);
      assert FillAll(es, left)[1..] == FillAll(es[1..], left);
    }
  }

  lemma {:induction false} ReplacePipes(e: Expr)
    ensures Pipes(ReplaceHoles(e)) == Pipes(e)
    decreases e
  {
    match e
    case List(items) => ReplaceAllPipes(items);
    case Unary(_, operand) => ReplacePipes(operand);
    case Binary(_, l, r) => ReplacePipes(l); ReplacePipes(r);
    case Ternary(cond, a, b) => ReplacePipes(cond); ReplacePipes(a); ReplacePipes(b);
    case Call(callee, args) => ReplacePipes(callee); ReplaceAllPipes(args);
    case Member(target, _) => ReplacePipes(target);
    case Index(base, position) => ReplacePipes(base); ReplacePipes(position);
    case Throw(thrown) => ReplacePipes(thrown);
    case _ =>
  }

  lemma {:induction false} ReplaceAllPipes(es: seq<Expr>)
    ensures PipesAll(ReplaceAllHoles(es)) == PipesAll(es)
    decreases es
  {
    if es != [] {
      ReplacePipes(es[0]);
      ReplaceAllPipes(es[1..]);
      assert ReplaceAllHoles(es)[1..] == ReplaceAllHoles(es[1..]);
    }
  }

  ghost predicate IsMax(m: nat, s: set<nat>) { m in s && forall x :: x in s ==> x <= m }

  lemma {:induction false} MaxExists(s: set<nat>)
    requires s != {}
    ensures exists m :: IsMax(m, s)
  {
    var x :| x in s;
    var rest := s - {x};
    if rest == {} {
      assert s == {x};
      assert IsMax(x, s);
    } else {
      MaxExists(rest);
      var m :| IsMax(m, rest);
      assert s == rest + {x};
      assert IsMax(if x <= m then m else x, s);
    }
  }

  /** The largest index; the number of parameters of the lambda. */
  function Max(s: set<nat>): (m: nat)
    requires s != {}
    ensures m in s && forall x :: x in s ==> x <= m
  {
    assert exists m :: m in s && forall x :: x in s ==> x <= m by {
      MaxExists(s);
      var m: nat :| IsMax(m, s);
      assert m in s && forall x :: x in s ==> x <= m;
    }
    var m :| m in s && forall x :: x in s ==> x <= m;
    m
  }

  /** The first index from `k` up to `max` that does not occur. */
  function FirstGap(holes: set<nat>, k: nat, max: nat): (gap: Option<nat>)
    ensures gap.None? <==> forall i :: k <= i <= max ==> i in holes
    ensures gap.Some? ==> k <= gap.value <= max && gap.value !in holes
    decreases max + 1 - k
  {
    if k > max then None
    else if k !in holes then Some(k)
    else FirstGap(holes, k + 1, max)
  }

  /** The lambda that an argument with placeholders stands for. */
  function Wrap(body: Expr, holes: set<nat>): Result<Expr, LowerError>
    requires holes != {}
  {
    var n := Max(holes);
    var gap := FirstGap(holes, 1, n);
    if gap.Some? then Failure(MissingPlaceholder(gap.value))
    else Success(Lambda(ArgNames(n), ReplaceHoles(body)))
  }

  // ---------------------------------------------------------------- lowering

  /** What a pipeline means as a call, once its left side is lowered. */
  function Desugar(left: Expr, stage: Expr): Result<Expr, LowerError> {
    match stage
    case Call(callee, args) =>
      Success(Call(callee, if AnyContainsHole(args) then FillAll(args, left) else [left] + args))
    case Identifier(_, _) => Success(Call(stage, [left]))
    case _ => Failure(BadPipelineTarget)
  }

  lemma DesugarPipes(left: Expr, stage: Expr)
    requires Pipes(left) == 0 && Desugar(left, stage).Success?
    ensures Pipes(Desugar(left, stage).value) == Pipes(stage)
  {
    if stage.Call? {
      FillAllPipes(stage.args, left);
      assert ([left] + stage.args)[1..] == stage.args;
    } else {
      assert PipesAll([left]) == Pipes(left) + PipesAll([left][1..]);
    }
  }

  function Lower(e: Expr): (r: Result<Lowered, LowerError>)
    ensures r.Success? ==> Pipes(r.value.expr) == 0
    decreases Pipes(e), e, 0
  {
    match e
    case Placeholder(index) => Success(Lowered(e, {Normalize(index)}))
    case Unary(op, operand) =>
      var x := Lower(operand);
      if x.Failure? then x else Success(Lowered(Unary(op, x.value.expr), x.value.holes))
    case Throw(thrown) =>
      var x := Lower(thrown);
      if x.Failure? then x else Success(Lowered(Throw(x.value.expr), x.value.holes))
    case Member(target, property) =>
      var x := Lower(target);
      if x.Failure? then x else Success(Lowered(Member(x.value.expr, property), x.value.holes))
    case Binary(op, left, right) =>
      var l := Lower(left);
      if l.Failure? then l
      else
        var r := Lower(right);
        if r.Failure? then r
        else Success(Lowered(Binary(op, l.value.expr, r.value.expr), l.value.holes + r.value.holes))
    case Index(base, position) =>
      var b := Lower(base);
      if b.Failure? then b
      else
        var p := Lower(position);
        if p.Failure? then p
        else Success(Lowered(Index(b.value.expr, p.value.expr), b.value.holes + p.value.holes))
    case Ternary(cond, x, y) =>
      var c := Lower(cond);
      if c.Failure? then c
      else
        var a := Lower(x);
        if a.Failure? then a
        else
          var b := Lower(y);
          if b.Failure? then b
          else Success(Lowered(Ternary(c.value.expr, a.value.expr, b.value.expr),
                               c.value.holes + a.value.holes + b.value.holes))
    case List(items) =>
      var xs := LowerAll(items);
      if xs.Failure? then Failure(xs.error) else Success(Lowered(List(xs.value.exprs), xs.value.holes))
    case Lambda(params, body) =>
      var b := Lower(body);
      if b.Failure? then b
      else if b.value.holes != {} then Failure(PlaceholderOutsideArgument)
      else Success(Lowered(Lambda(params, b.value.expr), {}))
    case Call(callee, args) =>
      var f := Lower(callee);
      if f.Failure? then f
      else if f.value.holes != {} then Failure(PlaceholderAsFunction)
      else
        var xs := LowerArgs(args);
        if xs.Failure? then Failure(xs.error) else Success(Lowered(Call(f.value.expr, xs.value), {}))
    case Pipeline(source, stage) =>
      var l := Lower(source);
      if l.Failure? then l
      else if l.value.holes != {} then Failure(PlaceholderLeftOfPipeline)
      else
        var d := Desugar(l.value.expr, stage);
        if d.Failure? then Failure(d.error)
        else
          DesugarPipes(l.value.expr, stage);
          Lower(d.value)
    case _ => Success(Lowered(e, {}))
  }

  function LowerAll(es: seq<Expr>): (r: Result<LoweredAll, LowerError>)
    ensures r.Success? ==> PipesAll(r.value.exprs) == 0 && |r.value.exprs| == |es|
    decreases PipesAll(es), es, 0
  {
    if es == [] then Success(LoweredAll([], {}))
    else
      var x := Lower(es[0]);
      if x.Failure? then Failure(x.error)
      else
        var xs := LowerAll(es[1..]);
        if xs.Failure? then xs
        else
          assert ([x.value.expr] + xs.value.exprs)[1..] == xs.value.exprs;
          Success(LoweredAll([x.value.expr] + xs.value.exprs, x.value.holes + xs.value.holes))
  }

  function LowerArg(arg: Expr): (r: Result<Expr, LowerError>)
    ensures r.Success? ==> Pipes(r.value) == 0
    decreases Pipes(arg), arg, 1
  {
    var x := Lower(arg);
    if x.Failure? then Failure(x.error)
    else if x.value.holes == {} then Success(x.value.expr)
    else
      ReplacePipes(x.value.expr);
      Wrap(x.value.expr, x.value.holes)
  }

  function LowerArgs(args: seq<Expr>): (r: Result<seq<Expr>, LowerError>)
    ensures r.Success? ==> PipesAll(r.value) == 0 && |r.value| == |args|
    decreases PipesAll(args), args, 0
  {
    if args == [] then Success([])
    else
      var x := LowerArg(args[0]);
      if x.Failure? then Failure(x.error)
      else
        var xs := LowerArgs(args[1..]);
        if xs.Failure? then xs
        else
          assert ([x.value] + xs.value)[1..] == xs.value;
          Success([x.value] + xs.value)
  }

  /** What statements accept: no placeholder may be left. */
  function LowerClosed(e: Expr): Result<Expr, LowerError> {
    var x := Lower(e);
    if x.Failure? then Failure(x.error)
    else if x.value.holes != {} then Failure(PlaceholderOutsideArgument)
    else Success(x.value.expr)
  }

  // ---------------------------------------------------------------- the loops

  /** Arguments already lowered, before what the rest adds. */
  ghost function Prepend(done: seq<Expr>, rest: Result<seq<Expr>, LowerError>): Result<seq<Expr>, LowerError> {
    if rest.Success? then Success(done + rest.value) else rest
  }

  /** The argument loop of `lower_call`. */
  method LowerCallArguments(args: seq<Expr>) returns (r: Result<seq<Expr>, LowerError>)
    ensures r == LowerArgs(args)
  {
    hide Lower, ReplaceHoles, Pipes, PipesAll, Wrap;
    var lowered: seq<Expr> := [];
    var i := 0;
    ghost var whole := LowerArgs(args);
    assert args[0..] == args && (whole.Success? ==> [] + whole.value == whole.value);
    while i < |args|
      invariant 0 <= i <= |args|
      invariant whole == Prepend(lowered, LowerArgs(args[i..]))
    {
      ghost var rest := LowerArgs(args[i + 1..]);
      assert args[i..][1..] == args[i + 1..];
      var x := Lower(args[i]);
      if x.Failure? { return Failure(x.error); }
      var arg := x.value.expr;
      if x.value.holes != {} {
        var wrapped := WrapPlaceholderLambda(x.value.expr, x.value.holes);
        if wrapped.Failure? { return Failure(wrapped.error); }
        arg := wrapped.value;
      }
      assert LowerArg(args[i]) == Success(arg);
      assert rest.Success? ==> lowered + ([arg] + rest.value) == lowered + [arg] + rest.value;
      lowered := lowered + [arg];
      i := i + 1;
    }
    assert lowered + [] == lowered;
    r := Success(lowered);
  }

  ghost function PrependAll(done: seq<Expr>, holes: set<nat>, rest: Result<LoweredAll,
                            LowerError>): Result<LoweredAll, LowerError> {
    if rest.Success? then Success(LoweredAll(done + rest.value.exprs, holes + rest.value.holes)) else rest
  }

  method LowerCollection(items: seq<Expr>) returns (r: Result<LoweredAll, LowerError>)
    ensures r == LowerAll(items)
  {
    var lowered: seq<Expr> := [];
    var holes: set<nat> := {};
    var i := 0;
    ghost var whole := LowerAll(items);
    assert items[0..] == items;
    assert whole.Success? ==>
             [] + whole.value.exprs == whole.value.exprs && {} + whole.value.holes == whole.value.holes;
    while i < |items|
      invariant 0 <= i <= |items|
      invariant whole == PrependAll(lowered, holes, LowerAll(items[i..]))
    {
      ghost var rest := LowerAll(items[i + 1..]);
      assert items[i..][1..] == items[i + 1..];
      var x := Lower(items[i]);
      if x.Failure? { return Failure(x.error); }
      ghost var h, e := x.value.holes, x.value.expr;
      assert rest.Success? ==> lowered + ([e] + rest.value.exprs) == lowered + [e] + rest.value.exprs;
      assert rest.Success? ==> holes + (h + rest.value.holes) == holes + h + rest.value.holes;
      holes := holes + x.value.holes;
      lowered := lowered + [x.value.expr];
      i := i + 1;
    }
    assert lowered + [] == lowered && holes + {} == holes;
    r := Success(LoweredAll(lowered, holes));
  }

  /** Checks that the indexes have no gap, then builds the parameters. */
  method WrapPlaceholderLambda(body: Expr, holes: set<nat>) returns (r: Result<Expr, LowerError>)
    requires holes != {}
    ensures r == Wrap(body, holes)
  {
    var n := Max(holes);
    var expected := 1;
    while expected <= n
      invariant 1 <= expected <= n + 1
      invariant FirstGap(holes, 1, n) == FirstGap(holes, expected, n)
    {
      if expected !in holes { return Failure(MissingPlaceholder(expected)); }
      expected := expected + 1;
    }
    var names: seq<string> := [];
    var k := 0;
    while k < n
      invariant 0 <= k <= n && names == ArgNames(k)
    {
      names := names + [ArgName(k)];
      k := k + 1;
    }
    r := Success(Lambda(names, ReplaceHoles(body)));
  }
}
