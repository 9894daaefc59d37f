/** Capture is all that can go wrong: lowering keeps the meaning of an expression in every
    semantics exactly when no name is captured. One semantics decides, in which values are
    terms: its operations are injective, and a function is known by what it makes of two
    different atoms, so a captured name would have to equal both. */
module LoweringCapture {
  import opened Ast
  import opened Lowering
  import opened LoweringResidue
  import opened LoweringMeaning

  datatype Term =
    | Constant(e: Expr)
    | Global(name: string)
    | Hole(index: nat)
    | ListOf(items: seq<Term>)
    | UnaryOf(uop: UnaryOp, operand: Term)
    | BinaryOf(op: BinaryOp, left: Term, right: Term)
    | TernaryOf(cond: Term, a: Term, b: Term)
    | CallOf(callee: Term, args: seq<Term>)
    | MemberOf(target: Term, property: string)
    | IndexOf(base: Term, position: Term)
    | ThrowOf(thrown: Term)
    | Function(arity: nat, atZeros: Term, atOnes: Term)
    | Zero
    | One

  function Zeros(n: nat): (vs: seq<Term>)
    ensures |vs| == n && forall k :: 0 <= k < n ==> vs[k] == Zero
  {
    seq(n, k => Zero)
  }

  function Ones(n: nat): (vs: seq<Term>)
    ensures |vs| == n && forall k :: 0 <= k < n ==> vs[k] == One
  {
    seq(n, k => One)
  }

  function Terms(): Semantics<Term> {
    Semantics(e => Constant(e), name => Global(name), k => Hole(k), xs => ListOf(xs), (op, x) => UnaryOf(op, x),
              (op, x, y) => BinaryOf(op, x, y), (x, y, z) => TernaryOf(x, y, z), (f, xs) => CallOf(f, xs),
              (x, name) => MemberOf(x, name), (x, y) => IndexOf(x, y), x => ThrowOf(x),
              (n: nat, f: seq<Term> -> Term) => Function(n, f(Zeros(n)), f(Ones(n))))
  }

  lemma TermsAreExtensional()
    ensures Extensional(Terms())
  {
  }

  ghost function Mean(e: Expr, env: Env<Term>, reading: Reading<Term>): Term { Den(e, env, reading, Terms()) }

  function Lookup(env: Env<Term>, name: string): Term { if name in env then env[name] else Global(name) }

  /** The two environments give these names the same meaning. */
  ghost predicate Alike(names: set<string>, x: Env<Term>, y: Env<Term>) {
    forall name :: name in names ==> Lookup(x, name) == Lookup(y, name)
  }

  lemma HeadsAndTails<T>(x: T, xs: seq<T>, y: T, ys: seq<T>)
    requires [x] + xs == [y] + ys
    ensures x == y && xs == ys
  {
    assert ([x] + xs)[0] == x && ([y] + ys)[0] == y;
    assert ([x] + xs)[1..] == xs && ([y] + ys)[1..] == ys;
  }

  // ---------------------------------------------------------------- what lowered pipelines are

  lemma LowerCallStep(callee: Expr, args: seq<Expr>)
    requires Lower(Call(callee, args)).Success?
    ensures Lower(callee).Success? && LowerArgs(args).Success?
    ensures Lower(Call(callee, args)).value.expr == Call(Lower(callee).value.expr, LowerArgs(args).value)
  {
  }

  lemma LowerClosedFirst(left: Expr, args: seq<Expr>)
    requires Normal(left) && AllHoles(left) == {} && LowerArgs([left] + args).Success?
    ensures LowerArgs(args).Success? && LowerArgs([left] + args).value == [left] + LowerArgs(args).value
  {
    hide Lower, Wrap, Normal, AllHoles;
    LowerKeepsNormal(left);
    assert ([left] + args)[1..] == args;
  }

  /** What a pipeline lowers to is what its call lowers to, around a lowered left side. */
  lemma PipelineLowers(source: Expr, stage: Expr)
    requires Lower(Pipeline(source, stage)).Success?
    ensures Lower(source).Success? && Normal(Lower(source).value.expr) && AllHoles(Lower(source).value.expr) == {}
    ensures var d := Desugar(Lower(source).value.expr, stage);
            d.Success? && Lower(Pipeline(source, stage)) == Lower(d.value)
  {
    hide Lower, Desugar, Normal, AllHoles;
    LowerPipelineStep(source, stage);
    LowerIsNormal(source);
  }

  lemma LoweredNameStage(source: Expr, stage: Expr)
    requires stage.Identifier? && Lower(Pipeline(source, stage)).Success?
    ensures Lower(source).Success?
    ensures Lower(Pipeline(source, stage)).value.expr == Call(stage, [Lower(source).value.expr])
  {
    hide Normal, AllHoles, LowerArgs;
    PipelineLowers(source, stage);
    var left := Lower(source).value.expr;
    LowerCallStep(stage, [left]);
    assert [left] + [] == [left];
    LowerClosedFirst(left, []);
    assert LowerArgs([]) == Success([]) by { LowerNothing(); }
  }

  lemma LowerNothing()
    ensures LowerArgs([]) == Success([])
  {
  }

  lemma LoweredCallStage(source: Expr, stage: Expr)
    requires stage.Call? && Lower(Pipeline(source, stage)).Success?
    ensures Lower(source).Success? && Lower(stage.callee).Success?
    ensures Normal(Lower(source).value.expr) && AllHoles(Lower(source).value.expr) == {}
    ensures var left, lowered := Lower(source).value.expr, Lower(Pipeline(source, stage)).value.expr;
            var args := LowerArgs(if AnyContainsHole(stage.args) then FillAll(stage.args, left) else stage.args);
            && args.Success?
            && lowered == Call(Lower(stage.callee).value.expr,
                               if AnyContainsHole(stage.args) then args.value else [left] + args.value)
  {
    hide Normal, AllHoles, LowerArgs, Lower, FillAll, AnyContainsHole;
    PipelineLowers(source, stage);
    var left := Lower(source).value.expr;
    LowerCallStep(stage.callee, Desugar(left, stage).value.args);
    if !AnyContainsHole(stage.args) { LowerClosedFirst(left, stage.args); }
  }

  // ---------------------------------------------------------------- equal meanings need hygiene

  /** If an expression, lowered, means in one environment what it meant in another, then it
      captures no name and the environments agree on the names it reads. */
  lemma {:induction false} Reflects(e: Expr, x: Env<Term>, y: Env<Term>, reading: Reading<Term>)
    requires Lower(e).Success? && !reading.Piped?
    requires Mean(Lower(e).value.expr, y, reading) == Mean(e, x, reading)
    ensures Hygienic(e, false) && Alike(Free(e), x, y)
    decreases e, 1
  {
    hide ReplaceHoles, Fill, Wrap, Desugar, Normal, DirectHoles, Uncaptured, DenArg, LowerArgs;
    match e
    case List(items) => ReflectsAll(items, x, y, reading);
    case Unary(_, operand) => Reflects(operand, x, y, reading);
    case Binary(_, left, right) => TwoReflect(e, left, right, x, y, reading);
    case Ternary(cond, a, b) =>
      Reflects(cond, x, y, reading);
      Reflects(a, x, y, reading);
      Reflects(b, x, y, reading);
    case Call(callee, args) =>
      Reflects(callee, x, y, Unread);
      ReflectsArgs(args, x, y);
    case Member(target, _) => Reflects(target, x, y, reading);
    case Index(base, position) => TwoReflect(e, base, position, x, y, reading);
    case Throw(thrown) => Reflects(thrown, x, y, reading);
    case Lambda(_, _) => LambdaReflects(e, x, y, reading);
    case Pipeline(_, _) => PipelineReflects(e, x, y, reading);
    case _ =>
  }

  lemma {:induction false} TwoReflect(e: Expr, a: Expr, b: Expr, x: Env<Term>, y: Env<Term>, reading: Reading<Term>)
    requires (e.Binary? && a == e.left && b == e.right) || (e.Index? && a == e.base && b == e.position)
    requires Lower(e).Success? && !reading.Piped?
    requires Mean(Lower(e).value.expr, y, reading) == Mean(e, x, reading)
    ensures Hygienic(e, false) && Alike(Free(e), x, y)
    decreases e, 0
  {
    hide ReplaceHoles, Fill, Wrap, Desugar, Normal, DirectHoles, Uncaptured, DenArg, DenArgs, DenAll, LowerAll,
         LowerArgs, Bind;
    Reflects(a, x, y, reading);
    Reflects(b, x, y, reading);
  }

  lemma {:induction false} LambdaReflects(e: Expr, x: Env<Term>, y: Env<Term>, reading: Reading<Term>)
    requires e.Lambda? && Lower(e).Success? && !reading.Piped?
    requires Mean(Lower(e).value.expr, y, reading) == Mean(e, x, reading)
    ensures Hygienic(e, false) && Alike(Free(e), x, y)
    decreases e, 0
  {
    var params, body := e.params, e.body;
    var vs := Zeros(|params|);
    var x', y' := Bind(x, params, vs), Bind(y, params, vs);
    assert Mean(Lower(body).value.expr, y', Unread) == Mean(body, x', Unread);
    Reflects(body, x', y', Unread);
    forall name | name in Free(e) ensures Lookup(x, name) == Lookup(y, name) {
      BindKeepsOthers(x, params, vs, name);
      BindKeepsOthers(y, params, vs, name);
      assert Lookup(x', name) == Lookup(y', name);
    }
  }

  lemma {:induction false} ReflectsAll(es: seq<Expr>, x: Env<Term>, y: Env<Term>, reading: Reading<Term>)
    requires LowerAll(es).Success? && !reading.Piped?
    requires DenAll(LowerAll(es).value.exprs, y, reading, Terms()) == DenAll(es, x, reading, Terms())
    ensures AllHygienic(es, false) && Alike(FreeOfAll(es), x, y)
    decreases es, 0
  {
    hide Den, Lower;
    if es != [] {
      var lowered := LowerAll(es).value.exprs;
      assert lowered[1..] == LowerAll(es[1..]).value.exprs;
      HeadsAndTails(Mean(lowered[0], y, reading), DenAll(lowered[1..], y, reading, Terms()),
                    Mean(es[0], x, reading), DenAll(es[1..], x, reading, Terms()));
      Reflects(es[0], x, y, reading);
      ReflectsAll(es[1..], x, y, reading);
    }
  }

  lemma {:induction false} ReflectsArgs(args: seq<Expr>, x: Env<Term>, y: Env<Term>)
    requires LowerArgs(args).Success?
    requires DenArgs(LowerArgs(args).value, y, Terms()) == DenArgs(args, x, Terms())
    ensures AllHygienic(args, false) && AllUncaptured(args) && Alike(FreeOfAll(args), x, y)
    decreases args, 0
  {
    hide Den, DenArg, LowerArg, Lower, Uncaptured;
    if args != [] {
      var lowered := LowerArgs(args).value;
      assert lowered[1..] == LowerArgs(args[1..]).value;
      HeadsAndTails(DenArg(lowered[0], y, Terms()), DenArgs(lowered[1..], y, Terms()),
                    DenArg(args[0], x, Terms()), DenArgs(args[1..], x, Terms()));
      ArgReflects(args[0], x, y);
      ReflectsArgs(args[1..], x, y);
    }
  }

  lemma ArgLowers(arg: Expr)
    requires LowerArg(arg).Success?
    ensures Lower(arg).Success?
  {
  }

  /** The body of the lambda built for an argument, given `vs`. */
  lemma WrappedMeans(arg: Expr, y: Env<Term>, vs: seq<Term>)
    requires LowerArg(arg).Success? && DirectHoles(arg) != {} && |vs| == Max(DirectHoles(arg))
    ensures Lower(arg).Success?
    ensures var x := Lower(arg).value.expr;
            var wrapped := Bind(y, ArgNames(|vs|), vs);
            Mean(ReplaceHoles(x), wrapped, Unread) == Mean(x, wrapped, Params(vs))
  {
    hide ReplaceHoles, Normal, Den, Lower, Free, Bind, DirectHoles, LowerArg, Lowerable;
    assert Lower(arg).Success? by { ArgLowers(arg); }
    LowerSucceedsExactly(arg);
    LowerIsNormal(arg);
    var x := Lower(arg).value.expr;
    NormalHoles(x);
    var wrapped := Bind(y, ArgNames(|vs|), vs);
    forall k | 0 <= k < |vs| ensures ArgName(k) in wrapped && wrapped[ArgName(k)] == vs[k] {
      BindReadsArg(y, |vs|, vs, k);
    }
    TermsAreExtensional();
    WrappedBodyMeaning(x, wrapped, wrapped, vs, Terms());
  }

  /** What the two functions make of `vs`. */
  lemma FunctionsAgree(arg: Expr, x: Env<Term>, y: Env<Term>, n: nat)
    requires LowerArg(arg).Success? && DirectHoles(arg) != {} && n == Max(DirectHoles(arg))
    requires DenArg(LowerArg(arg).value, y, Terms()) == DenArg(arg, x, Terms())
    ensures var body := ReplaceHoles(Lower(arg).value.expr);
            && Mean(body, Bind(y, ArgNames(n), Zeros(n)), Unread) == Mean(arg, x, Params(Zeros(n)))
            && Mean(body, Bind(y, ArgNames(n), Ones(n)), Unread) == Mean(arg, x, Params(Ones(n)))
  {
    hide ReplaceHoles, Normal, Lower, Free;
    LowerSucceedsExactly(arg);
    LowerIsNormal(arg);
    var body := ReplaceHoles(Lower(arg).value.expr);
    assert LowerArg(arg).value == Lambda(ArgNames(n), body);
    DenOfLambda(ArgNames(n), body, y, Terms());
    assert DirectHoles(Lambda(ArgNames(n), body)) == {};
  }

  lemma {:induction false} ArgReflects(arg: Expr, x: Env<Term>, y: Env<Term>)
    requires LowerArg(arg).Success?
    requires DenArg(LowerArg(arg).value, y, Terms()) == DenArg(arg, x, Terms())
    ensures Hygienic(arg, false) && Uncaptured(arg) && Alike(Free(arg), x, y)
    decreases arg, 2
  {
    hide Den, Lower, Wrap, ReplaceHoles, Free, Hygienic;
    LowerSucceedsExactly(arg);
    if DirectHoles(arg) == {} {
      LowerArgIsNormal(arg);
      NormalHoles(LowerArg(arg).value);
      Reflects(arg, x, y, Unread);
    } else {
      var n := Max(DirectHoles(arg));
      var zeros, ones := Bind(y, ArgNames(n), Zeros(n)), Bind(y, ArgNames(n), Ones(n));
      FunctionsAgree(arg, x, y, n);
      WrappedMeans(arg, y, Zeros(n));
      WrappedMeans(arg, y, Ones(n));
      Reflects(arg, x, zeros, Params(Zeros(n)));
      Reflects(arg, x, ones, Params(Ones(n)));
      forall k | 0 <= k < n ensures ArgName(k) !in Free(arg) {
        BindReadsArg(y, n, Zeros(n), k);
        BindReadsArg(y, n, Ones(n), k);
        assert Lookup(zeros, ArgName(k)) == Zero && Lookup(ones, ArgName(k)) == One;
      }
      forall name | name in Free(arg) ensures Lookup(x, name) == Lookup(y, name) {
        BindKeepsOthers(y, ArgNames(n), Zeros(n), name);
        assert Lookup(x, name) == Lookup(zeros, name);
      }
    }
  }

  // ---------------------------------------------------------------- pipelines

  lemma {:induction false} PipelineReflects(e: Expr, x: Env<Term>, y: Env<Term>, reading: Reading<Term>)
    requires e.Pipeline? && Lower(e).Success? && !reading.Piped?
    requires Mean(Lower(e).value.expr, y, reading) == Mean(e, x, reading)
    ensures Hygienic(e, false) && Alike(Free(e), x, y)
    decreases e, 0
  {
    hide Mean, Lower, Hygienic, Free, Alike;
    if e.stage.Call? { CallStageReflects(e, x, y, reading); }
    else { NameStageReflects(e.source, e.stage, x, y, reading); }
  }

  /** Around a call, both the callee and what is put in front mean what they meant. */
  lemma StageMeans(source: Expr, stage: Expr, x: Env<Term>, y: Env<Term>, reading: Reading<Term>)
    requires stage.Call? && Lower(Pipeline(source, stage)).Success? && !reading.Piped?
    requires Mean(Lower(Pipeline(source, stage)).value.expr, y, reading) == Mean(Pipeline(source, stage), x, reading)
    ensures Lower(source).Success? && Lower(stage.callee).Success?
    ensures Normal(Lower(source).value.expr) && AllHoles(Lower(source).value.expr) == {}
    ensures Mean(Lower(stage.callee).value.expr, y, Unread) == Mean(stage.callee, x, Unread)
    ensures var left, value := Lower(source).value.expr, Mean(source, x, Unread);
            if AnyContainsHole(stage.args) then
              && LowerArgs(FillAll(stage.args, left)).Success?
              && DenArgs(LowerArgs(FillAll(stage.args, left)).value, y, Terms()) ==
                 DenAll(stage.args, x, Piped(value), Terms())
            else
              && LowerArgs(stage.args).Success? && Mean(left, y, Unread) == value
              && DenArgs(LowerArgs(stage.args).value, y, Terms()) == DenArgs(stage.args, x, Terms())
  {
    hide Den, DenAll, DenArgs, Lower, LowerArgs, FillAll, Normal, AllHoles, DirectHoles, AnyContainsHole;
    LoweredCallStage(source, stage);
    var left, value := Lower(source).value.expr, Mean(source, x, Unread);
    NormalHoles(left);
    DenOfPipeline(source, stage, x, reading, Terms());
    DenOfCall(Lower(stage.callee).value.expr, Lower(Pipeline(source, stage)).value.expr.args, y, reading, Terms());
    if !AnyContainsHole(stage.args) {
      var args := LowerArgs(stage.args).value;
      DenArgsNext(left, args, y, Terms());
      HeadsAndTails(Mean(left, y, Unread), DenArgs(args, y, Terms()), value, DenArgs(stage.args, x, Terms()));
    }
  }

  lemma CallStageParts(source: Expr, stage: Expr)
    requires stage.Call?
    ensures Hygienic(Pipeline(source, stage), false) <==>
            && Hygienic(source, false) && Hygienic(stage.callee, false)
            && AllHygienic(stage.args, AnyContainsHole(stage.args))
            && (AnyContainsHole(stage.args) || AllUncaptured(stage.args))
    ensures Free(Pipeline(source, stage)) == Free(source) + (Free(stage.callee) + FreeOfAll(stage.args))
  {
    hide AnyContainsHole, AllUncaptured;
  }

  lemma {:induction false} CallStageReflects(e: Expr, x: Env<Term>, y: Env<Term>, reading: Reading<Term>)
    requires e.Pipeline? && e.stage.Call? && Lower(e).Success? && !reading.Piped?
    requires Mean(Lower(e).value.expr, y, reading) == Mean(e, x, reading)
    ensures Hygienic(e, false) && Alike(Free(e), x, y)
    decreases e, 0, 0
  {
    hide Mean, Hygienic, Free, FreeOfAll, AllHygienic, DenAll, DenArgs, Lower, LowerArgs, FillAll, Normal, AllHoles,
         AnyContainsHole, Uncaptured, AllUncaptured;
    var source, stage := e.source, e.stage;
    CallStageParts(source, stage);
    StageMeans(source, stage, x, y, reading);
    Reflects(stage.callee, x, y, Unread);
    if AnyContainsHole(stage.args) {
      FilledArgsReflect(stage.args, Lower(source).value.expr, x, y, Mean(source, x, Unread));
    } else {
      ReflectsArgs(stage.args, x, y);
    }
    Reflects(source, x, y, Unread);
  }

  lemma {:induction false} NameStageReflects(source: Expr, stage: Expr, x: Env<Term>, y: Env<Term>,
                                             reading: Reading<Term>)
    requires !stage.Call? && Lower(Pipeline(source, stage)).Success? && !reading.Piped?
    requires Mean(Lower(Pipeline(source, stage)).value.expr, y, reading) == Mean(Pipeline(source, stage), x, reading)
    ensures Hygienic(Pipeline(source, stage), false) && Alike(Free(Pipeline(source, stage)), x, y)
    decreases source, 2
  {
    hide Den, DenAll, DenArgs, LowerArgs, Lower, Normal, AllHoles, DirectHoles;
    assert stage.Identifier? by { LowerPipelineStep(source, stage); LowerSucceedsExactly(Pipeline(source, stage)); }
    LoweredNameStage(source, stage);
    LowerIsNormal(source);
    PipelineLowers(source, stage);
    var left := Lower(source).value.expr;
    NormalHoles(left);
    DenOfPipeline(source, stage, x, reading, Terms());
    DenOfCall(stage, [left], y, reading, Terms());
    assert [left] + [] == [left] && [Mean(left, y, Unread)] + [] == [Mean(left, y, Unread)];
    DenArgsNext(left, [], y, Terms());
    DenArgsOfNone(y, Terms());
    NameMeans(stage, x);
    NameMeans(stage, y);
    Reflects(source, x, y, Unread);
  }

  lemma NameMeans(e: Expr, env: Env<Term>)
    requires e.Identifier?
    ensures Mean(e, env, Unread) == Lookup(env, e.name)
  {
  }

  /** The same for an argument whose placeholders the left side of a pipeline fills; if it has
      any, the left side means what it meant. */
  lemma {:induction false} FilledReflects(e: Expr, left: Expr, x: Env<Term>, y: Env<Term>, reading: Reading<Term>,
                                          value: Term)
    requires Normal(left) && AllHoles(left) == {} && Lower(Fill(e, left)).Success? && !reading.Piped?
    requires Mean(Lower(Fill(e, left)).value.expr, y, reading) == Mean(e, x, Piped(value))
    ensures Hygienic(e, true) && Alike(Free(e), x, y)
    ensures ContainsHole(e) ==> Mean(left, y, Unread) == value
    decreases e, 3
  {
    hide Den, Fill, Normal, AllHoles, Lower, Hygienic, Free, ContainsHole;
    match e
    case List(_) => FilledListReflects(e, left, x, y, reading, value);
    case Call(_, _) => FilledCallReflects(e, left, x, y, reading, value);
    case Unary(_, operand) => FilledOneReflects(e, operand, left, x, y, reading, value);
    case Member(target, _) => FilledOneReflects(e, target, left, x, y, reading, value);
    case Throw(thrown) => FilledOneReflects(e, thrown, left, x, y, reading, value);
    case Binary(_, _, _) => FilledBinaryReflects(e, left, x, y, reading, value);
    case Index(_, _) => FilledIndexReflects(e, left, x, y, reading, value);
    case Ternary(_, _, _) => FilledTernaryReflects(e, left, x, y, reading, value);
    case _ => FilledRestReflects(e, left, x, y, reading, value);
  }

  lemma {:induction false} FilledOneReflects(e: Expr, part: Expr, left: Expr, x: Env<Term>, y: Env<Term>,
                                            reading: Reading<Term>, value: Term)
    requires (e.Unary? && part == e.operand) || (e.Member? && part == e.target) || (e.Throw? && part == e.thrown)
    requires Normal(left) && AllHoles(left) == {} && Lower(Fill(e, left)).Success? && !reading.Piped?
    requires Mean(Lower(Fill(e, left)).value.expr, y, reading) == Mean(e, x, Piped(value))
    ensures Hygienic(e, true) && Alike(Free(e), x, y)
    ensures ContainsHole(e) ==> Mean(left, y, Unread) == value
    decreases e, 2
  {
    hide Normal, AllHoles, DenAll, DenArgs, DenArg, LowerAll, LowerArgs, FillAll, FreeOfAll, AllHygienic, Bind;
    FilledReflects(part, left, x, y, reading, value);
  }

  lemma {:induction false} FilledBinaryReflects(e: Expr, left: Expr, x: Env<Term>, y: Env<Term>,
                                            reading: Reading<Term>, value: Term)
    requires e.Binary?
    requires Normal(left) && AllHoles(left) == {} && Lower(Fill(e, left)).Success? && !reading.Piped?
    requires Mean(Lower(Fill(e, left)).value.expr, y, reading) == Mean(e, x, Piped(value))
    ensures Hygienic(e, true) && Alike(Free(e), x, y)
    ensures ContainsHole(e) ==> Mean(left, y, Unread) == value
    decreases e, 2
  {
    hide Normal, AllHoles, DenAll, DenArgs, DenArg, LowerAll, LowerArgs, FillAll, FreeOfAll, AllHygienic, Bind;
    FilledReflects(e.left, left, x, y, reading, value);
    FilledReflects(e.right, left, x, y, reading, value);
  }

  lemma {:induction false} FilledIndexReflects(e: Expr, left: Expr, x: Env<Term>, y: Env<Term>,
                                            reading: Reading<Term>, value: Term)
    requires e.Index?
    requires Normal(left) && AllHoles(left) == {} && Lower(Fill(e, left)).Success? && !reading.Piped?
    requires Mean(Lower(Fill(e, left)).value.expr, y, reading) == Mean(e, x, Piped(value))
    ensures Hygienic(e, true) && Alike(Free(e), x, y)
    ensures ContainsHole(e) ==> Mean(left, y, Unread) == value
    decreases e, 2
  {
    hide Normal, AllHoles, DenAll, DenArgs, DenArg, LowerAll, LowerArgs, FillAll, FreeOfAll, AllHygienic, Bind;
    FilledReflects(e.base, left, x, y, reading, value);
    FilledReflects(e.position, left, x, y, reading, value);
  }

  lemma {:induction false} FilledTernaryReflects(e: Expr, left: Expr, x: Env<Term>, y: Env<Term>,
                                            reading: Reading<Term>, value: Term)
    requires e.Ternary?
    requires Normal(left) && AllHoles(left) == {} && Lower(Fill(e, left)).Success? && !reading.Piped?
    requires Mean(Lower(Fill(e, left)).value.expr, y, reading) == Mean(e, x, Piped(value))
    ensures Hygienic(e, true) && Alike(Free(e), x, y)
    ensures ContainsHole(e) ==> Mean(left, y, Unread) == value
    decreases e, 2
  {
    hide Normal, AllHoles, DenAll, DenArgs, DenArg, LowerAll, LowerArgs, FillAll, FreeOfAll, AllHygienic, Bind;
    FilledReflects(e.cond, left, x, y, reading, value);
    FilledReflects(e.thenBranch, left, x, y, reading, value);
    FilledReflects(e.elseBranch, left, x, y, reading, value);
  }

  lemma {:induction false} FilledListReflects(e: Expr, left: Expr, x: Env<Term>, y: Env<Term>,
                                            reading: Reading<Term>, value: Term)
    requires e.List?
    requires Normal(left) && AllHoles(left) == {} && Lower(Fill(e, left)).Success? && !reading.Piped?
    requires Mean(Lower(Fill(e, left)).value.expr, y, reading) == Mean(e, x, Piped(value))
    ensures Hygienic(e, true) && Alike(Free(e), x, y)
    ensures ContainsHole(e) ==> Mean(left, y, Unread) == value
    decreases e, 2
  {
    hide Normal, AllHoles;
    FilledAllReflect(e.items, left, x, y, reading, value);
  }

  lemma {:induction false} FilledCallReflects(e: Expr, left: Expr, x: Env<Term>, y: Env<Term>,
                                            reading: Reading<Term>, value: Term)
    requires e.Call?
    requires Normal(left) && AllHoles(left) == {} && Lower(Fill(e, left)).Success? && !reading.Piped?
    requires Mean(Lower(Fill(e, left)).value.expr, y, reading) == Mean(e, x, Piped(value))
    ensures Hygienic(e, true) && Alike(Free(e), x, y)
    ensures ContainsHole(e) ==> Mean(left, y, Unread) == value
    decreases e, 2
  {
    hide LowerArgs, DenArgs, Normal, AllHoles;
    LowerCallStep(Fill(e.callee, left), FillAll(e.args, left));
    FilledReflects(e.callee, left, x, y, Unread, value);
    FilledArgsReflect(e.args, left, x, y, value);
  }

  lemma {:induction false} FilledRestReflects(e: Expr, left: Expr, x: Env<Term>, y: Env<Term>,
                                            reading: Reading<Term>, value: Term)
    requires !e.List? && !e.Call? && !e.Unary? && !e.Member? && !e.Throw? && !e.Binary? && !e.Index? && !e.Ternary?
    requires Normal(left) && AllHoles(left) == {} && Lower(Fill(e, left)).Success? && !reading.Piped?
    requires Mean(Lower(Fill(e, left)).value.expr, y, reading) == Mean(e, x, Piped(value))
    ensures Hygienic(e, true) && Alike(Free(e), x, y)
    ensures ContainsHole(e) ==> Mean(left, y, Unread) == value
    decreases e, 2
  {
    hide DirectHoles, Normal, AllHoles;
    if e.Placeholder? {
      LowerKeepsNormal(left);
      NormalHoles(left);
      ReadingIrrelevant(left, y, reading, Unread, Terms());
    } else if e.Lambda? {
      LambdaReflects(e, x, y, reading);
    } else if e.Pipeline? {
      PipelineReflects(e, x, y, reading);
    }
  }

  lemma {:induction false} FilledAllReflect(es: seq<Expr>, left: Expr, x: Env<Term>, y: Env<Term>,
                                            reading: Reading<Term>, value: Term)
    requires Normal(left) && AllHoles(left) == {} && LowerAll(FillAll(es, left)).Success? && !reading.Piped?
    requires DenAll(LowerAll(FillAll(es, left)).value.exprs, y, reading, Terms()) ==
             DenAll(es, x, Piped(value), Terms())
    ensures AllHygienic(es, true) && Alike(FreeOfAll(es), x, y)
    ensures AnyContainsHole(es) ==> Mean(left, y, Unread) == value
    decreases es, 0
  {
    hide Den, Lower, Fill, Normal, AllHoles;
    if es != [] {
      var filled := FillAll(es, left);
      var lowered := LowerAll(filled).value.exprs;
      assert filled[1..] == FillAll(es[1..], left);
      assert lowered[1..] == LowerAll(filled[1..]).value.exprs;
      HeadsAndTails(Mean(lowered[0], y, reading), DenAll(lowered[1..], y, reading, Terms()),
                    Mean(es[0], x, Piped(value)), DenAll(es[1..], x, Piped(value), Terms()));
      FilledReflects(es[0], left, x, y, reading, value);
      FilledAllReflect(es[1..], left, x, y, reading, value);
    }
  }

  lemma {:induction false} FilledArgsReflect(es: seq<Expr>, left: Expr, x: Env<Term>, y: Env<Term>, value: Term)
    requires Normal(left) && AllHoles(left) == {} && LowerArgs(FillAll(es, left)).Success?
    requires DenArgs(LowerArgs(FillAll(es, left)).value, y, Terms()) == DenAll(es, x, Piped(value), Terms())
    ensures AllHygienic(es, true) && Alike(FreeOfAll(es), x, y)
    ensures AnyContainsHole(es) ==> Mean(left, y, Unread) == value
    decreases es, 0
  {
    hide Den, Lower, Fill, Normal, AllHoles, Wrap;
    if es != [] {
      var filled := FillAll(es, left);
      var lowered := LowerArgs(filled).value;
      assert filled[1..] == FillAll(es[1..], left);
      assert lowered[1..] == LowerArgs(filled[1..]).value;
      FilledArgLowers(es[0], left);
      HeadsAndTails(Mean(lowered[0], y, Unread), DenArgs(lowered[1..], y, Terms()),
                    Mean(es[0], x, Piped(value)), DenAll(es[1..], x, Piped(value), Terms()));
      FilledReflects(es[0], left, x, y, Unread, value);
      FilledArgsReflect(es[1..], left, x, y, value);
    }
  }

  /** A filled argument has no placeholder left, so it is lowered and not wrapped. */
  lemma FilledArgLowers(e: Expr, left: Expr)
    requires Normal(left) && AllHoles(left) == {} && LowerArg(Fill(e, left)).Success?
    ensures Lower(Fill(e, left)).Success? && LowerArg(Fill(e, left)).value == Lower(Fill(e, left)).value.expr
    ensures DirectHoles(LowerArg(Fill(e, left)).value) == {}
  {
    hide Fill, Lower, Wrap, Normal;
    NormalHoles(left);
    FillCloses(e, left);
    LowerSucceedsExactly(Fill(e, left));
    LowerArgIsNormal(Fill(e, left));
    NormalHoles(LowerArg(Fill(e, left)).value);
  }

  // ---------------------------------------------------------------- the exact condition

  /** Lowering keeps the meaning in terms, with nothing bound, exactly when no wrapped argument
      reads a name its lambda binds; and then it keeps the meaning in every semantics and every
      environment, by `LowerKeepsMeaning`. */
  lemma HygieneIsExact(e: Expr)
    requires Lower(e).Success?
    ensures Extensional(Terms())
    ensures Den(Lower(e).value.expr, map[], Unread, Terms()) == Den(e, map[], Unread, Terms()) <==> Hygienic(e, false)
  {
    TermsAreExtensional();
    if Hygienic(e, false) {
      LowerKeepsMeaning(e, map[], Unread, Terms());
    } else if Mean(Lower(e).value.expr, map[], Unread) == Mean(e, map[], Unread) {
      Reflects(e, map[], map[], Unread);
    }
  }
}
