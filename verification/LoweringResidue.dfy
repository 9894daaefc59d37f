/** Lowering leaves no residue: the reported indexes are exactly the placeholders left in the
    result, a closed result has neither placeholders nor pipelines and lowers to itself, and
    lowering succeeds on exactly the well-formed inputs. */
module LoweringResidue {
  import opened Ast
  import opened Lowering

  /** Every placeholder, wherever it stands. */
  function AllHoles(e: Expr): set<nat>
    decreases e
  {
    match e
    case Placeholder(index) => {Normalize(index)}
    case List(items) => HolesOfAll(items)
    case Unary(_, operand) => AllHoles(operand)
    case Binary(_, left, right) => AllHoles(left) + AllHoles(right)
    case Ternary(cond, a, b) => AllHoles(cond) + AllHoles(a) + AllHoles(b)
    case Call(callee, args) => AllHoles(callee) + HolesOfAll(args)
    case Member(target, _) => AllHoles(target)
    case Index(base, position) => AllHoles(base) + AllHoles(position)
    case Pipeline(source, stage) => AllHoles(source) + AllHoles(stage)
    case Throw(thrown) => AllHoles(thrown)
    case Lambda(_, body) => AllHoles(body)
    case _ => {}
  }

  function HolesOfAll(es: seq<Expr>): set<nat>
    decreases es
  {
    if es == [] then {} else AllHoles(es[0]) + HolesOfAll(es[1..])
  }

  /** The placeholders that belong to the argument an expression stands in: not those inside
      calls, lambdas and pipelines, which have arguments of their own. */
  function DirectHoles(e: Expr): set<nat>
    decreases e
  {
    match e
    case Placeholder(index) => {Normalize(index)}
    case List(items) => DirectHolesOfAll(items)
    case Unary(_, operand) => DirectHoles(operand)
    case Binary(_, left, right) => DirectHoles(left) + DirectHoles(right)
    case Ternary(cond, a, b) => DirectHoles(cond) + DirectHoles(a) + DirectHoles(b)
    case Member(target, _) => DirectHoles(target)
    case Index(base, position) => DirectHoles(base) + DirectHoles(position)
    case Throw(thrown) => DirectHoles(thrown)
    case _ => {}
  }

  function DirectHolesOfAll(es: seq<Expr>): set<nat>
    decreases es
  {
    if es == [] then {} else DirectHoles(es[0]) + DirectHolesOfAll(es[1..])
  }

  /** What of an expression lies outside the lambdas and pipelines in it. */
  function Surface(e: Expr): set<Expr>
    decreases e
  {
    {e} + match e
          case List(items) => SurfaceOfAll(items)
          case Unary(_, operand) => Surface(operand)
          case Binary(_, left, right) => Surface(left) + Surface(right)
          case Ternary(cond, a, b) => Surface(cond) + Surface(a) + Surface(b)
          case Call(callee, args) => Surface(callee) + SurfaceOfAll(args)
          case Member(target, _) => Surface(target)
          case Index(base, position) => Surface(base) + Surface(position)
          case Throw(thrown) => Surface(thrown)
          case _ => {}
  }

  function SurfaceOfAll(es: seq<Expr>): set<Expr>
    decreases es
  {
    if es == [] then {} else Surface(es[0]) + SurfaceOfAll(es[1..])
  }

  /** A pipeline fills its call's placeholders instead of passing the left side first exactly when
      one of them lies outside lambdas and inner pipelines. */
  lemma {:induction false} FilledExactly(args: seq<Expr>)
    ensures AnyContainsHole(args) <==> exists p :: p in SurfaceOfAll(args) && p.Placeholder?
    decreases args, 0
  {
    if args != [] {
      HoleOnSurface(args[0]);
      FilledExactly(args[1..]);
    }
  }

  lemma {:induction false} HoleOnSurface(e: Expr)
    ensures ContainsHole(e) <==> exists p :: p in Surface(e) && p.Placeholder?
    decreases e, 0
  {
    assert e in Surface(e);
    match e
    case List(items) => FilledExactly(items);
    case Unary(_, operand) => HoleOnSurface(operand);
    case Binary(_, left, right) => HoleOnSurface(left); HoleOnSurface(right);
    case Ternary(cond, a, b) => HoleOnSurface(cond); HoleOnSurface(a); HoleOnSurface(b);
    case Call(callee, args) => HoleOnSurface(callee); FilledExactly(args);
    case Member(target, _) => HoleOnSurface(target);
    case Index(base, position) => HoleOnSurface(base); HoleOnSurface(position);
    case Throw(thrown) => HoleOnSurface(thrown);
    case _ =>
  }

  /** A bare placeholder is the first one. */
  lemma BareIsFirst(index: nat)
    ensures Lower(Placeholder(index)).Success?
    ensures Lower(Placeholder(index)).value.holes == {if index == 0 then 1 else index}
  {
  }

  // ---------------------------------------------------------------- no residue

  /** What lowering produces: no pipelines, and placeholders only where they are direct. */
  predicate Normal(e: Expr)
    decreases e
  {
    match e
    case List(items) => AllNormal(items)
    case Unary(_, operand) => Normal(operand)
    case Binary(_, left, right) => Normal(left) && Normal(right)
    case Ternary(cond, a, b) => Normal(cond) && Normal(a) && Normal(b)
    case Call(callee, args) => Normal(callee) && AllNormal(args) && AllHoles(callee) == {} && HolesOfAll(args) == {}
    case Member(target, _) => Normal(target)
    case Index(base, position) => Normal(base) && Normal(position)
    case Pipeline(_, _) => false
    case Throw(thrown) => Normal(thrown)
    case Lambda(_, body) => Normal(body) && AllHoles(body) == {}
    case _ => true
  }

  predicate AllNormal(es: seq<Expr>)
    decreases es
  {
    es == [] || (Normal(es[0]) && AllNormal(es[1..]))
  }

  lemma {:induction false} NormalHoles(e: Expr)
    requires Normal(e)
    ensures AllHoles(e) == DirectHoles(e) && Pipes(e) == 0
    decreases e
  {
    match e
    case List(items) => AllNormalHoles(items);
    case Unary(_, operand) => NormalHoles(operand);
    case Binary(_, left, right) => NormalHoles(left); NormalHoles(right);
    case Ternary(cond, a, b) => NormalHoles(cond); NormalHoles(a); NormalHoles(b);
    case Call(callee, args) => NormalHoles(callee); AllNormalHoles(args);
    case Member(target, _) => NormalHoles(target);
    case Index(base, position) => NormalHoles(base); NormalHoles(position);
    case Throw(thrown) => NormalHoles(thrown);
    case Lambda(_, body) => NormalHoles(body);
    case _ =>
  }

  lemma {:induction false} AllNormalHoles(es: seq<Expr>)
    requires AllNormal(es)
    ensures HolesOfAll(es) == DirectHolesOfAll(es) && PipesAll(es) == 0
    decreases es
  {
    if es != [] {
      NormalHoles(es[0]);
      AllNormalHoles(es[1..]);
    }
  }

  lemma {:induction false} ReplaceClears(e: Expr)
    requires Normal(e)
    ensures Normal(ReplaceHoles(e)) && AllHoles(ReplaceHoles(e)) == {}
    decreases e
  {
    match e
    case List(items) => ReplaceAllClears(items);
    case Unary(_, operand) => ReplaceClears(operand);
    case Binary(_, left, right) => ReplaceClears(left); ReplaceClears(right);
    case Ternary(cond, a, b) => ReplaceClears(cond); ReplaceClears(a); ReplaceClears(b);
    case Call(callee, args) => ReplaceClears(callee); ReplaceAllClears(args);
    case Member(target, _) => ReplaceClears(target);
    case Index(base, position) => ReplaceClears(base); ReplaceClears(position);
    case Throw(thrown) => ReplaceClears(thrown);
    case _ =>
  }

  lemma {:induction false} ReplaceAllClears(es: seq<Expr>)
    requires AllNormal(es)
    ensures AllNormal(ReplaceAllHoles(es)) && HolesOfAll(ReplaceAllHoles(es)) == {}
    decreases es
  {
    if es != [] {
      ReplaceClears(es[0]);
      ReplaceAllClears(es[1..]);
      assert ReplaceAllHoles(es)[1..] == ReplaceAllHoles(es[1..]);
    }
  }

  /** A successful lowering is in normal form and reports exactly the placeholders left. */
  lemma {:induction false} LowerIsNormal(e: Expr)
    requires Lower(e).Success?
    ensures var x := Lower(e).value; Normal(x.expr) && x.holes == AllHoles(x.expr)
    decreases Pipes(e), e, 0
  {
    hide ReplaceHoles;
    match e
    case List(items) => LowerAllIsNormal(items);
    case Unary(_, operand) => LowerIsNormal(operand);
    case Binary(_, left, right) => LowerIsNormal(left); LowerIsNormal(right);
    case Ternary(cond, a, b) => LowerIsNormal(cond); LowerIsNormal(a); LowerIsNormal(b);
    case Call(callee, args) => LowerIsNormal(callee); LowerArgsAreNormal(args);
    case Member(target, _) => LowerIsNormal(target);
    case Index(base, position) => LowerIsNormal(base); LowerIsNormal(position);
    case Throw(thrown) => LowerIsNormal(thrown);
    case Lambda(_, body) => LowerIsNormal(body);
    case Pipeline(source, stage) =>
      var left := Lower(source).value.expr;
      DesugarPipes(left, stage);
      LowerIsNormal(Desugar(left, stage).value);
    case _ =>
  }

  lemma {:induction false} LowerAllIsNormal(es: seq<Expr>)
    requires LowerAll(es).Success?
    ensures var xs := LowerAll(es).value; AllNormal(xs.exprs) && xs.holes == HolesOfAll(xs.exprs)
    decreases PipesAll(es), es, 0
  {
    if es != [] {
      LowerIsNormal(es[0]);
      LowerAllIsNormal(es[1..]);
      assert LowerAll(es).value.exprs[1..] == LowerAll(es[1..]).value.exprs;
    }
  }

  lemma {:induction false} LowerArgIsNormal(arg: Expr)
    requires LowerArg(arg).Success?
    ensures Normal(LowerArg(arg).value) && AllHoles(LowerArg(arg).value) == {}
    decreases Pipes(arg), arg, 1
  {
    LowerIsNormal(arg);
    ReplaceClears(Lower(arg).value.expr);
  }

  lemma {:induction false} LowerArgsAreNormal(args: seq<Expr>)
    requires LowerArgs(args).Success?
    ensures AllNormal(LowerArgs(args).value) && HolesOfAll(LowerArgs(args).value) == {}
    decreases PipesAll(args), args, 0
  {
    if args != [] {
      LowerArgIsNormal(args[0]);
      LowerArgsAreNormal(args[1..]);
      assert LowerArgs(args).value[1..] == LowerArgs(args[1..]).value;
    }
  }

  /** Normal expressions lower to themselves. */
  lemma {:induction false} LowerKeepsNormal(e: Expr)
    requires Normal(e)
    ensures Lower(e) == Success(Lowered(e, AllHoles(e)))
    decreases e
  {
    match e
    case List(items) => LowerAllKeepsNormal(items);
    case Unary(_, operand) => LowerKeepsNormal(operand);
    case Binary(_, left, right) => LowerKeepsNormal(left); LowerKeepsNormal(right);
    case Ternary(cond, a, b) => LowerKeepsNormal(cond); LowerKeepsNormal(a); LowerKeepsNormal(b);
    case Call(callee, args) =>
      LowerKeepsNormal(callee);
      LowerArgsKeepsClosed(args);
      assert AllHoles(e) == {};
    case Member(target, _) => LowerKeepsNormal(target);
    case Index(base, position) => LowerKeepsNormal(base); LowerKeepsNormal(position);
    case Throw(thrown) => LowerKeepsNormal(thrown);
    case Lambda(_, body) => LowerKeepsNormal(body);
    case _ =>
  }

  lemma {:induction false} LowerAllKeepsNormal(es: seq<Expr>)
    requires AllNormal(es)
    ensures LowerAll(es) == Success(LoweredAll(es, HolesOfAll(es)))
    decreases es
  {
    if es != [] {
      LowerKeepsNormal(es[0]);
      LowerAllKeepsNormal(es[1..]);
      assert es == [es[0]] + es[1..];
    }
  }

  lemma {:induction false} LowerArgsKeepsClosed(args: seq<Expr>)
    requires AllNormal(args) && HolesOfAll(args) == {}
    ensures LowerArgs(args) == Success(args)
    decreases args
  {
    if args != [] {
      LowerKeepsNormal(args[0]);
      LowerArgsKeepsClosed(args[1..]);
      assert args == [args[0]] + args[1..];
    }
  }

  /** What a statement accepts holds no placeholder and no pipeline, and lowers to itself. */
  lemma ClosedLeavesNoResidue(e: Expr)
    requires LowerClosed(e).Success?
    ensures var x := LowerClosed(e).value;
            AllHoles(x) == {} && Pipes(x) == 0 && LowerClosed(x) == Success(x)
  {
    hide Lower;
    LowerIsNormal(e);
    NormalHoles(Lower(e).value.expr);
    LowerKeepsNormal(Lower(e).value.expr);
  }

  // ---------------------------------------------------------------- what lowers at all

  predicate Contiguous(holes: set<nat>) { forall i, j :: 1 <= i <= j && j in holes ==> i in holes }

  /** Whether an expression lowers. */
  predicate Lowerable(e: Expr)
    decreases e, 0
  {
    match e
    case List(items) => AllLowerable(items)
    case Unary(_, operand) => Lowerable(operand)
    case Binary(_, left, right) => Lowerable(left) && Lowerable(right)
    case Ternary(cond, a, b) => Lowerable(cond) && Lowerable(a) && Lowerable(b)
    case Call(callee, args) => Lowerable(callee) && DirectHoles(callee) == {} && ArgsLowerable(args)
    case Member(target, _) => Lowerable(target)
    case Index(base, position) => Lowerable(base) && Lowerable(position)
    case Pipeline(source, stage) =>
      && Lowerable(source) && DirectHoles(source) == {}
      && (stage.Identifier?
          || (stage.Call? && Lowerable(stage.callee) && DirectHoles(stage.callee) == {}
              && if AnyContainsHole(stage.args) then AllFillable(stage.args) else ArgsLowerable(stage.args)))
    case Throw(thrown) => Lowerable(thrown)
    case Lambda(_, body) => Lowerable(body) && DirectHoles(body) == {}
    case _ => true
  }

  predicate AllLowerable(es: seq<Expr>)
    decreases es, 0
  {
    es == [] || (Lowerable(es[0]) && AllLowerable(es[1..]))
  }

  predicate ArgsLowerable(es: seq<Expr>)
    decreases es, 0
  {
    es == [] || (Lowerable(es[0]) && Contiguous(DirectHoles(es[0])) && ArgsLowerable(es[1..]))
  }

  /** Whether an argument lowers once its placeholders are filled: they may then stand
      anywhere, with any indexes. */
  predicate Fillable(e: Expr)
    decreases e, 1
  {
    match e
    case List(items) => AllFillable(items)
    case Unary(_, operand) => Fillable(operand)
    case Binary(_, left, right) => Fillable(left) && Fillable(right)
    case Ternary(cond, a, b) => Fillable(cond) && Fillable(a) && Fillable(b)
    case Call(callee, args) => Fillable(callee) && AllFillable(args)
    case Member(target, _) => Fillable(target)
    case Index(base, position) => Fillable(base) && Fillable(position)
    case Throw(thrown) => Fillable(thrown)
    case _ => Lowerable(e)
  }

  predicate AllFillable(es: seq<Expr>)
    decreases es, 1
  {
    es == [] || (Fillable(es[0]) && AllFillable(es[1..]))
  }

  /** Filling leaves no direct placeholder. */
  lemma {:induction false} FillCloses(e: Expr, left: Expr)
    requires DirectHoles(left) == {}
    ensures DirectHoles(Fill(e, left)) == {}
    decreases e
  {
    match e
    case List(items) => FillAllCloses(items, left);
    case Unary(_, operand) => FillCloses(operand, left);
    case Binary(_, l, r) => FillCloses(l, left); FillCloses(r, left);
    case Ternary(cond, a, b) => FillCloses(cond, left); FillCloses(a, left); FillCloses(b, left);
    case Member(target, _) => FillCloses(target, left);
    case Index(base, position) => FillCloses(base, left); FillCloses(position, left);
    case Throw(thrown) => FillCloses(thrown, left);
    case _ =>
  }

  lemma {:induction false} FillAllCloses(es: seq<Expr>, left: Expr)
    requires DirectHoles(left) == {}
    ensures DirectHolesOfAll(FillAll(es, left)) == {}
    decreases es
  {
    if es != [] {
      FillCloses(es[0], left);
      FillAllCloses(es[1..], left);
      assert FillAll(es, left)[1..] == FillAll(es[1..], left);
    }
  }

  lemma {:induction false} FilledIsLowerable(e: Expr, left: Expr)
    requires Lowerable(left) && DirectHoles(left) == {}
    ensures Lowerable(Fill(e, left)) <==> Fillable(e)
    decreases e, 1
  {
    hide ArgsLowerable, AllLowerable, AllFillable, FillAll, DirectHoles;
    match e
    case List(_) => FilledListIsLowerable(e, left);
    case Call(_, _) => FilledListIsLowerable(e, left);
    case Unary(_, operand) => FilledIsLowerable(operand, left);
    case Binary(_, l, r) => FilledIsLowerable(l, left); FilledIsLowerable(r, left);
    case Ternary(_, _, _) => FilledTernaryIsLowerable(e, left);
    case Member(target, _) => FilledIsLowerable(target, left);
    case Index(base, position) => FilledIsLowerable(base, left); FilledIsLowerable(position, left);
    case Throw(thrown) => FilledIsLowerable(thrown, left);
    case _ =>
  }

  lemma {:induction false} FilledListIsLowerable(e: Expr, left: Expr)
    requires (e.List? || e.Call?) && Lowerable(left) && DirectHoles(left) == {}
    ensures Lowerable(Fill(e, left)) <==> Fillable(e)
    decreases e, 0
  {
    hide ArgsLowerable, AllLowerable, AllFillable, FillAll, DirectHoles;
    if e.List? {
      AllFilledAreLowerable(e.items, left);
    } else {
      FilledIsLowerable(e.callee, left);
      FillCloses(e.callee, left);
      AllFilledAreLowerable(e.args, left);
    }
  }

  lemma {:induction false} FilledTernaryIsLowerable(e: Expr, left: Expr)
    requires e.Ternary? && Lowerable(left) && DirectHoles(left) == {}
    ensures Lowerable(Fill(e, left)) <==> Fillable(e)
    decreases e, 0
  {
    hide DirectHoles;
    FilledIsLowerable(e.cond, left);
    FilledIsLowerable(e.thenBranch, left);
    FilledIsLowerable(e.elseBranch, left);
  }

  lemma {:induction false} AllFilledAreLowerable(es: seq<Expr>, left: Expr)
    requires Lowerable(left) && DirectHoles(left) == {}
    ensures AllLowerable(FillAll(es, left)) <==> AllFillable(es)
    ensures ArgsLowerable(FillAll(es, left)) <==> AllFillable(es)
    decreases es
  {
    if es != [] {
      FilledIsLowerable(es[0], left);
      FillCloses(es[0], left);
      AllFilledAreLowerable(es[1..], left);
      assert FillAll(es, left)[1..] == FillAll(es[1..], left);
    }
  }

  lemma {:induction false} NormalIsLowerable(e: Expr)
    requires Normal(e)
    ensures Lowerable(e)
    decreases e
  {
    match e
    case List(items) => AllNormalAreLowerable(items);
    case Unary(_, operand) => NormalIsLowerable(operand);
    case Binary(_, left, right) => NormalIsLowerable(left); NormalIsLowerable(right);
    case Ternary(cond, a, b) => NormalIsLowerable(cond); NormalIsLowerable(a); NormalIsLowerable(b);
    case Call(callee, args) =>
      NormalIsLowerable(callee);
      NormalHoles(callee);
      AllNormalAreLowerable(args);
      ClosedArgsAreLowerable(args);
    case Member(target, _) => NormalIsLowerable(target);
    case Index(base, position) => NormalIsLowerable(base); NormalIsLowerable(position);
    case Throw(thrown) => NormalIsLowerable(thrown);
    case Lambda(_, body) => NormalIsLowerable(body); NormalHoles(body);
    case _ =>
  }

  lemma {:induction false} AllNormalAreLowerable(es: seq<Expr>)
    requires AllNormal(es)
    ensures AllLowerable(es)
    decreases es
  {
    if es != [] {
      NormalIsLowerable(es[0]);
      AllNormalAreLowerable(es[1..]);
    }
  }

  lemma {:induction false} ClosedArgsAreLowerable(es: seq<Expr>)
    requires AllNormal(es) && AllLowerable(es) && HolesOfAll(es) == {}
    ensures ArgsLowerable(es)
  {
    if es != [] {
      NormalHoles(es[0]);
      ClosedArgsAreLowerable(es[1..]);
    }
  }

  lemma WrapSucceedsExactly(body: Expr, holes: set<nat>)
    requires holes != {} && 0 !in holes
    ensures Wrap(body, holes).Success? <==> Contiguous(holes)
  {
    var n := Max(holes);
    if Contiguous(holes) {
      forall i: nat | 1 <= i <= n ensures i in holes { assert 1 <= i <= n && n in holes; }
    }
  }

  /** Lowering succeeds on exactly the expressions whose placeholders stand in arguments with
      no index missing, never in the callee or left of a pipeline, and whose pipelines end in
      calls or names; and then it reports exactly the direct placeholders. */
  lemma {:induction false} LowerSucceedsExactly(e: Expr)
    ensures Lower(e).Success? <==> Lowerable(e)
    ensures Lower(e).Success? ==> Lower(e).value.holes == DirectHoles(e) && 0 !in DirectHoles(e)
    decreases Pipes(e), e, 1
  {
    hide Wrap, Fill, Desugar, ReplaceHoles, Fillable;
    match e
    case List(items) => LowerAllSucceedsExactly(items);
    case Unary(_, operand) => LowerSucceedsExactly(operand);
    case Binary(_, left, right) => LowerSucceedsExactly(left); LowerSucceedsExactly(right);
    case Ternary(cond, a, b) => LowerSucceedsExactly(cond); LowerSucceedsExactly(a); LowerSucceedsExactly(b);
    case Call(callee, args) => LowerSucceedsExactly(callee); LowerArgsSucceedExactly(args);
    case Member(target, _) => LowerSucceedsExactly(target);
    case Index(base, position) => LowerSucceedsExactly(base); LowerSucceedsExactly(position);
    case Throw(thrown) => LowerSucceedsExactly(thrown);
    case Lambda(_, body) => LowerSucceedsExactly(body);
    case Pipeline(source, stage) => LowerPipelineSucceedsExactly(source, stage);
    case _ =>
  }

  lemma {:induction false} LowerPipelineSucceedsExactly(source: Expr, stage: Expr)
    ensures var e := Pipeline(source, stage);
            && (Lower(e).Success? <==> Lowerable(e))
            && (Lower(e).Success? ==> Lower(e).value.holes == DirectHoles(e))
    decreases Pipes(source) + Pipes(stage) + 1, Pipeline(source, stage), 0
  {
    hide Lower, Lowerable, Wrap, Fill, ReplaceHoles, Fillable, DirectHoles;
    var e := Pipeline(source, stage);
    LowerSucceedsExactly(source);
    LowerPipelineStep(source, stage);
    DirectHolesOfCalls(e);
    if Lower(source).Success? && Lower(source).value.holes == {} {
      var left := Lower(source).value.expr;
      var d := Desugar(left, stage);
      LowerIsNormal(source);
      NormalIsLowerable(left);
      NormalHoles(left);
      if d.Success? {
        DesugarPipes(left, stage);
        LowerSucceedsExactly(d.value);
        DesugaredIsLowerable(source, left, stage);
        DirectHolesOfCalls(d.value);
      }
    }
  }

  lemma DirectHolesOfCalls(e: Expr)
    requires e.Call? || e.Pipeline?
    ensures DirectHoles(e) == {}
  {
  }

  lemma LowerPipelineStep(source: Expr, stage: Expr)
    ensures var r := Lower(Pipeline(source, stage));
            if Lower(source).Failure? || Lower(source).value.holes != {} then r.Failure?
            else var d := Desugar(Lower(source).value.expr, stage);
                 if d.Failure? then r.Failure? else r == Lower(d.value)
    ensures Lowerable(Pipeline(source, stage)) ==> Lowerable(source) && DirectHoles(source) == {}
    ensures Lowerable(Pipeline(source, stage)) ==> stage.Call? || stage.Identifier?
  {
    hide Desugar;
  }

  lemma DesugaredIsLowerable(source: Expr, left: Expr, stage: Expr)
    requires Lowerable(source) && DirectHoles(source) == {}
    requires Lowerable(left) && DirectHoles(left) == {} && Desugar(left, stage).Success?
    ensures Lowerable(Desugar(left, stage).value) <==> Lowerable(Pipeline(source, stage))
  {
    hide Fill, Fillable, DirectHoles, Lowerable, ArgsLowerable, AllFillable, AllLowerable, AnyContainsHole, FillAll;
    LowerableEquations(source, stage);
    if stage.Call? {
      AllFilledAreLowerable(stage.args, left);
      ArgsLowerableStep(left, stage.args);
      LowerableEquations(left, Desugar(left, stage).value);
    } else {
      DirectHolesOfName(stage);
      ArgsLowerableStep(left, []);
      assert [left] + [] == [left];
      LowerableEquations(left, Call(stage, [left]));
    }
  }

  /** When calls and pipelines lower. */
  lemma LowerableEquations(source: Expr, e: Expr)
    ensures ArgsLowerable([]) && (e.Identifier? ==> Lowerable(e))
    ensures e.Call? ==> (Lowerable(e) <==> Lowerable(e.callee) && DirectHoles(e.callee) == {} && ArgsLowerable(e.args))
    ensures Lowerable(Pipeline(source, e)) <==>
              Lowerable(source) && DirectHoles(source) == {}
              && (e.Identifier?
                  || (e.Call? && Lowerable(e.callee) && DirectHoles(e.callee) == {}
                      && if AnyContainsHole(e.args) then AllFillable(e.args) else ArgsLowerable(e.args)))
  {
    hide DirectHoles, AnyContainsHole, AllFillable;
  }

  lemma ArgsLowerableStep(left: Expr, args: seq<Expr>)
    requires Lowerable(left) && DirectHoles(left) == {}
    ensures ArgsLowerable([left] + args) <==> ArgsLowerable(args)
  {
    hide Lowerable, DirectHoles;
    assert Contiguous(DirectHoles(left));
    assert ([left] + args)[1..] == args;
  }

  lemma DirectHolesOfName(e: Expr)
    requires e.Identifier?
    ensures DirectHoles(e) == {}
  {
  }

  lemma {:induction false} LowerAllSucceedsExactly(es: seq<Expr>)
    ensures LowerAll(es).Success? <==> AllLowerable(es)
    ensures LowerAll(es).Success? ==> LowerAll(es).value.holes == DirectHolesOfAll(es) && 0 !in DirectHolesOfAll(es)
    decreases PipesAll(es), es, 0
  {
    if es != [] {
      LowerSucceedsExactly(es[0]);
      LowerAllSucceedsExactly(es[1..]);
    }
  }

  lemma {:induction false} LowerArgsSucceedExactly(args: seq<Expr>)
    ensures LowerArgs(args).Success? <==> ArgsLowerable(args)
    decreases PipesAll(args), args, 0
  {
    hide Wrap, Contiguous;
    if args != [] {
      var arg := args[0];
      LowerSucceedsExactly(arg);
      LowerArgsSucceedExactly(args[1..]);
      if Lower(arg).Success? {
        if DirectHoles(arg) != {} {
          WrapSucceedsExactly(Lower(arg).value.expr, DirectHoles(arg));
        } else {
          assert Contiguous({}) by { ContiguousEmpty(); }
        }
      }
    }
  }

  lemma ContiguousEmpty()
    ensures Contiguous({})
  {
  }
}
