/** Which error lowering reports: the first in reading order, found in the text of the expression
    alone. */
module LoweringErrors {
  import opened Ast
  import opened Lowering
  import opened LoweringResidue

  type Fault = Option<LowerError>

  function First(a: Fault, b: Fault): Fault { if a.Some? then a else b }

  /** An error where there are placeholders. */
  function At(holes: set<nat>, error: LowerError): Fault { if holes != {} then Some(error) else None }

  // ---------------------------------------------------------------- the first error

  /** The least index that is missing below one that occurs. */
  ghost predicate IsGap(holes: set<nat>, gap: nat) {
    1 <= gap && gap !in holes && (exists j :: j in holes && j > gap) && forall i :: 1 <= i < gap ==> i in holes
  }

  function Gap(holes: set<nat>): Fault {
    if holes == {} then None
    else
      var gap := FirstGap(holes, 1, Max(holes));
      if gap.Some? then Some(MissingPlaceholder(gap.value)) else None
  }

  lemma {:induction false} FirstGapIsLeast(holes: set<nat>, k: nat, max: nat)
    ensures var gap := FirstGap(holes, k, max); gap.Some? ==> forall i :: k <= i < gap.value ==> i in holes
    decreases max + 1 - k
  {
    if k <= max && k in holes { FirstGapIsLeast(holes, k + 1, max); }
  }

  /** The gap that is reported is the least one. */
  lemma GapIsLeast(holes: set<nat>)
    requires 0 !in holes
    ensures match Gap(holes)
            case None => Contiguous(holes)
            case Some(MissingPlaceholder(gap)) => IsGap(holes, gap)
            case _ => false
  {
    if holes != {} {
      var n := Max(holes);
      var gap := FirstGap(holes, 1, n);
      FirstGapIsLeast(holes, 1, n);
      if gap.Some? { assert n in holes && n != gap.value; }
    }
  }

  /** What is wrong with an expression. */
  function FaultOf(e: Expr): Fault
    decreases e, 0
  {
    match e
    case List(items) => FaultOfAll(items)
    case Unary(_, operand) => FaultOf(operand)
    case Binary(_, left, right) => First(FaultOf(left), FaultOf(right))
    case Ternary(cond, a, b) => First(FaultOf(cond), First(FaultOf(a), FaultOf(b)))
    case Call(callee, args) =>
      First(First(FaultOf(callee), At(DirectHoles(callee), PlaceholderAsFunction)), FaultOfArgs(args))
    case Member(target, _) => FaultOf(target)
    case Index(base, position) => First(FaultOf(base), FaultOf(position))
    case Pipeline(source, stage) =>
      First(First(FaultOf(source), At(DirectHoles(source), PlaceholderLeftOfPipeline)),
            match stage
            case Identifier(_, _) => None
            case Call(callee, args) =>
              First(First(FaultOf(callee), At(DirectHoles(callee), PlaceholderAsFunction)),
                    if AnyContainsHole(args) then FillFaultOfAll(args) else FaultOfArgs(args))
            case _ => Some(BadPipelineTarget))
    case Throw(thrown) => FaultOf(thrown)
    case Lambda(_, body) => First(FaultOf(body), At(DirectHoles(body), PlaceholderOutsideArgument))
    case _ => None
  }

  function FaultOfAll(es: seq<Expr>): Fault
    decreases es, 0
  {
    if es == [] then None else First(FaultOf(es[0]), FaultOfAll(es[1..]))
  }

  function FaultOfArgs(es: seq<Expr>): Fault
    decreases es, 0
  {
    if es == [] then None else First(First(FaultOf(es[0]), Gap(DirectHoles(es[0]))), FaultOfArgs(es[1..]))
  }

  /** What is wrong with an argument once its placeholders are filled. */
  function FillFaultOf(e: Expr): Fault
    decreases e, 1
  {
    match e
    case List(items) => FillFaultOfAll(items)
    case Unary(_, operand) => FillFaultOf(operand)
    case Binary(_, left, right) => First(FillFaultOf(left), FillFaultOf(right))
    case Ternary(cond, a, b) => First(FillFaultOf(cond), First(FillFaultOf(a), FillFaultOf(b)))
    case Call(callee, args) => First(FillFaultOf(callee), FillFaultOfAll(args))
    case Member(target, _) => FillFaultOf(target)
    case Index(base, position) => First(FillFaultOf(base), FillFaultOf(position))
    case Throw(thrown) => FillFaultOf(thrown)
    case _ => FaultOf(e)
  }

  function FillFaultOfAll(es: seq<Expr>): Fault
    decreases es, 1
  {
    if es == [] then None else First(FillFaultOf(es[0]), FillFaultOfAll(es[1..]))
  }

  // ---------------------------------------------------------------- filled arguments

  lemma {:induction false} FilledFault(e: Expr, left: Expr)
    requires FaultOf(left) == None && DirectHoles(left) == {}
    ensures FaultOf(Fill(e, left)) == FillFaultOf(e)
    decreases e, 1
  {
    hide DirectHoles, Gap, FaultOfAll, FaultOfArgs, FillFaultOfAll, FillAll, AnyContainsHole;
    if e.Binary? || e.Index? || e.Ternary? {
      FilledPartsFault(e, left);
    } else {
      match e
      case List(items) => FilledFaults(items, left);
      case Call(_, _) => FilledCallFault(e, left);
      case Unary(_, operand) => FilledFault(operand, left);
      case Member(target, _) => FilledFault(target, left);
      case Throw(thrown) => FilledFault(thrown, left);
      case _ =>
    }
  }

  lemma {:induction false} FilledPartsFault(e: Expr, left: Expr)
    requires (e.Binary? || e.Index? || e.Ternary?) && FaultOf(left) == None && DirectHoles(left) == {}
    ensures FaultOf(Fill(e, left)) == FillFaultOf(e)
    decreases e, 0
  {
    hide DirectHoles;
    match e
    case Binary(_, l, r) => FilledFault(l, left); FilledFault(r, left);
    case Index(base, position) => FilledFault(base, left); FilledFault(position, left);
    case Ternary(cond, a, b) => FilledFault(cond, left); FilledFault(a, left); FilledFault(b, left);
  }

  lemma {:induction false} FilledCallFault(e: Expr, left: Expr)
    requires e.Call? && FaultOf(left) == None && DirectHoles(left) == {}
    ensures FaultOf(Fill(e, left)) == FillFaultOf(e)
    decreases e, 0
  {
    hide DirectHoles, Gap, FaultOfAll, FaultOfArgs, FillFaultOfAll, FillAll, AnyContainsHole;
    FilledFault(e.callee, left);
    FillCloses(e.callee, left);
    FilledFaults(e.args, left);
  }

  lemma {:induction false} FilledFaults(es: seq<Expr>, left: Expr)
    requires FaultOf(left) == None && DirectHoles(left) == {}
    ensures FaultOfAll(FillAll(es, left)) == FillFaultOfAll(es)
    ensures FaultOfArgs(FillAll(es, left)) == FillFaultOfAll(es)
    decreases es
  {
    hide FaultOf, FillFaultOf, Fill, DirectHoles;
    if es != [] {
      FilledFault(es[0], left);
      FillCloses(es[0], left);
      FilledFaults(es[1..], left);
      assert FillAll(es, left)[1..] == FillAll(es[1..], left);
      assert Gap({}) == None;
    }
  }

  /** Lowered expressions have nothing wrong. */
  lemma {:induction false} NormalIsFaultless(e: Expr)
    requires Normal(e)
    ensures FaultOf(e) == None
    decreases e
  {
    hide Gap, AnyContainsHole, FillFaultOfAll, DirectHoles;
    match e
    case List(items) => AllNormalAreFaultless(items);
    case Unary(_, operand) => NormalIsFaultless(operand);
    case Binary(_, left, right) => NormalIsFaultless(left); NormalIsFaultless(right);
    case Ternary(cond, a, b) => NormalIsFaultless(cond); NormalIsFaultless(a); NormalIsFaultless(b);
    case Call(callee, args) => NormalIsFaultless(callee); NormalHoles(callee); AllNormalAreFaultless(args);
    case Member(target, _) => NormalIsFaultless(target);
    case Index(base, position) => NormalIsFaultless(base); NormalIsFaultless(position);
    case Throw(thrown) => NormalIsFaultless(thrown);
    case Lambda(_, body) => NormalIsFaultless(body); NormalHoles(body);
    case _ =>
  }

  lemma {:induction false} AllNormalAreFaultless(es: seq<Expr>)
    requires AllNormal(es)
    ensures FaultOfAll(es) == None && (HolesOfAll(es) == {} ==> FaultOfArgs(es) == None)
    decreases es
  {
    hide FaultOf;
    if es != [] {
      NormalIsFaultless(es[0]);
      NormalHoles(es[0]);
      AllNormalAreFaultless(es[1..]);
      assert Gap({}) == None;
    }
  }

  // ---------------------------------------------------------------- what is reported

  /** The result of lowering something with this fault. */
  predicate Reports<T>(r: Result<T, LowerError>, fault: Fault) {
    if r.Success? then fault.None? else fault == Some(r.error)
  }

  /** Lowering reports the first thing that is wrong with an expression, in reading order, and
      nothing when nothing is. */
  lemma {:induction false} LowerReportsFirst(e: Expr)
    ensures Reports(Lower(e), FaultOf(e))
    decreases Pipes(e), e, 1
  {
    hide Wrap, Fill, Desugar, ReplaceHoles, FillFaultOf, DirectHoles;
    if e.Pipeline? {
      PipelineReportsFirst(e.source, e.stage);
    } else {
      match e
      case List(items) => AllReportFirst(items);
      case Unary(_, operand) => LowerReportsFirst(operand);
      case Binary(_, left, right) => LowerReportsFirst(left); LowerReportsFirst(right);
      case Ternary(cond, a, b) => LowerReportsFirst(cond); LowerReportsFirst(a); LowerReportsFirst(b);
      case Call(callee, args) => LowerReportsFirst(callee); LowerSucceedsExactly(callee); ArgsReportFirst(args);
      case Member(target, _) => LowerReportsFirst(target);
      case Index(base, position) => LowerReportsFirst(base); LowerReportsFirst(position);
      case Throw(thrown) => LowerReportsFirst(thrown);
      case Lambda(_, body) => LowerReportsFirst(body); LowerSucceedsExactly(body);
      case _ =>
    }
  }

  lemma {:induction false} PipelineReportsFirst(source: Expr, stage: Expr)
    ensures Reports(Lower(Pipeline(source, stage)), FaultOf(Pipeline(source, stage)))
    decreases Pipes(source) + Pipes(stage) + 1, Pipeline(source, stage), 0
  {
    hide Lower, FaultOf, FaultOfArgs, FaultOfAll, Wrap, Fill, ReplaceHoles, FillFaultOf, FillFaultOfAll, DirectHoles;
    LowerReportsFirst(source);
    LowerSucceedsExactly(source);
    PipelineStep(source, stage);
    if Lower(source).Success? && Lower(source).value.holes == {} {
      var left := Lower(source).value.expr;
      var d := Desugar(left, stage);
      LowerIsNormal(source);
      NormalIsFaultless(left);
      NormalHoles(left);
      if d.Success? {
        DesugarPipes(left, stage);
        LowerReportsFirst(d.value);
        DesugaredFault(source, left, stage);
      }
    }
  }

  lemma PipelineStep(source: Expr, stage: Expr)
    ensures var r, x := Lower(Pipeline(source, stage)), Lower(source);
            if x.Failure? then r == x
            else if x.value.holes != {} then r == Failure(PlaceholderLeftOfPipeline)
            else
              var d := Desugar(x.value.expr, stage);
              r == if d.Failure? then Failure(d.error) else Lower(d.value)
    ensures var fault, first := FaultOf(Pipeline(source, stage)), FaultOf(source);
            && (first.Some? ==> fault == first)
            && (first.None? && DirectHoles(source) != {} ==> fault == Some(PlaceholderLeftOfPipeline))
            && (first.None? && DirectHoles(source) == {} && !stage.Call? && !stage.Identifier? ==>
                  fault == Some(BadPipelineTarget))
  {
    hide AnyContainsHole, FillAll, DirectHoles;
  }

  lemma DesugaredFault(source: Expr, left: Expr, stage: Expr)
    requires FaultOf(source) == None && DirectHoles(source) == {}
    requires FaultOf(left) == None && DirectHoles(left) == {} && Desugar(left, stage).Success?
    ensures FaultOf(Desugar(left, stage).value) == FaultOf(Pipeline(source, stage))
  {
    hide FaultOfArgs, FillFaultOfAll, FillAll, AnyContainsHole, DirectHoles;
    if stage.Call? {
      FilledFaults(stage.args, left);
      ArgsFaultStep(left, stage.args);
    } else {
      NamesAreFaultless(stage);
      ArgsFaultStep(left, []);
      assert [left] + [] == [left];
    }
  }

  lemma NamesAreFaultless(e: Expr)
    requires e.Identifier?
    ensures FaultOf(e) == None && DirectHoles(e) == {} && FaultOfArgs([]) == None
  {
  }

  lemma ArgsFaultStep(left: Expr, args: seq<Expr>)
    requires FaultOf(left) == None && DirectHoles(left) == {}
    ensures FaultOfArgs([left] + args) == FaultOfArgs(args)
  {
    hide FaultOf, DirectHoles;
    assert ([left] + args)[1..] == args;
    assert Gap({}) == None;
  }

  lemma {:induction false} AllReportFirst(es: seq<Expr>)
    ensures Reports(LowerAll(es), FaultOfAll(es))
    decreases PipesAll(es), es, 0
  {
    hide Lower, FaultOf;
    if es != [] {
      LowerReportsFirst(es[0]);
      AllReportFirst(es[1..]);
    }
  }

  lemma {:induction false} ArgsReportFirst(args: seq<Expr>)
    ensures Reports(LowerArgs(args), FaultOfArgs(args))
    decreases PipesAll(args), args, 0
  {
    hide Lower, FaultOf, DirectHoles, FirstGap, Max, ReplaceHoles;
    if args != [] {
      LowerReportsFirst(args[0]);
      LowerSucceedsExactly(args[0]);
      ArgsReportFirst(args[1..]);
    }
  }

  /** What statements accept: behind everything else, a placeholder that is left over is reported. */
  lemma ClosedReportsFirst(e: Expr)
    ensures Reports(LowerClosed(e), First(FaultOf(e), At(DirectHoles(e), PlaceholderOutsideArgument)))
  {
    hide Lower, FaultOf, DirectHoles;
    LowerReportsFirst(e);
    LowerSucceedsExactly(e);
  }
}
