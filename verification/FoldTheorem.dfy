/** Folding a block keeps its meaning: the final environment, the effects, the way it ends
    and its value, for every runtime, every starting state and every bound on iterations. */
module FoldTheorem {
  import opened Ast
  import opened Integers
  import opened Meaning
  import opened Folder
  import opened BlockFolder
  import opened FoldScope

  // ---------------------------------------------------------------- sequences of statements

  lemma {:induction false} ExecConcat(rt: Runtime, a: seq<Stmt>, b: seq<Stmt>, st: State, fuel: nat)
    ensures ExecStmts(rt, a + b, st, fuel) ==
            var s := ExecStmts(rt, a, st, fuel);
            if s.control.Normal? then ExecStmts(rt, b, s.st, fuel) else s
    decreases a
  {
    if a == [] {
      assert a + b == b;
    } else {
      assert (a + b)[1..] == a[1..] + b;
      ExecConcat(rt, a[1..], b, ExecStmt(rt, a[0], st, fuel).st, fuel);
    }
  }

  lemma ExecOne(rt: Runtime, s: Stmt, st: State, fuel: nat)
    ensures ExecStmts(rt, [s], st, fuel) == ExecStmt(rt, s, st, fuel)
  {
    assert [s][1..] == [];
  }

  /** A spliced block does what the block did. */
  lemma SpliceMeaning(rt: Runtime, b: Block, st: State, fuel: nat)
    ensures ExecStmts(rt, Splice(b), st, fuel) == ExecBody(rt, b, st, fuel)
  {
    var tail := if b.value.Some? then [ExprStmt(b.value.value)] else [];
    ExecConcat(rt, b.stmts, tail, st, fuel);
    if b.value.Some? { ExecOne(rt, ExprStmt(b.value.value), ExecStmts(rt, b.stmts, st, fuel).st, fuel); }
  }

  // ---------------------------------------------------------------- dead statements

  /** Every dead statement leaves no trace. */
  predicate Harmless(stmts: seq<Stmt>, scope: Scope) {
    forall s | s in stmts && IsDead(s) :: Effectless(s.expr, scope)
  }

  /** Dropping dead statements changes nothing when none of their calls is the program's own. */
  lemma {:induction false} LiveMeaning(rt: Runtime, stmts: seq<Stmt>, scope: Scope, st: State, fuel: nat)
    requires Harmless(stmts, scope) && BindsAll(stmts, scope.locals) && Covers(scope, rt, st.env)
    ensures ExecStmts(rt, Live(stmts), st, fuel) == ExecStmts(rt, stmts, st, fuel)
    decreases stmts
  {
    if stmts != [] {
      var s := stmts[0];
      if IsDead(s) {
        EffectlessKeepsTrace(rt, s.expr, scope, st.env, st.t);
        LiveMeaning(rt, stmts[1..], scope, st, fuel);
      } else {
        assert ([s] + Live(stmts[1..]))[1..] == Live(stmts[1..]);
        StmtStaysCovered(rt, s, scope, st, fuel);
        LiveMeaning(rt, stmts[1..], scope, ExecStmt(rt, s, st, fuel).st, fuel);
      }
    }
  }

  lemma {:induction false} LiveIsAlive(stmts: seq<Stmt>)
    ensures forall s | s in Live(stmts) :: !IsDead(s)
    decreases stmts
  {
    if stmts != [] { LiveIsAlive(stmts[1..]); }
  }

  lemma SpliceIsHarmless(b: Block, scope: Scope)
    requires ExactBody(b, scope)
    ensures Harmless(Splice(FoldedBlock(b)), scope)
  {
    LiveIsAlive(FoldedStmts(b.stmts));
  }

  lemma {:induction false} PruneIsHarmless(brs: seq<Branch>, orelse: Option<Block>, scope: Scope)
    requires ExactBranches(brs, scope) && ExactElse(orelse, scope)
    ensures Harmless(Prune(FoldedBranches(brs), FoldedElse(orelse)), scope)
    decreases brs
  {
    if brs == [] {
      if orelse.Some? { SpliceIsHarmless(orelse.value, scope); }
    } else {
      SpliceIsHarmless(brs[0].body, scope);
      PruneIsHarmless(brs[1..], orelse, scope);
      assert FoldedBranches(brs)[1..] == FoldedBranches(brs[1..]);
    }
  }

  lemma {:induction false} FoldedIsHarmless(stmts: seq<Stmt>, scope: Scope)
    requires ExactStmts(stmts, scope)
    ensures Harmless(FoldedStmts(stmts), scope)
    decreases stmts
  {
    if stmts != [] {
      var s := stmts[0];
      FoldedIsHarmless(stmts[1..], scope);
      if s.If? {
        SpliceIsHarmless(s.body, scope);
        PruneIsHarmless(s.elifs, s.orelse, scope);
      }
      assert Harmless(FoldedStmt(s), scope);
    }
  }

  // ---------------------------------------------------------------- if chains

  /** What an `if` whose condition failed goes on to do. */
  ghost function ExecElse(rt: Runtime, elifs: seq<Branch>, orelse: Option<Block>, st: State, fuel: nat): Step {
    var chosen := Select(rt, elifs, st.env, st.t);
    if chosen.k < |elifs| then ExecBody(rt, elifs[chosen.k].body, State(st.env, chosen.t), fuel)
    else if orelse.Some? then ExecBody(rt, orelse.value, State(st.env, chosen.t), fuel)
    else Step(State(st.env, chosen.t), Normal)
  }

  lemma {:induction false} PruneMeaning(rt: Runtime, elifs: seq<Branch>, orelse: Option<Block>, st: State, fuel: nat)
    ensures ExecStmts(rt, Prune(elifs, orelse), st, fuel) == ExecElse(rt, elifs, orelse, st, fuel)
    decreases elifs
  {
    if elifs == [] {
      if orelse.Some? { SpliceMeaning(rt, orelse.value, st, fuel); }
    } else if elifs[0].cond == Bool(true) {
      SpliceMeaning(rt, elifs[0].body, st, fuel);
    } else if elifs[0].cond == Bool(false) {
      PruneMeaning(rt, elifs[1..], orelse, st, fuel);
    } else {
      ExecOne(rt, If(elifs[0].cond, elifs[0].body, elifs[1..], orelse), st, fuel);
    }
  }

  lemma {:induction false} FoldedBranchAt(elifs: seq<Branch>, k: nat)
    requires k < |elifs|
    ensures |FoldedBranches(elifs)| == |elifs| && FoldedBranches(elifs)[k] == FoldedBranch(elifs[k])
    decreases elifs
  {
    if k > 0 { FoldedBranchAt(elifs[1..], k - 1); }
    else if |elifs| > 1 { FoldedBranchAt(elifs[1..], 0); }
  }

  lemma {:induction false} ExactBranchAt(elifs: seq<Branch>, scope: Scope, k: nat)
    requires k < |elifs| && ExactBranches(elifs, scope)
    ensures ExactBranch(elifs[k], scope)
    decreases elifs
  {
    if k > 0 { ExactBranchAt(elifs[1..], scope, k - 1); }
  }

  lemma {:induction false} SelectMeaning(rt: Runtime, elifs: seq<Branch>, scope: Scope, env: Env, t: Trace)
    requires Lawful(rt) && Covers(scope, rt, env) && ExactBranches(elifs, scope)
    ensures Select(rt, FoldedBranches(elifs), env, t) == Select(rt, elifs, env, t)
    ensures |FoldedBranches(elifs)| == |elifs|
    decreases elifs
  {
    if elifs != [] {
      FoldExprMeaning(rt, elifs[0].cond, scope, env, t);
      SelectMeaning(rt, elifs[1..], scope, env, Eval(rt, elifs[0].cond, env, t).t);
      assert FoldedBranches(elifs)[1..] == FoldedBranches(elifs[1..]);
    }
  }

  // ---------------------------------------------------------------- the theorem

  lemma {:induction false} FoldBlockMeaning(rt: Runtime, b: Block, scope: Scope, st: State, fuel: nat)
    requires Lawful(rt) && Covers(scope, rt, st.env)
    requires ExactBlock(b, scope) && Binds(b, scope.locals)
    ensures ExecBlock(rt, FoldedBlock(b), st, fuel) == ExecBlock(rt, b, st, fuel)
    decreases fuel, b, 0
  {
    FoldStmtsMeaning(rt, b.stmts, scope, st, fuel);
    FoldedIsHarmless(b.stmts, scope);
    FoldedStmtsBind(b.stmts, scope.locals);
    LiveMeaning(rt, FoldedStmts(b.stmts), scope, st, fuel);
    StmtsStayCovered(rt, b.stmts, scope, st, fuel);
    var s := ExecStmts(rt, b.stmts, st, fuel);
    if b.value.Some? { FoldExprMeaning(rt, b.value.value, scope, s.st.env, s.st.t); }
  }

  lemma {:induction false} FoldStmtsMeaning(rt: Runtime, stmts: seq<Stmt>, scope: Scope, st: State, fuel: nat)
    requires Lawful(rt) && Covers(scope, rt, st.env)
    requires ExactStmts(stmts, scope) && BindsAll(stmts, scope.locals)
    ensures ExecStmts(rt, FoldedStmts(stmts), st, fuel) == ExecStmts(rt, stmts, st, fuel)
    decreases fuel, stmts, 0
  {
    if stmts != [] {
      var s := ExecStmt(rt, stmts[0], st, fuel);
      FoldStmtMeaning(rt, stmts[0], scope, st, fuel);
      StmtStaysCovered(rt, stmts[0], scope, st, fuel);
      FoldStmtsMeaning(rt, stmts[1..], scope, s.st, fuel);
      ExecConcat(rt, FoldedStmt(stmts[0]), FoldedStmts(stmts[1..]), st, fuel);
    }
  }

  lemma {:induction false} FoldStmtMeaning(rt: Runtime, s: Stmt, scope: Scope, st: State, fuel: nat)
    requires Lawful(rt) && Covers(scope, rt, st.env)
    requires ExactStmt(s, scope) && BindsIn(s, scope.locals)
    ensures ExecStmts(rt, FoldedStmt(s), st, fuel) == ExecStmt(rt, s, st, fuel)
    decreases fuel, s, 3
  {
    if s.If? {
      FoldIfMeaning(rt, s, scope, st, fuel);
    } else {
      ExecOne(rt, FoldedStmt(s)[0], st, fuel);
      match s
      case Binding(_, value) => FoldExprMeaning(rt, value, scope, st.env, st.t);
      case ExprStmt(expr) => FoldExprMeaning(rt, expr, scope, st.env, st.t);
      case Return(result) => FoldExprMeaning(rt, result, scope, st.env, st.t);
      case While(cond, body) => FoldWhileMeaning(rt, cond, body, scope, st, fuel);
      case For(variable, iterable, body) =>
        FoldExprMeaning(rt, iterable, scope, st.env, st.t);
        var r := Eval(rt, iterable, st.env, st.t);
        FoldForMeaning(rt, variable, rt.items(r.v, r.t), body, scope, State(st.env, r.t), fuel);
      case ForKV(keyVar, valueVar, iterable, body) =>
        FoldExprMeaning(rt, iterable, scope, st.env, st.t);
        var r := Eval(rt, iterable, st.env, st.t);
        FoldForKVMeaning(rt, keyVar, valueVar, rt.entries(r.v, r.t), body, scope, State(st.env, r.t), fuel);
      case ForRange(_, _, _, _, _) => FoldRangeStmtMeaning(rt, s, scope, st, fuel);
      case FieldAssign(target, _, value) => FoldExprMeaning(rt, value, scope, st.env, Eval(rt, target, st.env, st.t).t);
      case _ =>
    }
  }

  lemma {:induction false} FoldIfMeaning(rt: Runtime, s: Stmt, scope: Scope, st: State, fuel: nat)
    requires Lawful(rt) && Covers(scope, rt, st.env)
    requires s.If? && ExactStmt(s, scope) && BindsIn(s, scope.locals)
    ensures ExecStmts(rt, FoldedStmt(s), st, fuel) == ExecStmt(rt, s, st, fuel)
    decreases fuel, s, 2
  {
    FoldExprMeaning(rt, s.cond, scope, st.env, st.t);
    var st' := State(st.env, Eval(rt, s.cond, st.env, st.t).t);
    FoldBlockMeaning(rt, s.body, scope, st', fuel);
    FoldElseMeaning(rt, s, scope, st', fuel);
    IfCongruence(rt, s, FoldExpr(s.cond), FoldedBlock(s.body), FoldedBranches(s.elifs), FoldedElse(s.orelse), st, fuel);
  }

  /** Replacing the parts of an `if` by equivalent ones, then splicing if the condition is a literal. */
  lemma IfCongruence(rt: Runtime, s: Stmt, cond: Expr, body: Block, elifs: seq<Branch>, orelse: Option<Block>,
                     st: State, fuel: nat)
    requires s.If? && Eval(rt, cond, st.env, st.t) == Eval(rt, s.cond, st.env, st.t)
    requires var st' := State(st.env, Eval(rt, s.cond, st.env, st.t).t);
             && ExecBlock(rt, body, st', fuel) == ExecBlock(rt, s.body, st', fuel)
             && ExecElse(rt, elifs, orelse, st', fuel) == ExecElse(rt, s.elifs, s.orelse, st', fuel)
    ensures ExecStmts(rt, if cond == Bool(true) then Splice(body)
                          else if cond == Bool(false) then Prune(elifs, orelse)
                          else [If(cond, body, elifs, orelse)], st, fuel) == ExecStmt(rt, s, st, fuel)
  {
    if cond == Bool(true) {
      SpliceMeaning(rt, body, st, fuel);
    } else if cond == Bool(false) {
      PruneMeaning(rt, elifs, orelse, st, fuel);
    } else {
      ExecOne(rt, If(cond, body, elifs, orelse), st, fuel);
    }
  }

  lemma {:induction false} FoldElseMeaning(rt: Runtime, s: Stmt, scope: Scope, st: State, fuel: nat)
    requires Lawful(rt) && Covers(scope, rt, st.env)
    requires s.If? && ExactStmt(s, scope) && BindsIn(s, scope.locals)
    ensures ExecElse(rt, FoldedBranches(s.elifs), FoldedElse(s.orelse), st, fuel) ==
            ExecElse(rt, s.elifs, s.orelse, st, fuel)
    decreases fuel, s, 1
  {
    SelectMeaning(rt, s.elifs, scope, st.env, st.t);
    var chosen := Select(rt, s.elifs, st.env, st.t);
    if chosen.k < |s.elifs| {
      FoldedBranchAt(s.elifs, chosen.k);
      ExactBranchAt(s.elifs, scope, chosen.k);
      BindsBranchAt(s.elifs, scope.locals, chosen.k);
      FoldBlockMeaning(rt, s.elifs[chosen.k].body, scope, State(st.env, chosen.t), fuel);
    } else if s.orelse.Some? {
      assert ExactBody(s.orelse.value, scope);
      FoldBlockMeaning(rt, s.orelse.value, scope, State(st.env, chosen.t), fuel);
    }
  }

  lemma {:induction false} FoldRangeStmtMeaning(rt: Runtime, s: Stmt, scope: Scope, st: State, fuel: nat)
    requires Lawful(rt) && Covers(scope, rt, st.env)
    requires s.ForRange? && ExactStmt(s, scope) && BindsIn(s, scope.locals)
    ensures ExecStmt(rt, FoldedStmt(s)[0], st, fuel) == ExecStmt(rt, s, st, fuel)
    decreases fuel, s, 2
  {
    var a := Eval(rt, s.start, st.env, st.t);
    var z := Eval(rt, s.end, st.env, a.t);
    FoldExprMeaning(rt, s.start, scope, st.env, st.t);
    FoldExprMeaning(rt, s.end, scope, st.env, a.t);
    var native := IsNativeRange(s.start, s.end, s.step, rt.types);
    var first := Stored(rt, native, a.v);
    if s.step.Some? {
      var d := Eval(rt, s.step.value, st.env, z.t);
      FoldExprMeaning(rt, s.step.value, scope, st.env, z.t);
      FoldRangeMeaning(rt, native, s.variable, first, z.v, Some(d.v), s.body, scope, State(st.env, d.t), fuel);
    } else {
      FoldRangeMeaning(rt, native, s.variable, first, z.v, None, s.body, scope, State(st.env, z.t), fuel);
    }
  }

  lemma {:induction false} FoldWhileMeaning(rt: Runtime, cond: Expr, body: Block, scope: Scope, st: State, fuel: nat)
    requires Lawful(rt) && Covers(scope, rt, st.env)
    requires Exact(cond, scope) && ExactBlock(body, scope) && Binds(body, scope.locals)
    ensures ExecWhile(rt, FoldExpr(cond), FoldedBlock(body), st, fuel) == ExecWhile(rt, cond, body, st, fuel)
    decreases fuel, body, 2
  {
    hide Eval, Exact, FoldExpr, FoldedBlock, ExactBlock, Binds;
    FoldExprMeaning(rt, cond, scope, st.env, st.t);
    var c := Eval(rt, cond, st.env, st.t);
    if Truthy(rt, c.v) && fuel > 0 {
      var st' := State(st.env, c.t);
      FoldBlockMeaning(rt, body, scope, st', fuel - 1);
      BlockStaysCovered(rt, body, scope, st', fuel - 1);
      FoldWhileMeaning(rt, cond, body, scope, ExecBody(rt, body, st', fuel - 1).st, fuel - 1);
    }
  }

  lemma {:induction false} FoldForMeaning(rt: Runtime, variable: string, items: seq<Value>, body: Block,
                                          scope: Scope, st: State, fuel: nat)
    requires Lawful(rt) && Covers(scope, rt, st.env)
    requires variable in scope.locals && ExactBlock(body, scope) && Binds(body, scope.locals)
    ensures ExecFor(rt, variable, items, FoldedBlock(body), st, fuel) == ExecFor(rt, variable, items, body, st, fuel)
    decreases fuel, body, 2
  {
    if items != [] && fuel > 0 {
      var st' := State(st.env[variable := items[0]], st.t);
      FoldBlockMeaning(rt, body, scope, st', fuel - 1);
      BlockStaysCovered(rt, body, scope, st', fuel - 1);
      FoldForMeaning(rt, variable, items[1..], body, scope, ExecBody(rt, body, st', fuel - 1).st, fuel - 1);
    }
  }

  lemma {:induction false} FoldForKVMeaning(rt: Runtime, keyVar: string, valueVar: string, entries: seq<(Value, Value)>,
                                            body: Block, scope: Scope, st: State, fuel: nat)
    requires Lawful(rt) && Covers(scope, rt, st.env)
    requires keyVar in scope.locals && valueVar in scope.locals && ExactBlock(body, scope) && Binds(body, scope.locals)
    ensures ExecForKV(rt, keyVar, valueVar, entries, FoldedBlock(body), st, fuel) ==
            ExecForKV(rt, keyVar, valueVar, entries, body, st, fuel)
    decreases fuel, body, 2
  {
    if entries != [] && fuel > 0 {
      var st' := State(st.env[keyVar := entries[0].0][valueVar := entries[0].1], st.t);
      FoldBlockMeaning(rt, body, scope, st', fuel - 1);
      BlockStaysCovered(rt, body, scope, st', fuel - 1);
      FoldForKVMeaning(rt, keyVar, valueVar, entries[1..], body, scope, ExecBody(rt, body, st', fuel - 1).st, fuel - 1);
    }
  }

  lemma {:induction false} FoldRangeMeaning(rt: Runtime, native: bool, variable: string, current: Value,
                                            end: Value, step: Option<Value>,
                                            body: Block, scope: Scope, st: State, fuel: nat)
    requires Lawful(rt) && Covers(scope, rt, st.env)
    requires variable in scope.locals && ExactBlock(body, scope) && Binds(body, scope.locals)
    ensures ExecRange(rt, native, variable, current, end, step, FoldedBlock(body), st, fuel) ==
            ExecRange(rt, native, variable, current, end, step, body, st, fuel)
    decreases fuel, body, 2
  {
    if !RangeDone(rt, native, current, end) && fuel > 0 {
      var st' := State(st.env[variable := current], st.t);
      FoldBlockMeaning(rt, body, scope, st', fuel - 1);
      BlockStaysCovered(rt, body, scope, st', fuel - 1);
      FoldRangeMeaning(rt, native, variable, RangeNext(rt, native, current, step), end, step, body, scope,
                       ExecBody(rt, body, st', fuel - 1).st, fuel - 1);
    }
  }
}
