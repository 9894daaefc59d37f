/** Which names a run can find: execution binds only names the statements bind, and folding
    adds none. */
module FoldScope {
  import opened Ast
  import opened Meaning
  import opened Folder
  import opened BlockFolder

  // ---------------------------------------------------------------- names stay covered

  lemma {:induction false} BlockStaysCovered(rt: Runtime, b: Block, scope: Scope, st: State, fuel: nat)
    requires Binds(b, scope.locals) && Covers(scope, rt, st.env)
    ensures Covers(scope, rt, ExecBlock(rt, b, st, fuel).st.env)
    ensures Covers(scope, rt, ExecBody(rt, b, st, fuel).st.env)
    decreases fuel, b, 0
  {
    StmtsStayCovered(rt, b.stmts, scope, st, fuel);
  }

  lemma {:induction false} StmtsStayCovered(rt: Runtime, stmts: seq<Stmt>, scope: Scope, st: State, fuel: nat)
    requires BindsAll(stmts, scope.locals) && Covers(scope, rt, st.env)
    ensures Covers(scope, rt, ExecStmts(rt, stmts, st, fuel).st.env)
    decreases fuel, stmts, 0
  {
    if stmts != [] {
      StmtStaysCovered(rt, stmts[0], scope, st, fuel);
      StmtsStayCovered(rt, stmts[1..], scope, ExecStmt(rt, stmts[0], st, fuel).st, fuel);
    }
  }

  lemma {:induction false} BindsBranchAt(brs: seq<Branch>, names: set<string>, k: nat)
    requires k < |brs| && BindsBranches(brs, names)
    ensures BindsBranch(brs[k], names)
    decreases brs
  {
    if k > 0 { BindsBranchAt(brs[1..], names, k - 1); }
  }

  lemma {:induction false} StmtStaysCovered(rt: Runtime, s: Stmt, scope: Scope, st: State, fuel: nat)
    requires BindsIn(s, scope.locals) && Covers(scope, rt, st.env)
    ensures Covers(scope, rt, ExecStmt(rt, s, st, fuel).st.env)
    decreases fuel, s, 3
  {
    match s
    case If(cond, body, elifs, orelse) =>
      var c := Eval(rt, cond, st.env, st.t);
      var chosen := Select(rt, elifs, st.env, c.t);
      BlockStaysCovered(rt, body, scope, State(st.env, c.t), fuel);
      if chosen.k < |elifs| {
        BindsBranchAt(elifs, scope.locals, chosen.k);
        BlockStaysCovered(rt, elifs[chosen.k].body, scope, State(st.env, chosen.t), fuel);
      } else if orelse.Some? {
        BlockStaysCovered(rt, orelse.value, scope, State(st.env, chosen.t), fuel);
      }
    case While(cond, body) => WhileStaysCovered(rt, cond, body, scope, st, fuel);
    case For(variable, iterable, body) =>
      var r := Eval(rt, iterable, st.env, st.t);
      ForStaysCovered(rt, variable, rt.items(r.v, r.t), body, scope, State(st.env, r.t), fuel);
    case ForKV(keyVar, valueVar, iterable, body) =>
      var r := Eval(rt, iterable, st.env, st.t);
      ForKVStaysCovered(rt, keyVar, valueVar, rt.entries(r.v, r.t), body, scope, State(st.env, r.t), fuel);
    case ForRange(variable, start, end, step, body) =>
      var a := Eval(rt, start, st.env, st.t);
      var z := Eval(rt, end, st.env, a.t);
      var native := IsNativeRange(start, end, step, rt.types);
      var first := Stored(rt, native, a.v);
      if step.None? {
        RangeStaysCovered(rt, native, variable, first, z.v, None, body, scope, State(st.env, z.t), fuel);
      } else {
        var d := Eval(rt, step.value, st.env, z.t);
        RangeStaysCovered(rt, native, variable, first, z.v, Some(d.v), body, scope, State(st.env, d.t), fuel);
      }
    case _ =>
  }

  lemma {:induction false} WhileStaysCovered(rt: Runtime, cond: Expr, body: Block, scope: Scope, st: State, fuel: nat)
    requires Binds(body, scope.locals) && Covers(scope, rt, st.env)
    ensures Covers(scope, rt, ExecWhile(rt, cond, body, st, fuel).st.env)
    decreases fuel, body, 2
  {
    if fuel > 0 {
      var st' := State(st.env, Eval(rt, cond, st.env, st.t).t);
      BlockStaysCovered(rt, body, scope, st', fuel - 1);
      WhileStaysCovered(rt, cond, body, scope, ExecBody(rt, body, st', fuel - 1).st, fuel - 1);
    }
  }

  lemma {:induction false} ForStaysCovered(rt: Runtime, variable: string, items: seq<Value>, body: Block,
                                           scope: Scope, st: State, fuel: nat)
    requires variable in scope.locals && Binds(body, scope.locals) && Covers(scope, rt, st.env)
    ensures Covers(scope, rt, ExecFor(rt, variable, items, body, st, fuel).st.env)
    decreases fuel, body, 2
  {
    if items != [] && fuel > 0 {
      var st' := State(st.env[variable := items[0]], st.t);
      BlockStaysCovered(rt, body, scope, st', fuel - 1);
      ForStaysCovered(rt, variable, items[1..], body, scope, ExecBody(rt, body, st', fuel - 1).st, fuel - 1);
    }
  }

  lemma {:induction false} ForKVStaysCovered(rt: Runtime, keyVar: string, valueVar: string,
                                             entries: seq<(Value, Value)>, body: Block,
                                             scope: Scope, st: State, fuel: nat)
    requires keyVar in scope.locals && valueVar in scope.locals
    requires Binds(body, scope.locals) && Covers(scope, rt, st.env)
    ensures Covers(scope, rt, ExecForKV(rt, keyVar, valueVar, entries, body, st, fuel).st.env)
    decreases fuel, body, 2
  {
    if entries != [] && fuel > 0 {
      var st' := State(st.env[keyVar := entries[0].0][valueVar := entries[0].1], st.t);
      BlockStaysCovered(rt, body, scope, st', fuel - 1);
      ForKVStaysCovered(rt, keyVar, valueVar, entries[1..], body, scope,
                        ExecBody(rt, body, st', fuel - 1).st, fuel - 1);
    }
  }

  lemma {:induction false} RangeStaysCovered(rt: Runtime, native: bool, variable: string, current: Value,
                                             end: Value, step: Option<Value>, body: Block,
                                             scope: Scope, st: State, fuel: nat)
    requires variable in scope.locals && Binds(body, scope.locals) && Covers(scope, rt, st.env)
    ensures Covers(scope, rt, ExecRange(rt, native, variable, current, end, step, body, st, fuel).st.env)
    decreases fuel, body, 2
  {
    if fuel > 0 {
      var st' := State(st.env[variable := current], st.t);
      BlockStaysCovered(rt, body, scope, st', fuel - 1);
      RangeStaysCovered(rt, native, variable, RangeNext(rt, native, current, step), end, step, body, scope,
                        ExecBody(rt, body, st', fuel - 1).st, fuel - 1);
    }
  }

  // ---------------------------------------------------------------- folding binds no further names

  lemma BindsOne(s: Stmt, names: set<string>)
    ensures BindsAll([s], names) <==> BindsIn(s, names)
  {
    assert [s][1..] == [];
  }

  lemma {:induction false} BindsAllConcat(a: seq<Stmt>, b: seq<Stmt>, names: set<string>)
    ensures BindsAll(a + b, names) <==> BindsAll(a, names) && BindsAll(b, names)
    decreases a
  {
    if a == [] {
      assert a + b == b;
    } else {
      assert (a + b)[1..] == a[1..] + b;
      BindsAllConcat(a[1..], b, names);
    }
  }

  lemma {:induction false} LiveBinds(stmts: seq<Stmt>, names: set<string>)
    requires BindsAll(stmts, names)
    ensures BindsAll(Live(stmts), names)
    decreases stmts
  {
    if stmts != [] {
      LiveBinds(stmts[1..], names);
      assert ([stmts[0]] + Live(stmts[1..]))[1..] == Live(stmts[1..]);
    }
  }

  lemma SpliceBinds(b: Block, names: set<string>)
    requires Binds(b, names)
    ensures BindsAll(Splice(b), names)
  {
    BindsAllConcat(b.stmts, if b.value.Some? then [ExprStmt(b.value.value)] else [], names);
  }

  lemma {:induction false} PruneBinds(brs: seq<Branch>, orelse: Option<Block>, names: set<string>)
    requires BindsBranches(brs, names) && BindsElse(orelse, names)
    ensures BindsAll(Prune(brs, orelse), names)
    decreases brs
  {
    if brs == [] {
      if orelse.Some? { SpliceBinds(orelse.value, names); }
    } else {
      SpliceBinds(brs[0].body, names);
      PruneBinds(brs[1..], orelse, names);
      BindsOne(If(brs[0].cond, brs[0].body, brs[1..], orelse), names);
    }
  }

  lemma {:induction false} FoldedBlockBinds(b: Block, names: set<string>)
    requires Binds(b, names)
    ensures Binds(FoldedBlock(b), names)
    decreases b, 0
  {
    FoldedStmtsBind(b.stmts, names);
    LiveBinds(FoldedStmts(b.stmts), names);
  }

  lemma {:induction false} FoldedElseBinds(b: Option<Block>, names: set<string>)
    requires BindsElse(b, names)
    ensures BindsElse(FoldedElse(b), names)
    decreases b, 1
  {
    if b.Some? { FoldedBlockBinds(b.value, names); }
  }

  lemma {:induction false} FoldedBranchBinds(br: Branch, names: set<string>)
    requires BindsBranch(br, names)
    ensures BindsBranch(FoldedBranch(br), names)
    decreases br, 0
  {
    FoldedBlockBinds(br.body, names);
  }

  lemma {:induction false} FoldedBranchesBind(brs: seq<Branch>, names: set<string>)
    requires BindsBranches(brs, names)
    ensures BindsBranches(FoldedBranches(brs), names)
    decreases brs, 0
  {
    if brs != [] {
      FoldedBranchBinds(brs[0], names);
      FoldedBranchesBind(brs[1..], names);
      assert FoldedBranches(brs)[1..] == FoldedBranches(brs[1..]);
    }
  }

  lemma {:induction false} FoldedStmtsBind(stmts: seq<Stmt>, names: set<string>)
    requires BindsAll(stmts, names)
    ensures BindsAll(FoldedStmts(stmts), names)
    decreases stmts, 0
  {
    if stmts != [] {
      FoldedStmtBinds(stmts[0], names);
      FoldedStmtsBind(stmts[1..], names);
      BindsAllConcat(FoldedStmt(stmts[0]), FoldedStmts(stmts[1..]), names);
    }
  }

  lemma {:induction false} FoldedStmtBinds(s: Stmt, names: set<string>)
    requires BindsIn(s, names)
    ensures BindsAll(FoldedStmt(s), names)
    decreases s, 0
  {
    if !s.If? {
      assert FoldedStmt(s) == [FoldedStmt(s)[0]];
      BindsOne(FoldedStmt(s)[0], names);
    }
    match s
    case If(cond, body, elifs, orelse) =>
      FoldedBlockBinds(body, names);
      FoldedBranchesBind(elifs, names);
      FoldedElseBinds(orelse, names);
      SpliceBinds(FoldedBlock(body), names);
      PruneBinds(FoldedBranches(elifs), FoldedElse(orelse), names);
      BindsOne(If(FoldExpr(cond), FoldedBlock(body), FoldedBranches(elifs), FoldedElse(orelse)), names);
    case While(_, body) => FoldedBlockBinds(body, names);
    case For(_, _, body) => FoldedBlockBinds(body, names);
    case ForKV(_, _, _, body) => FoldedBlockBinds(body, names);
    case ForRange(_, _, _, _, body) => FoldedBlockBinds(body, names);
    case _ =>
  }
}
