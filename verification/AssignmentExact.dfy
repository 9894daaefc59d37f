/** How exact definite assignment is. The refined flow is exact for every body: an occurrence
    is warned about if and only if some execution reads it unbound. So the analysis is exact
    where it agrees with the refined flow, as it does without jumps. The executions are built
    from the code: choices that go past it, choices along which a name stays unassigned, and
    choices that reach a given occurrence. */
module AssignmentExact {
  import opened Ast
  import opened DefiniteAssignment
  import opened Paths
  import opened AssignmentSound
  import opened AssignmentRefined

  // ---------------------------------------------------------------- going past code

  /** Choices that evaluate an expression to its end. */
  function Past(e: Expr): seq<bool>
    decreases e
  {
    match e
    case Unary(_, operand) => Past(operand)
    case Binary(op, left, right) => Past(left) + if op.And? || op.Or? then [false] else Past(right)
    case Ternary(cond, a, _) => Past(cond) + ([true] + Past(a))
    case Call(callee, args) => Past(callee) + PastAll(args)
    case List(items) => PastAll(items)
    case Member(target, _) => Past(target)
    case Index(base, position) => Past(base) + Past(position)
    case Pipeline(source, stage) => Past(source) + Past(stage)
    case Throw(thrown) => Past(thrown)
    case Lambda(_, body) => Past(body)
    case _ => []
  }

  function PastAll(es: seq<Expr>): seq<bool>
    decreases es
  {
    if es == [] then [] else Past(es[0]) + PastAll(es[1..])
  }

  function PastOption(e: Option<Expr>): seq<bool> { if e.Some? then Past(e.value) else [] }

  ghost predicate Ends(r: ExprRun, tail: seq<bool>) { r.done && r.rest == tail }

  lemma Assoc(a: seq<bool>, b: seq<bool>, c: seq<bool>)
    ensures a + b + c == a + (b + c)
  {
  }

  lemma {:induction false} PastEnds(e: Expr, env: set<string>, walked: bool, tail: seq<bool>)
    ensures Ends(ReadsOf(e, env, walked, Past(e) + tail), tail)
    decreases e
  {
    match e
    case Unary(_, operand) => PastEnds(operand, env, walked, tail);
    case Binary(op, left, right) =>
      var next := if op.And? || op.Or? then [false] else Past(right);
      Assoc(Past(left), next, tail);
      PastEnds(left, env, walked, next + tail);
      PastEnds(right, env, walked, tail);
    case Ternary(cond, a, _) =>
      Assoc(Past(cond), [true] + Past(a), tail);
      Assoc([true], Past(a), tail);
      PastEnds(cond, env, walked, [true] + (Past(a) + tail));
      PastEnds(a, env, walked, tail);
    case Call(callee, args) =>
      Assoc(Past(callee), PastAll(args), tail);
      PastEnds(callee, env, walked, PastAll(args) + tail);
      PastAllEnds(args, env, walked, tail);
    case List(items) => PastAllEnds(items, env, walked, tail);
    case Member(target, _) => PastEnds(target, env, walked, tail);
    case Index(base, position) =>
      Assoc(Past(base), Past(position), tail);
      PastEnds(base, env, false, Past(position) + tail);
      PastEnds(position, env, false, tail);
    case Pipeline(source, stage) =>
      Assoc(Past(source), Past(stage), tail);
      PastEnds(source, env, false, Past(stage) + tail);
      PastEnds(stage, env, false, tail);
    case Throw(thrown) => PastEnds(thrown, env, false, tail);
    case Lambda(params, body) => PastEnds(body, env + (set x | x in params), false, tail);
    case _ => assert [] + tail == tail;
  }

  lemma {:induction false} PastAllEnds(es: seq<Expr>, env: set<string>, walked: bool, tail: seq<bool>)
    ensures Ends(ReadsOfAll(es, env, walked, PastAll(es) + tail), tail)
    decreases es
  {
    if es == [] {
      assert [] + tail == tail;
    } else {
      Assoc(Past(es[0]), PastAll(es[1..]), tail);
      PastEnds(es[0], env, walked, PastAll(es[1..]) + tail);
      PastAllEnds(es[1..], env, walked, tail);
    }
  }

  lemma PastOptionEnds(e: Option<Expr>, env: set<string>, tail: seq<bool>)
    ensures Ends(ReadsOfOption(e, env, PastOption(e) + tail), tail)
  {
    if e.Some? { PastEnds(e.value, env, true, tail); } else { assert [] + tail == tail; }
  }

  function PastRange(start: Expr, end: Expr, step: Option<Expr>): seq<bool> {
    Past(start) + (Past(end) + PastOption(step))
  }

  lemma PastRangeEnds(start: Expr, end: Expr, step: Option<Expr>, env: set<string>, tail: seq<bool>)
    ensures Ends(ReadsOfRange(start, end, step, env, PastRange(start, end, step) + tail), tail)
  {
    var c := PastOption(step);
    Assoc(Past(start), Past(end) + c, tail);
    Assoc(Past(end), c, tail);
    PastEnds(start, env, true, Past(end) + (c + tail));
    PastEnds(end, env, true, c + tail);
    PastOptionEnds(step, env, tail);
  }

  /** Choices that pass over the first `k` branches, and take the next one if there is one. */
  function Towards(brs: seq<Branch>, k: nat): seq<bool>
    requires k <= |brs|
    decreases brs
  {
    if brs == [] then []
    else if k == 0 then Past(brs[0].cond) + [true]
    else Past(brs[0].cond) + ([false] + Towards(brs[1..], k - 1))
  }

  lemma {:induction false} TowardsSelects(brs: seq<Branch>, k: nat, env: set<string>, tail: seq<bool>)
    requires k <= |brs|
    ensures var r := Select(brs, env, Towards(brs, k) + tail); r.k == k && r.done && r.rest == tail
    decreases brs
  {
    if brs == [] {
      assert [] + tail == tail;
    } else if k == 0 {
      Assoc(Past(brs[0].cond), [true], tail);
      PastEnds(brs[0].cond, env, true, [true] + tail);
    } else {
      var more := Towards(brs[1..], k - 1);
      Assoc(Past(brs[0].cond), [false] + more, tail);
      Assoc([false], more, tail);
      PastEnds(brs[0].cond, env, true, [false] + (more + tail));
      TowardsSelects(brs[1..], k - 1, env, tail);
    }
  }

  // ---------------------------------------------------------------- what code must assign

  /** The names every path that gets past a block assigns; `None` if no path does. */
  function Must(b: Block): Option<set<string>> { RefineBlock({}, b, {}).bound }
  function MustStmts(stmts: seq<Stmt>): Option<set<string>> { RefineStmts({}, stmts, {}).bound }
  function MustStmt(s: Stmt): Option<set<string>> { RefineStmt({}, s, {}).bound }

  function Plus(bound: set<string>, must: Option<set<string>>): Option<set<string>> {
    if must.None? then None else Some(bound + must.value)
  }

  lemma MeetPlus(bound: set<string>, a: Option<set<string>>, b: Option<set<string>>)
    ensures Meet(Plus(bound, a), Plus(bound, b)) == Plus(bound, Meet(a, b))
  {
    if a.Some? && b.Some? { assert (bound + a.value) * (bound + b.value) == bound + a.value * b.value; }
  }

  lemma {:induction false} BlockAdds(bs: set<string>, b: Block, bound: set<string>)
    ensures RefineBlock(bs, b, bound).bound == Plus(bound, Must(b))
    decreases b, 0
  {
    StmtsAdd(bs, b.stmts, bound);
  }

  lemma {:induction false} StmtsAdd(bs: set<string>, stmts: seq<Stmt>, bound: set<string>)
    ensures RefineStmts(bs, stmts, bound).bound == Plus(bound, MustStmts(stmts))
    decreases stmts, 0
  {
    assert bound + {} == bound;
    if stmts != [] {
      StmtAdds(bs, stmts[0], bound);
      var m := MustStmt(stmts[0]);
      if m.Some? {
        StmtsAdd(bs, stmts[1..], bound + m.value);
        StmtsAdd({}, stmts[1..], m.value);
        var rest := MustStmts(stmts[1..]);
        if rest.Some? { assert bound + m.value + rest.value == bound + (m.value + rest.value); }
        assert MustStmts(stmts) == Plus(m.value, rest);
      }
    }
  }

  lemma {:induction false} BranchAdds(bs: set<string>, br: Branch, bound: set<string>)
    ensures RefineBranch(bs, br, bound).bound == Plus(bound, RefineBranch({}, br, {}).bound)
    decreases br, 0
  {
    BlockAdds(bs, br.body, bound);
  }

  lemma {:induction false} BranchesAdd(bs: set<string>, brs: seq<Branch>, bound: set<string>,
                                       common: Option<set<string>>)
    ensures RefineBranches(bs, brs, bound, Plus(bound, common)).bound ==
            Plus(bound, RefineBranches({}, brs, {}, common).bound)
    decreases brs, 0
  {
    if brs != [] {
      BranchAdds(bs, brs[0], bound);
      var g := RefineBranch({}, brs[0], {}).bound;
      MeetPlus(bound, common, g);
      BranchesAdd(bs, brs[1..], bound, Meet(common, g));
    }
  }

  lemma {:induction false} StmtAdds(bs: set<string>, s: Stmt, bound: set<string>)
    ensures RefineStmt(bs, s, bound).bound == Plus(bound, MustStmt(s))
    decreases s, 0
  {
    if s.If? && s.orelse.Some? {
      BlockAdds(bs, s.body, bound);
      BranchesAdd(bs, s.elifs, bound, Must(s.body));
      BlockAdds(bs, s.orelse.value, bound);
      MeetPlus(bound, RefineBranches({}, s.elifs, {}, Must(s.body)).bound, Must(s.orelse.value));
    } else {
      assert bound + {} == bound;
      assert s.Binding? ==> {} + {s.name} == {s.name};
    }
  }

  // ---------------------------------------------------------------- keeping a name unassigned

  /** Some path gets past the code and does not assign `x`. */
  predicate Escapes(must: Option<set<string>>, x: string) { must.Some? && x !in must.value }

  predicate Avoids(b: Block, x: string) { Escapes(Must(b), x) }

  /** The first branch that some path gets past without assigning `x`, or their number. */
  function Avoiding(brs: seq<Branch>, x: string): (k: nat)
    ensures k <= |brs|
  {
    if brs == [] || Avoids(brs[0].body, x) then 0 else 1 + Avoiding(brs[1..], x)
  }

  lemma {:induction false} AvoidingAt(brs: seq<Branch>, x: string, common: Option<set<string>>)
    requires !Escapes(common, x) && Escapes(RefineBranches({}, brs, {}, common).bound, x)
    ensures var k := Avoiding(brs, x); k < |brs| && Avoids(brs[k].body, x)
    decreases brs
  {
    if brs != [] && !Avoids(brs[0].body, x) {
      AvoidingAt(brs[1..], x, Meet(common, RefineBranch({}, brs[0], {}).bound));
    }
  }

  /** Choices that run a block to its end without assigning `x`, if it need not assign it. */
  function AvoidBlock(b: Block, x: string): seq<bool>
    decreases b, 0
  {
    AvoidStmts(b.stmts, x) + PastOption(b.value)
  }

  function AvoidStmts(stmts: seq<Stmt>, x: string): seq<bool>
    decreases stmts, 0
  {
    if stmts == [] then [] else AvoidStmt(stmts[0], x) + AvoidStmts(stmts[1..], x)
  }

  function AvoidStmt(s: Stmt, x: string): seq<bool>
    decreases s, 1
  {
    match s
    case Binding(_, value) => Past(value)
    case ExprStmt(expr) => Past(expr)
    case Return(result) => Past(result)
    case If(cond, body, _, _) =>
      Past(cond) + if Avoids(body, x) then [true] + AvoidBlock(body, x) else [false] + AvoidElse(s, x)
    case While(cond, body) => Past(cond) + [false]
    case For(_, iterable, _) => Past(iterable) + [false]
    case ForKV(_, _, iterable, _) => Past(iterable) + [false]
    case ForRange(_, start, end, step, _) => PastRange(start, end, step) + [false]
    case FieldAssign(target, _, value) => Past(target) + Past(value)
    case _ => []
  }

  function AvoidElse(s: Stmt, x: string): seq<bool>
    requires s.If?
    decreases s, 0
  {
    var k := Avoiding(s.elifs, x);
    if s.orelse.None? then Towards(s.elifs, |s.elifs|)
    else if k < |s.elifs| then Towards(s.elifs, k) + AvoidBlock(s.elifs[k].body, x)
    else Towards(s.elifs, k) + AvoidBlock(s.orelse.value, x)
  }

  ghost predicate Avoided(r: Run, x: string, tail: seq<bool>) {
    r.control.Normal? && x !in r.env && r.rest == tail
  }

  lemma {:induction false} AvoidBlockRuns(b: Block, x: string, env: set<string>, tail: seq<bool>)
    requires x !in env && Avoids(b, x)
    ensures Avoided(ExecBlock(b, env, AvoidBlock(b, x) + tail), x, tail)
    decreases b, 0
  {
    var a, v := AvoidStmts(b.stmts, x), PastOption(b.value);
    Assoc(a, v, tail);
    AvoidStmtsRun(b.stmts, x, env, v + tail);
    PastOptionEnds(b.value, ExecStmts(b.stmts, env, a + (v + tail)).env, tail);
  }

  lemma {:induction false} AvoidStmtsRun(stmts: seq<Stmt>, x: string, env: set<string>, tail: seq<bool>)
    requires x !in env && Escapes(MustStmts(stmts), x)
    ensures Avoided(ExecStmts(stmts, env, AvoidStmts(stmts, x) + tail), x, tail)
    decreases stmts, 0
  {
    if stmts == [] {
      assert [] + tail == tail;
    } else {
      var a, b := AvoidStmt(stmts[0], x), AvoidStmts(stmts[1..], x);
      Assoc(a, b, tail);
      StmtsAdd({}, stmts[1..], MustStmt(stmts[0]).value);
      AvoidStmtRuns(stmts[0], x, env, b + tail);
      AvoidStmtsRun(stmts[1..], x, ExecStmt(stmts[0], env, a + (b + tail)).env, tail);
    }
  }

  lemma {:induction false} AvoidStmtRuns(s: Stmt, x: string, env: set<string>, tail: seq<bool>)
    requires x !in env && Escapes(MustStmt(s), x)
    ensures Avoided(ExecStmt(s, env, AvoidStmt(s, x) + tail), x, tail)
    decreases s, 1
  {
    match s
    case Binding(_, value) => PastEnds(value, env, true, tail);
    case ExprStmt(expr) => PastEnds(expr, env, true, tail);
    case If(_, _, _, _) => AvoidIfRuns(s, x, env, tail);
    case While(cond, body) =>
      Assoc(Past(cond), [false], tail);
      PastEnds(cond, env, true, [false] + tail);
    case For(variable, iterable, body) =>
      Assoc(Past(iterable), [false], tail);
      PastEnds(iterable, env, true, [false] + tail);
      LoopStops({variable}, body, env, tail);
    case ForKV(keyVar, valueVar, iterable, body) =>
      Assoc(Past(iterable), [false], tail);
      PastEnds(iterable, env, true, [false] + tail);
      LoopStops({keyVar, valueVar}, body, env, tail);
    case ForRange(_, _, _, _, _) => AvoidRangeRuns(s, x, env, tail);
    case FieldAssign(target, _, value) =>
      Assoc(Past(target), Past(value), tail);
      PastEnds(target, env, true, Past(value) + tail);
      PastEnds(value, env, true, tail);
  }

  lemma LoopStops(vars: set<string>, body: Block, env: set<string>, tail: seq<bool>)
    ensures ExecLoop(None, vars, body, env, [false] + tail) == Run(env, {}, tail, Normal)
  {
    assert ([false] + tail)[1..] == tail;
  }

  lemma AvoidRangeRuns(s: Stmt, x: string, env: set<string>, tail: seq<bool>)
    requires s.ForRange? && x !in env
    ensures Avoided(ExecStmt(s, env, AvoidStmt(s, x) + tail), x, tail)
  {
    var a := PastRange(s.start, s.end, s.step);
    Assoc(a, [false], tail);
    PastRangeEnds(s.start, s.end, s.step, env, [false] + tail);
    LoopStops({s.variable}, s.body, env, tail);
  }

  lemma {:induction false} AvoidIfRuns(s: Stmt, x: string, env: set<string>, tail: seq<bool>)
    requires s.If? && x !in env && Escapes(MustStmt(s), x)
    ensures Avoided(ExecStmt(s, env, AvoidStmt(s, x) + tail), x, tail)
    decreases s, 0
  {
    if Avoids(s.body, x) {
      var a := AvoidBlock(s.body, x);
      Assoc(Past(s.cond), [true] + a, tail);
      Assoc([true], a, tail);
      PastEnds(s.cond, env, true, [true] + (a + tail));
      AvoidBlockRuns(s.body, x, env, tail);
    } else {
      var a, k := AvoidElse(s, x), Avoiding(s.elifs, x);
      Assoc(Past(s.cond), [false] + a, tail);
      Assoc([false], a, tail);
      PastEnds(s.cond, env, true, [false] + (a + tail));
      if s.orelse.None? {
        TowardsSelects(s.elifs, |s.elifs|, env, tail);
      } else {
        var b := if k < |s.elifs| then s.elifs[k].body else s.orelse.value;
        Assoc(Towards(s.elifs, k), AvoidBlock(b, x), tail);
        TowardsSelects(s.elifs, k, env, AvoidBlock(b, x) + tail);
        if k < |s.elifs| { AvoidedBranch(s.elifs, x); }
        else { AvoidingLast(s, x); }
        AvoidBlockRuns(b, x, env, tail);
      }
    }
  }

  lemma {:induction false} AvoidedBranch(brs: seq<Branch>, x: string)
    requires Avoiding(brs, x) < |brs|
    ensures Avoids(brs[Avoiding(brs, x)].body, x)
    decreases brs
  {
    if !Avoids(brs[0].body, x) { AvoidedBranch(brs[1..], x); }
  }

  lemma AvoidingLast(s: Stmt, x: string)
    requires s.If? && s.orelse.Some? && !Avoids(s.body, x) && Escapes(MustStmt(s), x)
    requires Avoiding(s.elifs, x) == |s.elifs|
    ensures Avoids(s.orelse.value, x)
  {
    if Escapes(RefineBranches({}, s.elifs, {}, Must(s.body)).bound, x) { AvoidingAt(s.elifs, x, Must(s.body)); }
  }

  // ---------------------------------------------------------------- reaching a warned occurrence

  /** Choices along which an expression evaluates the occurrence a warning is about. */
  function ReachExpr(bs: set<string>, e: Expr, bound: set<string>, w: Warning): seq<bool>
    decreases e
  {
    match e
    case Unary(_, operand) => ReachExpr(bs, operand, bound, w)
    case Binary(op, left, right) =>
      if w in WarnExpr(bs, left, bound) then ReachExpr(bs, left, bound, w)
      else Past(left) + ((if op.And? || op.Or? then [true] else []) + ReachExpr(bs, right, bound, w))
    case Ternary(cond, a, b) =>
      if w in WarnExpr(bs, cond, bound) then ReachExpr(bs, cond, bound, w)
      else if w in WarnExpr(bs, a, bound) then Past(cond) + ([true] + ReachExpr(bs, a, bound, w))
      else Past(cond) + ([false] + ReachExpr(bs, b, bound, w))
    case Call(callee, args) =>
      if w in WarnExpr(bs, callee, bound) then ReachExpr(bs, callee, bound, w)
      else Past(callee) + ReachAll(bs, args, bound, w)
    case List(items) => ReachAll(bs, items, bound, w)
    case Member(target, _) => ReachExpr(bs, target, bound, w)
    case _ => []
  }

  function ReachAll(bs: set<string>, es: seq<Expr>, bound: set<string>, w: Warning): seq<bool>
    decreases es
  {
    if es == [] then []
    else if w in WarnExpr(bs, es[0], bound) then ReachExpr(bs, es[0], bound, w)
    else Past(es[0]) + ReachAll(bs, es[1..], bound, w)
  }

  ghost predicate Hits(unbound: set<Read>, w: Warning) { Read(w.name, w.span, true) in unbound }

  lemma {:induction false} ReachExprHits(bs: set<string>, e: Expr, bound: set<string>, w: Warning, env: set<string>)
    requires w in WarnExpr(bs, e, bound) && w.name !in env
    ensures Hits(ReadsOf(e, env, true, ReachExpr(bs, e, bound, w)).unbound, w)
    decreases e
  {
    match e
    case Unary(_, operand) => ReachExprHits(bs, operand, bound, w, env);
    case Binary(op, left, right) =>
      if w in WarnExpr(bs, left, bound) { ReachExprHits(bs, left, bound, w, env); }
      else {
        var r := ReachExpr(bs, right, bound, w);
        PastEnds(left, env, true, (if op.And? || op.Or? then [true] else []) + r);
        ReachExprHits(bs, right, bound, w, env);
        assert [] + r == r;
      }
    case Ternary(cond, a, b) =>
      if w in WarnExpr(bs, cond, bound) { ReachExprHits(bs, cond, bound, w, env); }
      else if w in WarnExpr(bs, a, bound) {
        PastEnds(cond, env, true, [true] + ReachExpr(bs, a, bound, w));
        ReachExprHits(bs, a, bound, w, env);
      } else {
        PastEnds(cond, env, true, [false] + ReachExpr(bs, b, bound, w));
        ReachExprHits(bs, b, bound, w, env);
      }
    case Call(callee, args) =>
      if w in WarnExpr(bs, callee, bound) { ReachExprHits(bs, callee, bound, w, env); }
      else {
        PastEnds(callee, env, true, ReachAll(bs, args, bound, w));
        ReachAllHits(bs, args, bound, w, env);
      }
    case List(items) => ReachAllHits(bs, items, bound, w, env);
    case Member(target, _) => ReachExprHits(bs, target, bound, w, env);
    case _ =>
  }

  lemma {:induction false} ReachAllHits(bs: set<string>, es: seq<Expr>, bound: set<string>, w: Warning,
                                        env: set<string>)
    requires w in WarnAll(bs, es, bound) && w.name !in env
    ensures Hits(ReadsOfAll(es, env, true, ReachAll(bs, es, bound, w)).unbound, w)
    decreases es
  {
    if w in WarnExpr(bs, es[0], bound) { ReachExprHits(bs, es[0], bound, w, env); }
    else {
      PastEnds(es[0], env, true, ReachAll(bs, es[1..], bound, w));
      ReachAllHits(bs, es[1..], bound, w, env);
    }
  }

  lemma {:induction false} WarnedIsFree(bs: set<string>, e: Expr, bound: set<string>, w: Warning)
    requires w in WarnExpr(bs, e, bound)
    ensures w.name !in bound && Eligible(bs, w.name)
    decreases e
  {
    match e
    case Unary(_, operand) => WarnedIsFree(bs, operand, bound, w);
    case Binary(_, left, right) =>
      if w in WarnExpr(bs, left, bound) { WarnedIsFree(bs, left, bound, w); }
      else { WarnedIsFree(bs, right, bound, w); }
    case Ternary(cond, a, b) =>
      if w in WarnExpr(bs, cond, bound) { WarnedIsFree(bs, cond, bound, w); }
      else if w in WarnExpr(bs, a, bound) { WarnedIsFree(bs, a, bound, w); }
      else { WarnedIsFree(bs, b, bound, w); }
    case Call(callee, args) =>
      if w in WarnExpr(bs, callee, bound) { WarnedIsFree(bs, callee, bound, w); }
      else { WarnedAllFree(bs, args, bound, w); }
    case List(items) => WarnedAllFree(bs, items, bound, w);
    case Member(target, _) => WarnedIsFree(bs, target, bound, w);
    case _ =>
  }

  lemma {:induction false} WarnedAllFree(bs: set<string>, es: seq<Expr>, bound: set<string>, w: Warning)
    requires w in WarnAll(bs, es, bound)
    ensures w.name !in bound && Eligible(bs, w.name)
    decreases es
  {
    if w in WarnExpr(bs, es[0], bound) { WarnedIsFree(bs, es[0], bound, w); }
    else { WarnedAllFree(bs, es[1..], bound, w); }
  }

  function ReachOption(bs: set<string>, e: Option<Expr>, bound: set<string>, w: Warning): seq<bool> {
    if e.Some? then ReachExpr(bs, e.value, bound, w) else []
  }

  function ReachRange(bs: set<string>, s: Stmt, bound: set<string>, w: Warning): seq<bool>
    requires s.ForRange?
  {
    if w in WarnExpr(bs, s.start, bound) then ReachExpr(bs, s.start, bound, w)
    else if w in WarnExpr(bs, s.end, bound) then Past(s.start) + ReachExpr(bs, s.end, bound, w)
    else Past(s.start) + (Past(s.end) + ReachOption(bs, s.step, bound, w))
  }

  lemma ReachRangeHits(bs: set<string>, s: Stmt, bound: set<string>, w: Warning, env: set<string>)
    requires s.ForRange? && w.name !in env
    requires w in WarnExpr(bs, s.start, bound) + WarnExpr(bs, s.end, bound) + WarnOption(bs, s.step, bound)
    ensures Hits(ReadsOfRange(s.start, s.end, s.step, env, ReachRange(bs, s, bound, w)).unbound, w)
  {
    if w in WarnExpr(bs, s.start, bound) {
      ReachExprHits(bs, s.start, bound, w, env);
    } else if w in WarnExpr(bs, s.end, bound) {
      PastEnds(s.start, env, true, ReachExpr(bs, s.end, bound, w));
      ReachExprHits(bs, s.end, bound, w, env);
    } else {
      var r := ReachOption(bs, s.step, bound, w);
      PastEnds(s.start, env, true, Past(s.end) + r);
      PastEnds(s.end, env, true, r);
      ReachExprHits(bs, s.step.value, bound, w, env);
    }
  }

  /** The first branch that holds the occurrence, in its condition or its body. */
  function Holding(bs: set<string>, brs: seq<Branch>, bound: set<string>, w: Warning): (k: nat)
    ensures k <= |brs|
  {
    if brs == [] || w in RefineBranch(bs, brs[0], bound).warned then 0 else 1 + Holding(bs, brs[1..], bound, w)
  }

  lemma {:induction false} HoldingHolds(bs: set<string>, brs: seq<Branch>, bound: set<string>,
                                        common: Option<set<string>>, w: Warning)
    requires w in RefineBranches(bs, brs, bound, common).warned
    ensures var k := Holding(bs, brs, bound, w); k < |brs| && w in RefineBranch(bs, brs[k], bound).warned
    decreases brs
  {
    if w !in RefineBranch(bs, brs[0], bound).warned {
      HoldingHolds(bs, brs[1..], bound, Meet(common, RefineBranch(bs, brs[0], bound).bound), w);
    }
  }

  /** Choices that pass over `k` branches and reach the occurrence in the next condition. */
  function ReachCond(bs: set<string>, brs: seq<Branch>, k: nat, bound: set<string>, w: Warning): seq<bool>
    requires k < |brs|
    decreases brs
  {
    if k == 0 then ReachExpr(bs, brs[0].cond, bound, w)
    else Past(brs[0].cond) + ([false] + ReachCond(bs, brs[1..], k - 1, bound, w))
  }

  lemma {:induction false} ReachCondHits(bs: set<string>, brs: seq<Branch>, k: nat, bound: set<string>,
                                         w: Warning, env: set<string>)
    requires k < |brs| && w in WarnExpr(bs, brs[k].cond, bound) && w.name !in env
    ensures Hits(Select(brs, env, ReachCond(bs, brs, k, bound, w)).unbound, w)
    decreases brs
  {
    if k == 0 {
      ReachExprHits(bs, brs[0].cond, bound, w, env);
    } else {
      var r := ReachCond(bs, brs[1..], k - 1, bound, w);
      PastEnds(brs[0].cond, env, true, [false] + r);
      assert ([false] + r)[1..] == r;
      ReachCondHits(bs, brs[1..], k - 1, bound, w, env);
    }
  }

  function ReachBlock(bs: set<string>, b: Block, bound: set<string>, w: Warning): seq<bool>
    decreases b, 0
  {
    if w in RefineStmts(bs, b.stmts, bound).warned then ReachStmts(bs, b.stmts, bound, w)
    else
      var past := RefineStmts(bs, b.stmts, bound).bound;
      if past.None? then [] else AvoidStmts(b.stmts, w.name) + ReachOption(bs, b.value, past.value, w)
  }

  function ReachStmts(bs: set<string>, stmts: seq<Stmt>, bound: set<string>, w: Warning): seq<bool>
    decreases stmts, 0
  {
    if stmts == [] then []
    else
      var f := RefineStmt(bs, stmts[0], bound);
      if w in f.warned then ReachStmt(bs, stmts[0], bound, w)
      else if f.bound.None? then []
      else AvoidStmt(stmts[0], w.name) + ReachStmts(bs, stmts[1..], f.bound.value, w)
  }

  function ReachIf(bs: set<string>, s: Stmt, bound: set<string>, w: Warning): seq<bool>
    requires s.If?
    decreases s, 0
  {
    if w in WarnExpr(bs, s.cond, bound) then ReachExpr(bs, s.cond, bound, w)
    else if w in RefineBlock(bs, s.body, bound).warned then Past(s.cond) + ([true] + ReachBlock(bs, s.body, bound, w))
    else
      var k := Holding(bs, s.elifs, bound, w);
      Past(s.cond) + ([false] +
      if k < |s.elifs| then
        if w in WarnExpr(bs, s.elifs[k].cond, bound) then ReachCond(bs, s.elifs, k, bound, w)
        else Towards(s.elifs, k) + ReachBlock(bs, s.elifs[k].body, bound, w)
      else if s.orelse.Some? then Towards(s.elifs, k) + ReachBlock(bs, s.orelse.value, bound, w)
      else [])
  }

  function ReachStmt(bs: set<string>, s: Stmt, bound: set<string>, w: Warning): seq<bool>
    decreases s, 1
  {
    match s
    case Binding(_, value) => ReachExpr(bs, value, bound, w)
    case ExprStmt(expr) => ReachExpr(bs, expr, bound, w)
    case Return(result) => ReachExpr(bs, result, bound, w)
    case If(_, _, _, _) => ReachIf(bs, s, bound, w)
    case While(cond, body) =>
      if w in WarnExpr(bs, cond, bound) then ReachExpr(bs, cond, bound, w)
      else Past(cond) + ([true] + ReachBlock(bs, body, bound, w))
    case For(variable, iterable, body) =>
      if w in WarnExpr(bs, iterable, bound) then ReachExpr(bs, iterable, bound, w)
      else Past(iterable) + ([true] + ReachBlock(bs, body, bound + {variable}, w))
    case ForKV(keyVar, valueVar, iterable, body) =>
      if w in WarnExpr(bs, iterable, bound) then ReachExpr(bs, iterable, bound, w)
      else Past(iterable) + ([true] + ReachBlock(bs, body, bound + {keyVar, valueVar}, w))
    case ForRange(variable, start, end, step, body) =>
      if w in WarnExpr(bs, start, bound) + WarnExpr(bs, end, bound) + WarnOption(bs, step, bound) then
        ReachRange(bs, s, bound, w)
      else PastRange(start, end, step) + ([true] + ReachBlock(bs, body, bound + {variable}, w))
    case FieldAssign(target, _, value) =>
      if w in WarnExpr(bs, target, bound) then ReachExpr(bs, target, bound, w)
      else Past(target) + ReachExpr(bs, value, bound, w)
    case _ => []
  }

  // ---------------------------------------------------------------- a warned name is not yet bound

  lemma {:induction false} BlockWarnsFree(bs: set<string>, b: Block, bound: set<string>, w: Warning)
    requires w in RefineBlock(bs, b, bound).warned
    ensures w.name !in bound && Eligible(bs, w.name)
    decreases b, 0
  {
    StmtsAdd(bs, b.stmts, bound);
    if w in RefineStmts(bs, b.stmts, bound).warned { StmtsWarnFree(bs, b.stmts, bound, w); }
    else { WarnedIsFree(bs, b.value.value, RefineStmts(bs, b.stmts, bound).bound.value, w); }
  }

  lemma {:induction false} StmtsWarnFree(bs: set<string>, stmts: seq<Stmt>, bound: set<string>, w: Warning)
    requires w in RefineStmts(bs, stmts, bound).warned
    ensures w.name !in bound && Eligible(bs, w.name)
    decreases stmts, 0
  {
    var f := RefineStmt(bs, stmts[0], bound);
    StmtAdds(bs, stmts[0], bound);
    if w in f.warned { StmtWarnsFree(bs, stmts[0], bound, w); }
    else { StmtsWarnFree(bs, stmts[1..], f.bound.value, w); }
  }

  lemma {:induction false} BranchWarnsFree(bs: set<string>, br: Branch, bound: set<string>, w: Warning)
    requires w in RefineBranch(bs, br, bound).warned
    ensures w.name !in bound && Eligible(bs, w.name)
    decreases br, 0
  {
    if w in WarnExpr(bs, br.cond, bound) { WarnedIsFree(bs, br.cond, bound, w); }
    else { BlockWarnsFree(bs, br.body, bound, w); }
  }

  lemma {:induction false} IfWarnsFree(bs: set<string>, s: Stmt, bound: set<string>, w: Warning)
    requires s.If? && w in RefineStmt(bs, s, bound).warned
    ensures w.name !in bound && Eligible(bs, w.name)
    decreases s, 0
  {
    var t := RefineBlock(bs, s.body, bound);
    if w in WarnExpr(bs, s.cond, bound) { WarnedIsFree(bs, s.cond, bound, w); }
    else if w in t.warned { BlockWarnsFree(bs, s.body, bound, w); }
    else if w in RefineBranches(bs, s.elifs, bound, t.bound).warned {
      HoldingHolds(bs, s.elifs, bound, t.bound, w);
      BranchWarnsFree(bs, s.elifs[Holding(bs, s.elifs, bound, w)], bound, w);
    } else { BlockWarnsFree(bs, s.orelse.value, bound, w); }
  }

  lemma {:induction false} StmtWarnsFree(bs: set<string>, s: Stmt, bound: set<string>, w: Warning)
    requires w in RefineStmt(bs, s, bound).warned
    ensures w.name !in bound && Eligible(bs, w.name)
    decreases s, 1
  {
    match s
    case Binding(_, value) => WarnedIsFree(bs, value, bound, w);
    case ExprStmt(expr) => WarnedIsFree(bs, expr, bound, w);
    case Return(result) => WarnedIsFree(bs, result, bound, w);
    case If(_, _, _, _) => IfWarnsFree(bs, s, bound, w);
    case While(cond, body) =>
      if w in WarnExpr(bs, cond, bound) { WarnedIsFree(bs, cond, bound, w); }
      else { BlockWarnsFree(bs, body, bound, w); }
    case For(variable, iterable, body) =>
      if w in WarnExpr(bs, iterable, bound) { WarnedIsFree(bs, iterable, bound, w); }
      else { BlockWarnsFree(bs, body, bound + {variable}, w); }
    case ForKV(keyVar, valueVar, iterable, body) =>
      if w in WarnExpr(bs, iterable, bound) { WarnedIsFree(bs, iterable, bound, w); }
      else { BlockWarnsFree(bs, body, bound + {keyVar, valueVar}, w); }
    case ForRange(variable, start, end, step, body) =>
      if w in WarnExpr(bs, start, bound) { WarnedIsFree(bs, start, bound, w); }
      else if w in WarnExpr(bs, end, bound) { WarnedIsFree(bs, end, bound, w); }
      else if w in WarnOption(bs, step, bound) { WarnedIsFree(bs, step.value, bound, w); }
      else { BlockWarnsFree(bs, body, bound + {variable}, w); }
    case FieldAssign(target, _, value) =>
      if w in WarnExpr(bs, target, bound) { WarnedIsFree(bs, target, bound, w); }
      else { WarnedIsFree(bs, value, bound, w); }
    case _ =>
  }

  // ---------------------------------------------------------------- every warning has an execution

  lemma {:induction false} ReachBlockHits(bs: set<string>, b: Block, bound: set<string>, w: Warning, env: set<string>)
    requires w in RefineBlock(bs, b, bound).warned && w.name !in env
    ensures Hits(ExecBlock(b, env, ReachBlock(bs, b, bound, w)).unbound, w)
    decreases b, 0
  {
    var f := RefineStmts(bs, b.stmts, bound);
    if w in f.warned {
      ReachStmtsHit(bs, b.stmts, bound, w, env);
    } else {
      var a, r := AvoidStmts(b.stmts, w.name), ReachOption(bs, b.value, f.bound.value, w);
      WarnedIsFree(bs, b.value.value, f.bound.value, w);
      StmtsAdd(bs, b.stmts, bound);
      AvoidStmtsRun(b.stmts, w.name, env, r);
      ReachExprHits(bs, b.value.value, f.bound.value, w, ExecStmts(b.stmts, env, a + r).env);
    }
  }

  lemma {:induction false} ReachStmtsHit(bs: set<string>, stmts: seq<Stmt>, bound: set<string>, w: Warning,
                                         env: set<string>)
    requires w in RefineStmts(bs, stmts, bound).warned && w.name !in env
    ensures Hits(ExecStmts(stmts, env, ReachStmts(bs, stmts, bound, w)).unbound, w)
    decreases stmts, 0
  {
    var f := RefineStmt(bs, stmts[0], bound);
    if w in f.warned {
      ReachStmtHits(bs, stmts[0], bound, w, env);
    } else {
      var a, r := AvoidStmt(stmts[0], w.name), ReachStmts(bs, stmts[1..], f.bound.value, w);
      StmtsWarnFree(bs, stmts[1..], f.bound.value, w);
      StmtAdds(bs, stmts[0], bound);
      AvoidStmtRuns(stmts[0], w.name, env, r);
      ReachStmtsHit(bs, stmts[1..], f.bound.value, w, ExecStmt(stmts[0], env, a + r).env);
    }
  }

  lemma {:induction false} ReachIfHits(bs: set<string>, s: Stmt, bound: set<string>, w: Warning, env: set<string>)
    requires s.If? && w in RefineStmt(bs, s, bound).warned && w.name !in env
    ensures Hits(ExecStmt(s, env, ReachIf(bs, s, bound, w)).unbound, w)
    decreases s, 0
  {
    if w in WarnExpr(bs, s.cond, bound) {
      ReachExprHits(bs, s.cond, bound, w, env);
    } else if w in RefineBlock(bs, s.body, bound).warned {
      var r := ReachBlock(bs, s.body, bound, w);
      PastEnds(s.cond, env, true, [true] + r);
      assert ([true] + r)[1..] == r;
      ReachBlockHits(bs, s.body, bound, w, env);
    } else {
      ReachElseHits(bs, s, bound, w, env);
    }
  }

  /** The alternative that holds an occurrence known to be past the first body. */
  lemma ElseHolds(bs: set<string>, s: Stmt, bound: set<string>, w: Warning)
    requires s.If? && w in RefineStmt(bs, s, bound).warned
    requires w !in WarnExpr(bs, s.cond, bound) && w !in RefineBlock(bs, s.body, bound).warned
    ensures var k := Holding(bs, s.elifs, bound, w);
            if k < |s.elifs| then w in RefineBranch(bs, s.elifs[k], bound).warned
            else s.orelse.Some? && w in RefineBlock(bs, s.orelse.value, bound).warned
  {
    var common := RefineBlock(bs, s.body, bound).bound;
    if w in RefineBranches(bs, s.elifs, bound, common).warned { HoldingHolds(bs, s.elifs, bound, common, w); }
    if Holding(bs, s.elifs, bound, w) < |s.elifs| { HoldingAt(bs, s.elifs, bound, w); }
  }

  lemma {:induction false} ReachElseHits(bs: set<string>, s: Stmt, bound: set<string>, w: Warning, env: set<string>)
    requires s.If? && w in RefineStmt(bs, s, bound).warned && w.name !in env
    requires w !in WarnExpr(bs, s.cond, bound) && w !in RefineBlock(bs, s.body, bound).warned
    ensures Hits(ExecStmt(s, env, ReachIf(bs, s, bound, w)).unbound, w)
    decreases s, 0, 0
  {
    var k := Holding(bs, s.elifs, bound, w);
    ElseHolds(bs, s, bound, w);
    if k < |s.elifs| && w in WarnExpr(bs, s.elifs[k].cond, bound) {
      var r := ReachCond(bs, s.elifs, k, bound, w);
      PastEnds(s.cond, env, true, [false] + r);
      assert ([false] + r)[1..] == r;
      ReachCondHits(bs, s.elifs, k, bound, w, env);
    } else {
      var b := if k < |s.elifs| then s.elifs[k].body else s.orelse.value;
      var r := ReachBlock(bs, b, bound, w);
      ReachBlockHits(bs, b, bound, w, env);
      ElseRuns(s, k, env, r);
    }
  }

  /** Running the `k`th alternative of an `if` from choices that lead to it. */
  lemma ElseRuns(s: Stmt, k: nat, env: set<string>, r: seq<bool>)
    requires s.If? && k <= |s.elifs| && (k == |s.elifs| ==> s.orelse.Some?)
    ensures var b := if k < |s.elifs| then s.elifs[k].body else s.orelse.value;
            ExecBlock(b, env, r).unbound <=
            ExecStmt(s, env, Past(s.cond) + ([false] + (Towards(s.elifs, k) + r))).unbound
  {
    PastEnds(s.cond, env, true, [false] + (Towards(s.elifs, k) + r));
    assert ([false] + (Towards(s.elifs, k) + r))[1..] == Towards(s.elifs, k) + r;
    TowardsSelects(s.elifs, k, env, r);
  }

  lemma {:induction false} HoldingAt(bs: set<string>, brs: seq<Branch>, bound: set<string>, w: Warning)
    requires Holding(bs, brs, bound, w) < |brs|
    ensures w in RefineBranch(bs, brs[Holding(bs, brs, bound, w)], bound).warned
    decreases brs
  {
    if w !in RefineBranch(bs, brs[0], bound).warned { HoldingAt(bs, brs[1..], bound, w); }
  }

  lemma {:induction false} ReachLoopHits(bs: set<string>, vars: set<string>, body: Block, bound: set<string>,
                                         w: Warning, env: set<string>)
    requires w in RefineBlock(bs, body, bound + vars).warned && w.name !in env
    ensures Hits(ExecLoop(None, vars, body, env, [true] + ReachBlock(bs, body, bound + vars, w)).unbound, w)
    decreases body, 1
  {
    var r := ReachBlock(bs, body, bound + vars, w);
    assert ([true] + r)[1..] == r;
    BlockWarnsFree(bs, body, bound + vars, w);
    ReachBlockHits(bs, body, bound + vars, w, env + vars);
  }

  lemma {:induction false} ReachStmtHits(bs: set<string>, s: Stmt, bound: set<string>, w: Warning, env: set<string>)
    requires w in RefineStmt(bs, s, bound).warned && w.name !in env
    ensures Hits(ExecStmt(s, env, ReachStmt(bs, s, bound, w)).unbound, w)
    decreases s, 1
  {
    match s
    case Binding(_, value) => ReachExprHits(bs, value, bound, w, env);
    case ExprStmt(expr) => ReachExprHits(bs, expr, bound, w, env);
    case Return(result) => ReachExprHits(bs, result, bound, w, env);
    case If(_, _, _, _) => ReachIfHits(bs, s, bound, w, env);
    case While(cond, body) =>
      if w in WarnExpr(bs, cond, bound) { ReachExprHits(bs, cond, bound, w, env); }
      else {
        var r := ReachBlock(bs, body, bound, w);
        PastEnds(cond, env, true, [true] + r);
        assert ([true] + r)[1..] == r;
        assert env + {} == env;
        ReachBlockHits(bs, body, bound, w, env);
      }
    case For(variable, iterable, body) =>
      if w in WarnExpr(bs, iterable, bound) { ReachExprHits(bs, iterable, bound, w, env); }
      else {
        PastEnds(iterable, env, true, [true] + ReachBlock(bs, body, bound + {variable}, w));
        ReachLoopHits(bs, {variable}, body, bound, w, env);
      }
    case ForKV(keyVar, valueVar, iterable, body) =>
      if w in WarnExpr(bs, iterable, bound) { ReachExprHits(bs, iterable, bound, w, env); }
      else {
        PastEnds(iterable, env, true, [true] + ReachBlock(bs, body, bound + {keyVar, valueVar}, w));
        ReachLoopHits(bs, {keyVar, valueVar}, body, bound, w, env);
      }
    case ForRange(variable, start, end, step, body) =>
      if w in WarnExpr(bs, start, bound) + WarnExpr(bs, end, bound) + WarnOption(bs, step, bound) {
        ReachRangeHits(bs, s, bound, w, env);
      } else {
        PastRangeEnds(start, end, step, env, [true] + ReachBlock(bs, body, bound + {variable}, w));
        ReachLoopHits(bs, {variable}, body, bound, w, env);
      }
    case FieldAssign(target, _, value) =>
      if w in WarnExpr(bs, target, bound) { ReachExprHits(bs, target, bound, w, env); }
      else {
        PastEnds(target, env, true, ReachExpr(bs, value, bound, w));
        ReachExprHits(bs, value, bound, w, env);
      }
  }

  // ---------------------------------------------------------------- exactness

  /** Some execution with these names in scope reads the occurrence unbound. */
  ghost predicate Deserved(bs: set<string>, body: Block, scope: set<string>, w: Warning) {
    Eligible(bs, w.name) && exists cs :: Hits(ExecBlock(body, scope, cs).unbound, w)
  }

  /** The refined flow is exact for every body and every scope. */
  lemma RefinedIsExact(bs: set<string>, params: set<string>, body: Block, scope: set<string>, w: Warning)
    requires params <= scope
    ensures Deserved(bs, body, scope, w) <==> w in RefineBlock(bs, body, params).warned && w.name !in scope
  {
    if w in RefineBlock(bs, body, params).warned && w.name !in scope {
      BlockWarnsFree(bs, body, params, w);
      ReachBlockHits(bs, body, params, w, scope);
    }
    if Deserved(bs, body, scope, w) {
      var cs :| Hits(ExecBlock(body, scope, cs).unbound, w);
      RefinedBlockSound(bs, body, params, scope, cs);
      RefinedBlockSound(bs, body, scope, scope, cs);
      BlockWarnsFree(bs, body, scope, w);
    }
  }

  /** Every warning of the refined flow is one of the analysis. */
  lemma RefinedWarnsLess(bs: set<string>, params: set<string>, body: Block, w: Warning)
    requires w in RefineBlock(bs, body, params).warned
    ensures w in CheckBlock(bs, body, params).warned
  {
    BlockWarnsFree(bs, body, params, w);
    ReachBlockHits(bs, body, params, w, params);
    var cs := ReachBlock(bs, body, params, w);
    AnalysisIsSound(bs, params, body, params, cs, Read(w.name, w.span, true));
  }

  /** The analysis warns about exactly the unbound reads of executions if and only if it agrees
      with the refined flow and warns about no name that is in scope. */
  lemma AnalysisIsExact(bs: set<string>, params: set<string>, body: Block, scope: set<string>)
    requires params <= scope
    ensures (forall w :: w in CheckBlock(bs, body, params).warned <==> Deserved(bs, body, scope, w)) <==>
            forall w :: w in CheckBlock(bs, body, params).warned ==>
                          w in RefineBlock(bs, body, params).warned && w.name !in scope
  {
    forall w
      ensures Deserved(bs, body, scope, w) <==> w in RefineBlock(bs, body, params).warned && w.name !in scope
    {
      RefinedIsExact(bs, params, body, scope, w);
    }
    forall w | w in RefineBlock(bs, body, params).warned
      ensures w in CheckBlock(bs, body, params).warned
    {
      RefinedWarnsLess(bs, params, body, w);
    }
  }

  /** What the analysis warns about in any body, with whatever jumps: with names in scope, a
      warning about another name is given exactly when some execution of the body without its
      jumps reads it unbound. */
  lemma WarnsAsWithoutJumps(bs: set<string>, params: set<string>, body: Block, scope: set<string>, w: Warning)
    requires params <= scope
    ensures w in CheckBlock(bs, body, params).warned && w.name !in scope <==> Deserved(bs, EraseBlock(body), scope, w)
  {
    ErasedBlockSame(bs, body, params);
    RefinedIsExact(bs, params, EraseBlock(body), scope, w);
  }

  /** So without jumps a warning is deserved exactly when its name is not in scope. */
  lemma JumpFreeIsExact(bs: set<string>, params: set<string>, body: Block, scope: set<string>, w: Warning)
    requires params <= scope && JumpFreeBlock(body)
    ensures w in CheckBlock(bs, body, params).warned && w.name !in scope <==> Deserved(bs, body, scope, w)
  {
    JumpFreeBlockSame(bs, body, params);
    RefinedIsExact(bs, params, body, scope, w);
  }

  function OneStmt(s: Stmt): Block { Block([s], None) }

  lemma OneStmtRuns(s: Stmt, env: set<string>, cs: seq<bool>)
    ensures ExecBlock(OneStmt(s), env, cs) == ExecStmt(s, env, cs)
    ensures CheckBlock({}, OneStmt(s), env) == CheckStmt({}, s, env)
  {
    assert [s][1..] == [];
    var r, f := ExecStmt(s, env, cs), CheckStmt({}, s, env);
    assert r.unbound + {} == r.unbound;
    assert ExecStmts([s], env, cs) == r;
    assert f.warned + [] == f.warned;
    assert CheckStmts({}, [s], env) == f;
  }

  /** A jump can make a warning spurious: every run that reaches the read has bound the name. */
  lemma JumpsLosePrecision(cs: seq<bool>)
    ensures var test := If(Bool(true), OneStmt(Binding("x", Unit)), [], Some(OneStmt(Return(Unit))));
            var body := Block([test], Some(Identifier("x", 1)));
            && CheckBlock({}, body, {}).warned == [Warning("x", 1)]
            && ExecBlock(body, {}, cs).unbound == {}
  {
    var test := If(Bool(true), OneStmt(Binding("x", Unit)), [], Some(OneStmt(Return(Unit))));
    OneStmtRuns(Binding("x", Unit), {}, if cs == [] then [] else cs[1..]);
    OneStmtRuns(Return(Unit), {}, if cs == [] then [] else cs[1..]);
    OneStmtRuns(test, {}, cs);
    assert CheckStmt({}, test, {}) == Flow({}, []);
    assert ExecStmt(test, {}, cs).control.Normal? ==> ExecStmt(test, {}, cs).env == {"x"};
    assert ExecStmts([test], {}, cs) == ExecStmt(test, {}, cs) by { assert [test][1..] == []; }
    assert CheckStmts({}, [test], {}) == Flow({}, []) by { assert [test][1..] == []; }
  }

  /** A call of a function that is in scope is warned about: parameters are all the analysis
      starts from. */
  lemma OwnFunctionIsWarnedAbout(cs: seq<bool>)
    ensures var body := OneStmt(ExprStmt(Call(Identifier("helper", 1), [])));
            && CheckBlock({}, body, {}).warned == [Warning("helper", 1)]
            && ExecBlock(body, {"helper"}, cs).unbound == {}
  {
    OneStmtRuns(ExprStmt(Call(Identifier("helper", 1), [])), {"helper"}, cs);
    OneStmtRuns(ExprStmt(Call(Identifier("helper", 1), [])), {}, cs);
  }

  // ---------------------------------------------------------------- what is never looked at

  /** The occurrences of names in `e`, and whether the analysis walks to them. */
  function Occurrences(e: Expr, walked: bool): set<Read>
    decreases e
  {
    match e
    case Identifier(name, span) => {Read(name, span, walked)}
    case Unary(_, operand) => Occurrences(operand, walked)
    case Binary(_, left, right) => Occurrences(left, walked) + Occurrences(right, walked)
    case Ternary(cond, a, b) => Occurrences(cond, walked) + Occurrences(a, walked) + Occurrences(b, walked)
    case Call(callee, args) => Occurrences(callee, walked) + OccurrencesOfAll(args, walked)
    case List(items) => OccurrencesOfAll(items, walked)
    case Member(target, _) => Occurrences(target, walked)
    case Index(base, position) => Occurrences(base, false) + Occurrences(position, false)
    case Pipeline(source, stage) => Occurrences(source, false) + Occurrences(stage, false)
    case Throw(thrown) => Occurrences(thrown, false)
    case Lambda(_, body) => Occurrences(body, false)
    case _ => {}
  }

  function OccurrencesOfAll(es: seq<Expr>, walked: bool): set<Read>
    decreases es
  {
    if es == [] then {} else Occurrences(es[0], walked) + OccurrencesOfAll(es[1..], walked)
  }

  /** Every read of an execution is one of the occurrences. */
  lemma {:induction false} ReadsOccur(e: Expr, env: set<string>, walked: bool, cs: seq<bool>)
    ensures ReadsOf(e, env, walked, cs).unbound <= Occurrences(e, walked)
    decreases e
  {
    match e
    case Unary(_, operand) => ReadsOccur(operand, env, walked, cs);
    case Binary(op, left, right) =>
      ReadsOccur(left, env, walked, cs);
      var l := ReadsOf(left, env, walked, cs);
      ReadsOccur(right, env, walked, l.rest);
      if l.rest != [] { ReadsOccur(right, env, walked, l.rest[1..]); }
    case Ternary(cond, a, b) =>
      ReadsOccur(cond, env, walked, cs);
      var c := ReadsOf(cond, env, walked, cs);
      if c.rest != [] { ReadsOccur(if c.rest[0] then a else b, env, walked, c.rest[1..]); }
    case Call(callee, args) =>
      ReadsOccur(callee, env, walked, cs);
      ReadsOfAllOccur(args, env, walked, ReadsOf(callee, env, walked, cs).rest);
    case List(items) => ReadsOfAllOccur(items, env, walked, cs);
    case Member(target, _) => ReadsOccur(target, env, walked, cs);
    case Index(base, position) =>
      ReadsOccur(base, env, false, cs);
      ReadsOccur(position, env, false, ReadsOf(base, env, false, cs).rest);
    case Pipeline(source, stage) =>
      ReadsOccur(source, env, false, cs);
      ReadsOccur(stage, env, false, ReadsOf(source, env, false, cs).rest);
    case Throw(thrown) => ReadsOccur(thrown, env, false, cs);
    case Lambda(params, body) => ReadsOccur(body, env + (set x | x in params), false, cs);
    case _ =>
  }

  lemma {:induction false} ReadsOfAllOccur(es: seq<Expr>, env: set<string>, walked: bool, cs: seq<bool>)
    ensures ReadsOfAll(es, env, walked, cs).unbound <= OccurrencesOfAll(es, walked)
    decreases es
  {
    if es != [] {
      ReadsOccur(es[0], env, walked, cs);
      ReadsOfAllOccur(es[1..], env, walked, ReadsOf(es[0], env, walked, cs).rest);
    }
  }

  /** Every warning is about an occurrence the analysis walks to. */
  lemma {:induction false} WarningsAreWalked(bs: set<string>, e: Expr, bound: set<string>)
    ensures forall w | w in WarnExpr(bs, e, bound) :: Read(w.name, w.span, true) in Occurrences(e, true)
    decreases e
  {
    match e
    case Unary(_, operand) => WarningsAreWalked(bs, operand, bound);
    case Binary(_, left, right) => WarningsAreWalked(bs, left, bound); WarningsAreWalked(bs, right, bound);
    case Ternary(cond, a, b) =>
      WarningsAreWalked(bs, cond, bound);
      WarningsAreWalked(bs, a, bound);
      WarningsAreWalked(bs, b, bound);
    case Call(callee, args) => WarningsAreWalked(bs, callee, bound); AllWarningsAreWalked(bs, args, bound);
    case List(items) => AllWarningsAreWalked(bs, items, bound);
    case Member(target, _) => WarningsAreWalked(bs, target, bound);
    case _ =>
  }

  lemma {:induction false} AllWarningsAreWalked(bs: set<string>, es: seq<Expr>, bound: set<string>)
    ensures forall w | w in WarnAll(bs, es, bound) :: Read(w.name, w.span, true) in OccurrencesOfAll(es, true)
    decreases es
  {
    if es != [] {
      WarningsAreWalked(bs, es[0], bound);
      AllWarningsAreWalked(bs, es[1..], bound);
    }
  }

  /** A read the analysis does not walk to is never warned about, in any execution of any
      expression in which a place in the source is not both walked and not walked. */
  lemma HiddenReadsAreSilent(bs: set<string>, e: Expr, bound: set<string>, env: set<string>, cs: seq<bool>, r: Read)
    requires forall a, b :: a in Occurrences(e, true) && b in Occurrences(e, true) && a.span == b.span ==> a == b
    requires r in ReadsOf(e, env, true, cs).unbound && !r.walked
    ensures Warning(r.name, r.span) !in WarnExpr(bs, e, bound)
  {
    ReadsOccur(e, env, true, cs);
    WarningsAreWalked(bs, e, bound);
    var walked := Read(r.name, r.span, true);
    assert walked in Occurrences(e, true) ==> walked.span != r.span;
  }

  /** An occurrence inside an index is never looked at, bound or not. */
  lemma IndexIsNotWalked(bs: set<string>, name: string, span: nat)
    ensures var e := Index(Identifier(name, span), Integer(0));
            WarnExpr(bs, e, {}) == [] && Read(name, span, false) in ReadsOf(e, {}, true, []).unbound
  {
  }
}
