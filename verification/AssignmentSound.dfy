/** Definite assignment is sound: in every execution, a walked occurrence of an eligible name
    is read unbound only where the analysis warned. */
module AssignmentSound {
  import opened Ast
  import opened DefiniteAssignment
  import opened Paths

  ghost predicate Covered(bs: set<string>, unbound: set<Read>, warned: seq<Warning>) {
    forall r | r in unbound && r.walked && Eligible(bs, r.name) :: Warning(r.name, r.span) in warned
  }

  /** What the analysis promises about a run that starts in `env`. */
  ghost predicate Sound(bs: set<string>, r: Run, env: set<string>, f: Flow) {
    && env <= r.env
    && Covered(bs, r.unbound, f.warned)
    && (r.control.Normal? ==> f.bound <= r.env)
  }

  lemma {:induction false} HiddenReads(e: Expr, env: set<string>, cs: seq<bool>)
    ensures forall r | r in ReadsOf(e, env, false, cs).unbound :: !r.walked
    decreases e
  {
    match e
    case Unary(_, operand) => HiddenReads(operand, env, cs);
    case Binary(op, left, right) =>
      HiddenReads(left, env, cs);
      var l := ReadsOf(left, env, false, cs);
      HiddenReads(right, env, l.rest);
      if l.rest != [] { HiddenReads(right, env, l.rest[1..]); }
    case Ternary(cond, a, b) =>
      HiddenReads(cond, env, cs);
      var c := ReadsOf(cond, env, false, cs);
      if c.rest != [] { HiddenReads(if c.rest[0] then a else b, env, c.rest[1..]); }
    case Call(callee, args) =>
      HiddenReads(callee, env, cs);
      HiddenReadsAll(args, env, ReadsOf(callee, env, false, cs).rest);
    case List(items) => HiddenReadsAll(items, env, cs);
    case Member(target, _) => HiddenReads(target, env, cs);
    case Index(base, position) =>
      HiddenReads(base, env, cs);
      HiddenReads(position, env, ReadsOf(base, env, false, cs).rest);
    case Pipeline(source, stage) =>
      HiddenReads(source, env, cs);
      HiddenReads(stage, env, ReadsOf(source, env, false, cs).rest);
    case Throw(thrown) => HiddenReads(thrown, env, cs);
    case Lambda(params, body) => HiddenReads(body, env + (set x | x in params), cs);
    case _ =>
  }

  lemma {:induction false} HiddenReadsAll(es: seq<Expr>, env: set<string>, cs: seq<bool>)
    ensures forall r | r in ReadsOfAll(es, env, false, cs).unbound :: !r.walked
    decreases es
  {
    if es != [] {
      HiddenReads(es[0], env, cs);
      HiddenReadsAll(es[1..], env, ReadsOf(es[0], env, false, cs).rest);
    }
  }

  lemma {:induction false} ExprSound(bs: set<string>, e: Expr, bound: set<string>, env: set<string>, cs: seq<bool>)
    requires bound <= env
    ensures Covered(bs, ReadsOf(e, env, true, cs).unbound, WarnExpr(bs, e, bound))
    decreases e
  {
    match e
    case Unary(_, operand) => ExprSound(bs, operand, bound, env, cs);
    case Binary(op, left, right) =>
      ExprSound(bs, left, bound, env, cs);
      var l := ReadsOf(left, env, true, cs);
      ExprSound(bs, right, bound, env, l.rest);
      if l.rest != [] { ExprSound(bs, right, bound, env, l.rest[1..]); }
    case Ternary(cond, a, b) =>
      ExprSound(bs, cond, bound, env, cs);
      var c := ReadsOf(cond, env, true, cs);
      if c.rest != [] { ExprSound(bs, if c.rest[0] then a else b, bound, env, c.rest[1..]); }
    case Call(callee, args) =>
      ExprSound(bs, callee, bound, env, cs);
      AllSound(bs, args, bound, env, ReadsOf(callee, env, true, cs).rest);
    case List(items) => AllSound(bs, items, bound, env, cs);
    case Member(target, _) => ExprSound(bs, target, bound, env, cs);
    case Index(base, position) =>
      HiddenReads(base, env, cs);
      HiddenReads(position, env, ReadsOf(base, env, false, cs).rest);
    case Pipeline(source, stage) =>
      HiddenReads(source, env, cs);
      HiddenReads(stage, env, ReadsOf(source, env, false, cs).rest);
    case Throw(thrown) => HiddenReads(thrown, env, cs);
    case Lambda(params, body) => HiddenReads(body, env + (set x | x in params), cs);
    case _ =>
  }

  lemma {:induction false} AllSound(bs: set<string>, es: seq<Expr>, bound: set<string>, env: set<string>, cs: seq<bool>)
    requires bound <= env
    ensures Covered(bs, ReadsOfAll(es, env, true, cs).unbound, WarnAll(bs, es, bound))
    decreases es
  {
    if es != [] {
      ExprSound(bs, es[0], bound, env, cs);
      AllSound(bs, es[1..], bound, env, ReadsOf(es[0], env, true, cs).rest);
    }
  }

  lemma OptionSound(bs: set<string>, e: Option<Expr>, bound: set<string>, env: set<string>, cs: seq<bool>)
    requires bound <= env
    ensures Covered(bs, ReadsOfOption(e, env, cs).unbound, WarnOption(bs, e, bound))
  {
    if e.Some? { ExprSound(bs, e.value, bound, env, cs); }
  }

  // ---------------------------------------------------------------- statements

  lemma {:induction false} BlockSound(bs: set<string>, b: Block, bound: set<string>, env: set<string>, cs: seq<bool>)
    requires bound <= env
    ensures Sound(bs, ExecBlock(b, env, cs), env, CheckBlock(bs, b, bound))
    decreases |cs|, b, 0
  {
    StmtsSound(bs, b.stmts, bound, env, cs);
    var s := ExecStmts(b.stmts, env, cs);
    if s.control.Normal? {
      OptionSound(bs, b.value, CheckStmts(bs, b.stmts, bound).bound, s.env, s.rest);
    }
  }

  lemma {:induction false} StmtsSound(bs: set<string>, stmts: seq<Stmt>, bound: set<string>, env: set<string>,
                                      cs: seq<bool>)
    requires bound <= env
    ensures Sound(bs, ExecStmts(stmts, env, cs), env, CheckStmts(bs, stmts, bound))
    decreases |cs|, stmts, 0
  {
    if stmts != [] {
      var s := ExecStmt(stmts[0], env, cs);
      StmtSound(bs, stmts[0], bound, env, cs);
      if s.control.Normal? {
        StmtsSound(bs, stmts[1..], CheckStmt(bs, stmts[0], bound).bound, s.env, s.rest);
      }
    }
  }

  lemma {:induction false} SelectSound(bs: set<string>, brs: seq<Branch>, bound: set<string>, common: set<string>,
                                       env: set<string>, cs: seq<bool>)
    requires bound <= env
    ensures Covered(bs, Select(brs, env, cs).unbound, CheckBranches(bs, brs, bound, common).warned)
    decreases brs
  {
    if brs != [] {
      ExprSound(bs, brs[0].cond, bound, env, cs);
      var c := ReadsOf(brs[0].cond, env, true, cs);
      if c.rest != [] {
        SelectSound(bs, brs[1..], bound, common * CheckBranch(bs, brs[0], bound).bound, env, c.rest[1..]);
      }
    }
  }

  /** The common set is below every branch, and every branch's warnings are kept. */
  lemma {:induction false} BranchFlow(bs: set<string>, brs: seq<Branch>, bound: set<string>, common: set<string>)
    ensures var f := CheckBranches(bs, brs, bound, common);
            && f.bound <= common
            && forall k | 0 <= k < |brs| ::
                 var g := CheckBlock(bs, brs[k].body, bound);
                 f.bound <= g.bound && forall w | w in g.warned :: w in f.warned
    decreases brs
  {
    if brs != [] {
      BranchFlow(bs, brs[1..], bound, common * CheckBranch(bs, brs[0], bound).bound);
      assert forall k | 0 < k < |brs| :: brs[k] == brs[1..][k - 1];
    }
  }

  lemma {:induction false} IfSound(bs: set<string>, s: Stmt, bound: set<string>, env: set<string>, cs: seq<bool>)
    requires bound <= env && s.If?
    ensures Sound(bs, ExecStmt(s, env, cs), env, CheckStmt(bs, s, bound))
    decreases |cs|, s, 2
  {
    ExprSound(bs, s.cond, bound, env, cs);
    var c := ReadsOf(s.cond, env, true, cs);
    var t := CheckBlock(bs, s.body, bound);
    if c.done && c.rest != [] {
      BranchFlow(bs, s.elifs, bound, t.bound);
      BlockSound(bs, s.body, bound, env, c.rest[1..]);
      SelectSound(bs, s.elifs, bound, t.bound, env, c.rest[1..]);
      var chosen := Select(s.elifs, env, c.rest[1..]);
      if chosen.k < |s.elifs| {
        BlockSound(bs, s.elifs[chosen.k].body, bound, env, chosen.rest);
      } else if s.orelse.Some? {
        BlockSound(bs, s.orelse.value, bound, env, chosen.rest);
      }
      BlockGrows(bs, s.body, bound);
    }
  }

  /** Checking never forgets a name. */
  lemma {:induction false} BlockGrows(bs: set<string>, b: Block, bound: set<string>)
    ensures bound <= CheckBlock(bs, b, bound).bound
    decreases b, 0
  {
    StmtsGrow(bs, b.stmts, bound);
  }

  lemma {:induction false} StmtsGrow(bs: set<string>, stmts: seq<Stmt>, bound: set<string>)
    ensures bound <= CheckStmts(bs, stmts, bound).bound
    decreases stmts, 0
  {
    if stmts != [] {
      StmtGrows(bs, stmts[0], bound);
      StmtsGrow(bs, stmts[1..], CheckStmt(bs, stmts[0], bound).bound);
    }
  }

  lemma {:induction false} BranchGrows(bs: set<string>, br: Branch, bound: set<string>)
    ensures bound <= CheckBranch(bs, br, bound).bound
    decreases br, 0
  {
    BlockGrows(bs, br.body, bound);
  }

  lemma {:induction false} BranchesGrow(bs: set<string>, brs: seq<Branch>, bound: set<string>, common: set<string>)
    requires bound <= common
    ensures bound <= CheckBranches(bs, brs, bound, common).bound
    decreases brs, 0
  {
    if brs != [] {
      BranchGrows(bs, brs[0], bound);
      BranchesGrow(bs, brs[1..], bound, common * CheckBranch(bs, brs[0], bound).bound);
    }
  }

  lemma {:induction false} StmtGrows(bs: set<string>, s: Stmt, bound: set<string>)
    ensures bound <= CheckStmt(bs, s, bound).bound
    decreases s, 0
  {
    if s.If? && s.orelse.Some? {
      BlockGrows(bs, s.body, bound);
      BranchesGrow(bs, s.elifs, bound, CheckBlock(bs, s.body, bound).bound);
      BlockGrows(bs, s.orelse.value, bound);
    }
  }

  lemma {:induction false} LoopSound(bs: set<string>, cond: Option<Expr>, vars: set<string>, body: Block,
                                     bound: set<string>, env: set<string>, cs: seq<bool>)
    requires bound <= env
    ensures var r := ExecLoop(cond, vars, body, env, cs);
            && env <= r.env
            && Covered(bs, r.unbound, WarnOption(bs, cond, bound) + CheckBlock(bs, body, bound + vars).warned)
    decreases |cs|, body, 2
  {
    OptionSound(bs, cond, bound, env, cs);
    var c := ReadsOfOption(cond, env, cs);
    if c.done && c.rest != [] && c.rest[0] {
      BlockSound(bs, body, bound + vars, env + vars, c.rest[1..]);
      var s := ExecBlock(body, env + vars, c.rest[1..]);
      if s.control.Normal? || s.control.Continued? {
        LoopSound(bs, cond, vars, body, bound, s.env, s.rest);
      }
    }
  }

  lemma {:induction false} StmtSound(bs: set<string>, s: Stmt, bound: set<string>, env: set<string>, cs: seq<bool>)
    requires bound <= env
    ensures Sound(bs, ExecStmt(s, env, cs), env, CheckStmt(bs, s, bound))
    decreases |cs|, s, 3
  {
    match s
    case Binding(_, value) => ExprSound(bs, value, bound, env, cs);
    case ExprStmt(expr) => ExprSound(bs, expr, bound, env, cs);
    case Return(result) => ExprSound(bs, result, bound, env, cs);
    case If(_, _, _, _) => IfSound(bs, s, bound, env, cs);
    case While(cond, body) =>
      assert bound + {} == bound;
      LoopSound(bs, Some(cond), {}, body, bound, env, cs);
    case For(variable, iterable, body) =>
      ExprSound(bs, iterable, bound, env, cs);
      LoopSound(bs, None, {variable}, body, bound, env, ReadsOf(iterable, env, true, cs).rest);
    case ForKV(keyVar, valueVar, iterable, body) =>
      ExprSound(bs, iterable, bound, env, cs);
      LoopSound(bs, None, {keyVar, valueVar}, body, bound, env, ReadsOf(iterable, env, true, cs).rest);
    case ForRange(_, _, _, _, _) => RangeSound(bs, s, bound, env, cs);
    case FieldAssign(target, _, value) =>
      ExprSound(bs, target, bound, env, cs);
      ExprSound(bs, value, bound, env, ReadsOf(target, env, true, cs).rest);
    case _ =>
  }

  lemma {:induction false} RangeSound(bs: set<string>, s: Stmt, bound: set<string>, env: set<string>, cs: seq<bool>)
    requires bound <= env && s.ForRange?
    ensures Sound(bs, ExecStmt(s, env, cs), env, CheckStmt(bs, s, bound))
    decreases |cs|, s, 2
  {
    var a := ReadsOf(s.start, env, true, cs);
    ExprSound(bs, s.start, bound, env, cs);
    ExprSound(bs, s.end, bound, env, a.rest);
    OptionSound(bs, s.step, bound, env, ReadsOf(s.end, env, true, a.rest).rest);
    var d := ReadsOfRange(s.start, s.end, s.step, env, cs);
    if d.done { LoopSound(bs, None, {s.variable}, s.body, bound, env, d.rest); }
  }

  /** In every execution of a function body, whatever else is in scope, an unbound read of an
      eligible name at an occurrence the analysis walks was warned about. */
  lemma AnalysisIsSound(bs: set<string>, params: set<string>, body: Block, scope: set<string>, cs: seq<bool>, r: Read)
    requires params <= scope
    requires r in ExecBlock(body, scope, cs).unbound && r.walked && Eligible(bs, r.name)
    ensures Warning(r.name, r.span) in CheckBlock(bs, body, params).warned
  {
    BlockSound(bs, body, params, scope, cs);
  }
}
