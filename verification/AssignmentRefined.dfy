/** Definite assignment as it would be with jumps taken into account: code behind a jump is
    never reached, and a join looks only at the branches that get there. This flow is a
    reference to measure the analysis against; it is sound for every execution. */
module AssignmentRefined {
  import opened Ast
  import opened DefiniteAssignment
  import opened Paths
  import opened AssignmentSound

  /** `bound` is `None` when no execution gets past the code. */
  datatype Exit = Exit(bound: Option<set<string>>, warned: seq<Warning>)

  /** What is bound where two paths join. */
  function Meet(a: Option<set<string>>, b: Option<set<string>>): Option<set<string>> {
    if a.None? then b else if b.None? then a else Some(a.value * b.value)
  }

  function RefineBlock(bs: set<string>, b: Block, bound: set<string>): Exit
    decreases b, 0
  {
    var f := RefineStmts(bs, b.stmts, bound);
    if f.bound.None? then f else Exit(f.bound, f.warned + WarnOption(bs, b.value, f.bound.value))
  }

  function RefineStmts(bs: set<string>, stmts: seq<Stmt>, bound: set<string>): Exit
    decreases stmts, 0
  {
    if stmts == [] then Exit(Some(bound), [])
    else
      var f := RefineStmt(bs, stmts[0], bound);
      if f.bound.None? then f
      else
        var g := RefineStmts(bs, stmts[1..], f.bound.value);
        Exit(g.bound, f.warned + g.warned)
  }

  function RefineBranch(bs: set<string>, br: Branch, bound: set<string>): Exit
    decreases br, 0
  {
    var f := RefineBlock(bs, br.body, bound);
    Exit(f.bound, WarnExpr(bs, br.cond, bound) + f.warned)
  }

  function RefineBranches(bs: set<string>, brs: seq<Branch>, bound: set<string>, common: Option<set<string>>): Exit
    decreases brs, 0
  {
    if brs == [] then Exit(common, [])
    else
      var f := RefineBranch(bs, brs[0], bound);
      var g := RefineBranches(bs, brs[1..], bound, Meet(common, f.bound));
      Exit(g.bound, f.warned + g.warned)
  }

  /** A loop may be left before its body ever runs. */
  function PastLoop(before: seq<Warning>, inside: Exit, bound: set<string>): Exit {
    Exit(Some(bound), before + inside.warned)
  }

  function RefineStmt(bs: set<string>, s: Stmt, bound: set<string>): Exit
    decreases s, 0
  {
    match s
    case Binding(name, value) => Exit(Some(bound + {name}), WarnExpr(bs, value, bound))
    case ExprStmt(expr) => Exit(Some(bound), WarnExpr(bs, expr, bound))
    case Return(result) => Exit(None, WarnExpr(bs, result, bound))
    case If(cond, body, elifs, orelse) =>
      var t := RefineBlock(bs, body, bound);
      var f := RefineBranches(bs, elifs, bound, t.bound);
      var warned := WarnExpr(bs, cond, bound) + t.warned + f.warned;
      if orelse.None? then Exit(Some(bound), warned)
      else
        var last := RefineBlock(bs, orelse.value, bound);
        Exit(Meet(f.bound, last.bound), warned + last.warned)
    case While(cond, body) => PastLoop(WarnExpr(bs, cond, bound), RefineBlock(bs, body, bound), bound)
    case For(variable, iterable, body) =>
      PastLoop(WarnExpr(bs, iterable, bound), RefineBlock(bs, body, bound + {variable}), bound)
    case ForKV(keyVar, valueVar, iterable, body) =>
      PastLoop(WarnExpr(bs, iterable, bound), RefineBlock(bs, body, bound + {keyVar, valueVar}), bound)
    case ForRange(variable, start, end, step, body) =>
      PastLoop(WarnExpr(bs, start, bound) + WarnExpr(bs, end, bound) + WarnOption(bs, step, bound),
               RefineBlock(bs, body, bound + {variable}), bound)
    case FieldAssign(target, _, value) => Exit(Some(bound), WarnExpr(bs, target, bound) + WarnExpr(bs, value, bound))
    case _ => Exit(None, [])
  }

  // ---------------------------------------------------------------- soundness

  ghost predicate SoundExit(bs: set<string>, r: Run, env: set<string>, f: Exit) {
    && env <= r.env
    && Covered(bs, r.unbound, f.warned)
    && (r.control.Normal? ==> f.bound.Some? && f.bound.value <= r.env)
  }

  lemma {:induction false} RefinedBlockSound(bs: set<string>, b: Block, bound: set<string>, env: set<string>,
                                             cs: seq<bool>)
    requires bound <= env
    ensures SoundExit(bs, ExecBlock(b, env, cs), env, RefineBlock(bs, b, bound))
    decreases |cs|, b, 0
  {
    RefinedStmtsSound(bs, b.stmts, bound, env, cs);
    var s := ExecStmts(b.stmts, env, cs);
    if s.control.Normal? {
      OptionSound(bs, b.value, RefineStmts(bs, b.stmts, bound).bound.value, s.env, s.rest);
    }
  }

  lemma {:induction false} RefinedStmtsSound(bs: set<string>, stmts: seq<Stmt>, bound: set<string>, env: set<string>,
                                             cs: seq<bool>)
    requires bound <= env
    ensures SoundExit(bs, ExecStmts(stmts, env, cs), env, RefineStmts(bs, stmts, bound))
    decreases |cs|, stmts, 0
  {
    if stmts != [] {
      var s := ExecStmt(stmts[0], env, cs);
      RefinedStmtSound(bs, stmts[0], bound, env, cs);
      if s.control.Normal? {
        RefinedStmtsSound(bs, stmts[1..], RefineStmt(bs, stmts[0], bound).bound.value, s.env, s.rest);
      }
    }
  }

  lemma {:induction false} RefinedSelectSound(bs: set<string>, brs: seq<Branch>, bound: set<string>,
                                              common: Option<set<string>>, env: set<string>, cs: seq<bool>)
    requires bound <= env
    ensures Covered(bs, Select(brs, env, cs).unbound, RefineBranches(bs, brs, bound, common).warned)
    decreases brs
  {
    if brs != [] {
      ExprSound(bs, brs[0].cond, bound, env, cs);
      var c := ReadsOf(brs[0].cond, env, true, cs);
      if c.rest != [] {
        RefinedSelectSound(bs, brs[1..], bound, Meet(common, RefineBranch(bs, brs[0], bound).bound), env, c.rest[1..]);
      }
    }
  }

  /** `a` lets every execution through that `b` does, with no more names. */
  ghost predicate Below(a: Option<set<string>>, b: Option<set<string>>) {
    b.Some? ==> a.Some? && a.value <= b.value
  }

  lemma {:induction false} RefinedBranchFlow(bs: set<string>, brs: seq<Branch>, bound: set<string>,
                                             common: Option<set<string>>)
    ensures var f := RefineBranches(bs, brs, bound, common);
            && Below(f.bound, common)
            && forall k | 0 <= k < |brs| ::
                 var g := RefineBlock(bs, brs[k].body, bound);
                 Below(f.bound, g.bound) && forall w | w in g.warned :: w in f.warned
    decreases brs
  {
    if brs != [] {
      RefinedBranchFlow(bs, brs[1..], bound, Meet(common, RefineBranch(bs, brs[0], bound).bound));
      assert forall k | 0 < k < |brs| :: brs[k] == brs[1..][k - 1];
    }
  }

  lemma {:induction false} RefinedIfSound(bs: set<string>, s: Stmt, bound: set<string>, env: set<string>, cs: seq<bool>)
    requires bound <= env && s.If?
    ensures SoundExit(bs, ExecStmt(s, env, cs), env, RefineStmt(bs, s, bound))
    decreases |cs|, s, 2
  {
    ExprSound(bs, s.cond, bound, env, cs);
    var c := ReadsOf(s.cond, env, true, cs);
    var t := RefineBlock(bs, s.body, bound);
    if c.done && c.rest != [] {
      RefinedBranchFlow(bs, s.elifs, bound, t.bound);
      RefinedBlockSound(bs, s.body, bound, env, c.rest[1..]);
      RefinedSelectSound(bs, s.elifs, bound, t.bound, env, c.rest[1..]);
      var chosen := Select(s.elifs, env, c.rest[1..]);
      if chosen.k < |s.elifs| {
        RefinedBlockSound(bs, s.elifs[chosen.k].body, bound, env, chosen.rest);
      } else if s.orelse.Some? {
        RefinedBlockSound(bs, s.orelse.value, bound, env, chosen.rest);
      }
    }
  }

  lemma {:induction false} RefinedLoopSound(bs: set<string>, cond: Option<Expr>, vars: set<string>, body: Block,
                                            bound: set<string>, env: set<string>, cs: seq<bool>)
    requires bound <= env
    ensures var r := ExecLoop(cond, vars, body, env, cs);
            && env <= r.env
            && Covered(bs, r.unbound, WarnOption(bs, cond, bound) + RefineBlock(bs, body, bound + vars).warned)
    decreases |cs|, body, 2
  {
    OptionSound(bs, cond, bound, env, cs);
    var c := ReadsOfOption(cond, env, cs);
    if c.done && c.rest != [] && c.rest[0] {
      RefinedBlockSound(bs, body, bound + vars, env + vars, c.rest[1..]);
      var s := ExecBlock(body, env + vars, c.rest[1..]);
      if s.control.Normal? || s.control.Continued? {
        RefinedLoopSound(bs, cond, vars, body, bound, s.env, s.rest);
      }
    }
  }

  lemma {:induction false} RefinedStmtSound(bs: set<string>, s: Stmt, bound: set<string>, env: set<string>,
                                            cs: seq<bool>)
    requires bound <= env
    ensures SoundExit(bs, ExecStmt(s, env, cs), env, RefineStmt(bs, s, bound))
    decreases |cs|, s, 3
  {
    match s
    case Binding(_, value) => ExprSound(bs, value, bound, env, cs);
    case ExprStmt(expr) => ExprSound(bs, expr, bound, env, cs);
    case Return(result) => ExprSound(bs, result, bound, env, cs);
    case If(_, _, _, _) => RefinedIfSound(bs, s, bound, env, cs);
    case While(cond, body) =>
      assert bound + {} == bound;
      RefinedLoopSound(bs, Some(cond), {}, body, bound, env, cs);
    case For(variable, iterable, body) =>
      ExprSound(bs, iterable, bound, env, cs);
      RefinedLoopSound(bs, None, {variable}, body, bound, env, ReadsOf(iterable, env, true, cs).rest);
    case ForKV(keyVar, valueVar, iterable, body) =>
      ExprSound(bs, iterable, bound, env, cs);
      RefinedLoopSound(bs, None, {keyVar, valueVar}, body, bound, env, ReadsOf(iterable, env, true, cs).rest);
    case ForRange(_, _, _, _, _) => RefinedRangeSound(bs, s, bound, env, cs);
    case FieldAssign(target, _, value) =>
      ExprSound(bs, target, bound, env, cs);
      ExprSound(bs, value, bound, env, ReadsOf(target, env, true, cs).rest);
    case _ =>
  }

  lemma {:induction false} RefinedRangeSound(bs: set<string>, s: Stmt, bound: set<string>, env: set<string>,
                                             cs: seq<bool>)
    requires bound <= env && s.ForRange?
    ensures SoundExit(bs, ExecStmt(s, env, cs), env, RefineStmt(bs, s, bound))
    decreases |cs|, s, 2
  {
    var a := ReadsOf(s.start, env, true, cs);
    ExprSound(bs, s.start, bound, env, cs);
    ExprSound(bs, s.end, bound, env, a.rest);
    OptionSound(bs, s.step, bound, env, ReadsOf(s.end, env, true, a.rest).rest);
    var d := ReadsOfRange(s.start, s.end, s.step, env, cs);
    if d.done { RefinedLoopSound(bs, None, {s.variable}, s.body, bound, env, d.rest); }
  }

  // ---------------------------------------------------------------- code without jumps

  predicate JumpFreeBlock(b: Block)
    decreases b, 0
  {
    JumpFree(b.stmts)
  }

  predicate JumpFree(stmts: seq<Stmt>)
    decreases stmts, 0
  {
    stmts == [] || (JumpFreeStmt(stmts[0]) && JumpFree(stmts[1..]))
  }

  predicate JumpFreeBranch(br: Branch)
    decreases br, 0
  {
    JumpFreeBlock(br.body)
  }

  predicate JumpFreeBranches(brs: seq<Branch>)
    decreases brs, 0
  {
    brs == [] || (JumpFreeBranch(brs[0]) && JumpFreeBranches(brs[1..]))
  }

  predicate JumpFreeStmt(s: Stmt)
    decreases s, 0
  {
    match s
    case If(_, body, elifs, orelse) =>
      JumpFreeBlock(body) && JumpFreeBranches(elifs) && (orelse.Some? ==> JumpFreeBlock(orelse.value))
    case While(_, body) => JumpFreeBlock(body)
    case For(_, _, body) => JumpFreeBlock(body)
    case ForKV(_, _, _, body) => JumpFreeBlock(body)
    case ForRange(_, _, _, _, body) => JumpFreeBlock(body)
    case _ => !s.Break? && !s.Continue? && !s.Return?
  }

  ghost predicate Same(f: Exit, g: Flow) { f == Exit(Some(g.bound), g.warned) }

  /** Without jumps the refined flow is the analysis itself. */
  lemma {:induction false} JumpFreeBlockSame(bs: set<string>, b: Block, bound: set<string>)
    requires JumpFreeBlock(b)
    ensures Same(RefineBlock(bs, b, bound), CheckBlock(bs, b, bound))
    decreases b, 0
  {
    JumpFreeSame(bs, b.stmts, bound);
  }

  lemma {:induction false} JumpFreeSame(bs: set<string>, stmts: seq<Stmt>, bound: set<string>)
    requires JumpFree(stmts)
    ensures Same(RefineStmts(bs, stmts, bound), CheckStmts(bs, stmts, bound))
    decreases stmts, 0
  {
    if stmts != [] {
      JumpFreeStmtSame(bs, stmts[0], bound);
      JumpFreeSame(bs, stmts[1..], CheckStmt(bs, stmts[0], bound).bound);
    }
  }

  lemma {:induction false} JumpFreeBranchSame(bs: set<string>, br: Branch, bound: set<string>)
    requires JumpFreeBranch(br)
    ensures Same(RefineBranch(bs, br, bound), CheckBranch(bs, br, bound))
    decreases br, 0
  {
    JumpFreeBlockSame(bs, br.body, bound);
  }

  lemma {:induction false} JumpFreeBranchesSame(bs: set<string>, brs: seq<Branch>, bound: set<string>,
                                                common: set<string>)
    requires JumpFreeBranches(brs)
    ensures Same(RefineBranches(bs, brs, bound, Some(common)), CheckBranches(bs, brs, bound, common))
    decreases brs, 0
  {
    if brs != [] {
      JumpFreeBranchSame(bs, brs[0], bound);
      JumpFreeBranchesSame(bs, brs[1..], bound, common * CheckBranch(bs, brs[0], bound).bound);
    }
  }

  lemma {:induction false} JumpFreeStmtSame(bs: set<string>, s: Stmt, bound: set<string>)
    requires JumpFreeStmt(s)
    ensures Same(RefineStmt(bs, s, bound), CheckStmt(bs, s, bound))
    decreases s, 0
  {
    match s
    case If(_, body, elifs, orelse) =>
      JumpFreeBlockSame(bs, body, bound);
      JumpFreeBranchesSame(bs, elifs, bound, CheckBlock(bs, body, bound).bound);
      if orelse.Some? { JumpFreeBlockSame(bs, orelse.value, bound); }
    case While(_, body) => JumpFreeBlockSame(bs, body, bound);
    case For(variable, _, body) => JumpFreeBlockSame(bs, body, bound + {variable});
    case ForKV(keyVar, valueVar, _, body) => JumpFreeBlockSame(bs, body, bound + {keyVar, valueVar});
    case ForRange(variable, _, _, _, body) => JumpFreeBlockSame(bs, body, bound + {variable});
    case _ =>
  }

  // ---------------------------------------------------------------- jumps erased

  /** The block with every `return` turned into the evaluation of its result, and every `break`
      and `continue` into nothing. */
  function EraseBlock(b: Block): Block
    decreases b, 0
  {
    Block(EraseAll(b.stmts), b.value)
  }

  function EraseElse(b: Option<Block>): Option<Block>
    decreases b, 1
  {
    if b.Some? then Some(EraseBlock(b.value)) else None
  }

  function EraseBranch(br: Branch): Branch
    decreases br, 0
  {
    Branch(br.cond, EraseBlock(br.body))
  }

  function EraseBranches(brs: seq<Branch>): seq<Branch>
    decreases brs, 0
  {
    if brs == [] then [] else [EraseBranch(brs[0])] + EraseBranches(brs[1..])
  }

  function EraseAll(stmts: seq<Stmt>): seq<Stmt>
    decreases stmts, 0
  {
    if stmts == [] then [] else [EraseStmt(stmts[0])] + EraseAll(stmts[1..])
  }

  function EraseStmt(s: Stmt): Stmt
    decreases s, 0
  {
    match s
    case Return(result) => ExprStmt(result)
    case Break => ExprStmt(Unit)
    case Continue => ExprStmt(Unit)
    case If(cond, body, elifs, orelse) => If(cond, EraseBlock(body), EraseBranches(elifs), EraseElse(orelse))
    case While(cond, body) => While(cond, EraseBlock(body))
    case For(variable, iterable, body) => For(variable, iterable, EraseBlock(body))
    case ForKV(keyVar, valueVar, iterable, body) => ForKV(keyVar, valueVar, iterable, EraseBlock(body))
    case ForRange(variable, start, end, step, body) => ForRange(variable, start, end, step, EraseBlock(body))
    case _ => s
  }

  /** The analysis is the refined flow of the block without its jumps. */
  lemma {:induction false} ErasedBlockSame(bs: set<string>, b: Block, bound: set<string>)
    ensures Same(RefineBlock(bs, EraseBlock(b), bound), CheckBlock(bs, b, bound))
    decreases b, 0
  {
    ErasedSame(bs, b.stmts, bound);
  }

  lemma {:induction false} ErasedSame(bs: set<string>, stmts: seq<Stmt>, bound: set<string>)
    ensures Same(RefineStmts(bs, EraseAll(stmts), bound), CheckStmts(bs, stmts, bound))
    decreases stmts, 0
  {
    if stmts != [] {
      ErasedStmtSame(bs, stmts[0], bound);
      ErasedSame(bs, stmts[1..], CheckStmt(bs, stmts[0], bound).bound);
      assert EraseAll(stmts)[1..] == EraseAll(stmts[1..]);
    }
  }

  lemma {:induction false} ErasedBranchSame(bs: set<string>, br: Branch, bound: set<string>)
    ensures Same(RefineBranch(bs, EraseBranch(br), bound), CheckBranch(bs, br, bound))
    decreases br, 0
  {
    ErasedBlockSame(bs, br.body, bound);
  }

  lemma {:induction false} ErasedBranchesSame(bs: set<string>, brs: seq<Branch>, bound: set<string>,
                                              common: set<string>)
    ensures Same(RefineBranches(bs, EraseBranches(brs), bound, Some(common)), CheckBranches(bs, brs, bound, common))
    decreases brs, 0
  {
    if brs != [] {
      ErasedBranchSame(bs, brs[0], bound);
      ErasedBranchesSame(bs, brs[1..], bound, common * CheckBranch(bs, brs[0], bound).bound);
      assert EraseBranches(brs)[1..] == EraseBranches(brs[1..]);
    }
  }

  lemma {:induction false} ErasedStmtSame(bs: set<string>, s: Stmt, bound: set<string>)
    ensures Same(RefineStmt(bs, EraseStmt(s), bound), CheckStmt(bs, s, bound))
    decreases s, 0
  {
    match s
    case If(_, body, elifs, orelse) =>
      ErasedBlockSame(bs, body, bound);
      ErasedBranchesSame(bs, elifs, bound, CheckBlock(bs, body, bound).bound);
      if orelse.Some? { ErasedBlockSame(bs, orelse.value, bound); }
    case While(_, body) => ErasedBlockSame(bs, body, bound);
    case For(variable, _, body) => ErasedBlockSame(bs, body, bound + {variable});
    case ForKV(keyVar, valueVar, _, body) => ErasedBlockSame(bs, body, bound + {keyVar, valueVar});
    case ForRange(variable, _, _, _, body) => ErasedBlockSame(bs, body, bound + {variable});
    case _ =>
  }
}
