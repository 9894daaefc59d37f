/** Folding is complete: what it returns has nothing left to fold, and it changes nothing that has
    nothing to fold. */
module FoldComplete {
  import opened Ast
  import opened Integers
  import opened Meaning
  import opened Folder
  import opened BlockFolder

  // ---------------------------------------------------------------- expressions

  /** The operations on literals that folding computes. */
  predicate Computable(op: BinaryOp, left: Expr, right: Expr) {
    || (left.Integer? && right.Integer? && op !in {And, Or, NotEquals, ShiftLeft, ShiftRight}
        && (op in {Div, Mod} ==> right.n != 0))
    || (left.Bool? && right.Bool? && op in {And, Or, Equals})
    || (left.Str? && right.Str? && op == Add)
  }

  /** Something that folding replaces. */
  predicate Foldable(e: Expr) {
    match e
    case Binary(op, left, right) => Computable(op, left, right)
    case Unary(op, operand) => if op.Not? then operand.Bool? else operand.Integer?
    case Ternary(cond, _, _) => cond.Bool?
    case Member(target, property) => property == "length" && (target.Str? || target.List?)
    case Call(callee, args) =>
      && callee.Identifier? && |args| == 1
      && ((callee.name == "length" && (args[0].Str? || args[0].List?))
          || (callee.name == "to_string" && (args[0].Integer? || args[0].Bool? || args[0].Str?)))
    case _ => false
  }

  /** Nothing in an expression, or in the lambdas in it, is left to fold. */
  predicate Finished(e: Expr)
    decreases e
  {
    && !Foldable(e)
    && match e
       case Binary(_, left, right) => Finished(left) && Finished(right)
       case Unary(_, operand) => Finished(operand)
       case Ternary(cond, a, b) => Finished(cond) && Finished(a) && Finished(b)
       case Call(callee, args) => Finished(callee) && AllFinished(args)
       case List(items) => AllFinished(items)
       case Member(target, _) => Finished(target)
       case Index(base, position) => Finished(base) && Finished(position)
       case Lambda(_, body) => Finished(body)
       case _ => true
  }

  predicate AllFinished(es: seq<Expr>)
    decreases es
  {
    es == [] || (Finished(es[0]) && AllFinished(es[1..]))
  }

  lemma {:induction false} FoldFinishes(e: Expr)
    ensures Finished(FoldExpr(e))
    decreases e
  {
    match e
    case Binary(op, left, right) =>
      FoldFinishes(left);
      FoldFinishes(right);
      BinaryFinishes(op, FoldExpr(left), FoldExpr(right));
    case Unary(_, operand) => FoldFinishes(operand);
    case Ternary(cond, a, b) => FoldFinishes(cond); FoldFinishes(a); FoldFinishes(b);
    case Call(callee, args) =>
      FoldFinishes(callee);
      AllFoldFinish(args);
      CallFinishes(FoldExpr(callee), FoldAll(args));
    case List(items) => AllFoldFinish(items);
    case Member(target, _) => FoldFinishes(target);
    case Index(base, position) => FoldFinishes(base); FoldFinishes(position);
    case Lambda(_, body) => FoldFinishes(body);
    case _ =>
  }

  lemma BinaryFinishes(op: BinaryOp, left: Expr, right: Expr)
    requires Finished(left) && Finished(right)
    ensures Finished(FoldBinary(op, left, right))
  {
    hide FoldInts, Finished;
    if left.Integer? && right.Integer? { IntsFold(op, left.n, right.n); }
    var e := FoldBinary(op, left, right);
    if e.Binary? { UnfoldedFinishes(op, left, right); } else { LiteralFinishes(e); }
  }

  lemma LiteralFinishes(e: Expr)
    requires e.Integer? || e.Bool? || e.Str?
    ensures Finished(e)
  {
  }

  lemma UnfoldedFinishes(op: BinaryOp, left: Expr, right: Expr)
    requires Finished(left) && Finished(right) && !Computable(op, left, right)
    ensures Finished(Binary(op, left, right))
  {
    hide Computable;
  }

  lemma IntsFold(op: BinaryOp, a: int, b: int)
    ensures var r := FoldInts(op, a, b);
            r.Some? == Computable(op, Integer(a), Integer(b)) && (r.Some? ==> r.value.Integer? || r.value.Bool?)
  {
    hide BitOp, TruncDiv, TruncRem, Wrap64;
  }

  lemma CallFinishes(callee: Expr, args: seq<Expr>)
    requires Finished(callee) && AllFinished(args)
    ensures Finished(FoldCall(callee, args))
  {
  }

  lemma {:induction false} AllFoldFinish(es: seq<Expr>)
    ensures AllFinished(FoldAll(es))
    decreases es
  {
    if es != [] {
      FoldFinishes(es[0]);
      AllFoldFinish(es[1..]);
      assert FoldAll(es)[1..] == FoldAll(es[1..]);
    }
  }

  lemma {:induction false} FinishedStays(e: Expr)
    requires Finished(e)
    ensures FoldExpr(e) == e
    decreases e
  {
    hide BitOp, TruncDiv, TruncRem, Wrap64;
    match e
    case Binary(_, left, right) => FinishedStays(left); FinishedStays(right);
    case Unary(_, operand) => FinishedStays(operand);
    case Ternary(cond, a, b) => FinishedStays(cond); FinishedStays(a); FinishedStays(b);
    case Call(callee, args) => FinishedStays(callee); AllFinishedStay(args);
    case List(items) => AllFinishedStay(items);
    case Member(target, _) => FinishedStays(target);
    case Index(base, position) => FinishedStays(base); FinishedStays(position);
    case Lambda(_, body) => FinishedStays(body);
    case _ =>
  }

  lemma {:induction false} AllFinishedStay(es: seq<Expr>)
    requires AllFinished(es)
    ensures FoldAll(es) == es
    decreases es
  {
    if es != [] {
      FinishedStays(es[0]);
      AllFinishedStay(es[1..]);
    }
  }

  /** Folding an expression leaves nothing to fold, and changes exactly the expressions with
      something to fold. */
  lemma FoldIsComplete(e: Expr)
    ensures Finished(FoldExpr(e)) && (FoldExpr(e) == e <==> Finished(e))
  {
    FoldFinishes(e);
    if Finished(e) { FinishedStays(e); }
  }

  // ---------------------------------------------------------------- blocks

  predicate FinishedOption(e: Option<Expr>) { e.Some? ==> Finished(e.value) }

  /** No statement is dead, no `if` has a known condition, and no expression is left to fold. */
  predicate FinishedBlock(b: Block)
    decreases b, 0
  {
    FinishedStmts(b.stmts) && (forall s :: s in b.stmts ==> !IsDead(s)) && FinishedOption(b.value)
  }

  predicate FinishedElse(b: Option<Block>)
    decreases b, 1
  {
    b.Some? ==> FinishedBlock(b.value)
  }

  predicate FinishedBranch(br: Branch)
    decreases br, 0
  {
    Finished(br.cond) && FinishedBlock(br.body)
  }

  predicate FinishedBranches(brs: seq<Branch>)
    decreases brs, 0
  {
    brs == [] || (FinishedBranch(brs[0]) && FinishedBranches(brs[1..]))
  }

  predicate FinishedStmts(stmts: seq<Stmt>)
    decreases stmts, 0
  {
    stmts == [] || (FinishedStmt(stmts[0]) && FinishedStmts(stmts[1..]))
  }

  predicate FinishedStmt(s: Stmt)
    decreases s, 0
  {
    match s
    case Binding(_, value) => Finished(value)
    case ExprStmt(expr) => Finished(expr)
    case Return(result) => Finished(result)
    case If(cond, body, elifs, orelse) =>
      Finished(cond) && !cond.Bool? && FinishedBlock(body) && FinishedBranches(elifs) && FinishedElse(orelse)
    case While(cond, body) => Finished(cond) && FinishedBlock(body)
    case For(_, iterable, body) => Finished(iterable) && FinishedBlock(body)
    case ForKV(_, _, iterable, body) => Finished(iterable) && FinishedBlock(body)
    case ForRange(_, start, end, step, body) =>
      Finished(start) && Finished(end) && FinishedOption(step) && FinishedBlock(body)
    case FieldAssign(_, _, value) => Finished(value)
    case _ => true
  }

  lemma {:induction false} FinishedConcat(a: seq<Stmt>, b: seq<Stmt>)
    ensures FinishedStmts(a + b) <==> FinishedStmts(a) && FinishedStmts(b)
    decreases a
  {
    if a == [] {
      assert a + b == b;
    } else {
      assert (a + b)[1..] == a[1..] + b;
      FinishedConcat(a[1..], b);
    }
  }

  lemma {:induction false} LiveFinishes(stmts: seq<Stmt>)
    requires FinishedStmts(stmts)
    ensures FinishedStmts(Live(stmts)) && forall s :: s in Live(stmts) ==> !IsDead(s)
    decreases stmts
  {
    hide IsDead;
    if stmts != [] {
      LiveFinishes(stmts[1..]);
      var rest := Live(stmts[1..]);
      assert ([stmts[0]] + rest)[1..] == rest;
    }
  }

  lemma SpliceFinishes(b: Block)
    requires FinishedBlock(b)
    ensures FinishedStmts(Splice(b))
  {
    FinishedConcat(b.stmts, if b.value.Some? then [ExprStmt(b.value.value)] else []);
  }

  lemma {:induction false} PruneFinishes(brs: seq<Branch>, orelse: Option<Block>)
    requires FinishedBranches(brs) && FinishedElse(orelse)
    ensures FinishedStmts(Prune(brs, orelse))
    decreases brs
  {
    hide Finished, Splice;
    if brs == [] {
      if orelse.Some? { SpliceFinishes(orelse.value); }
    } else if brs[0].cond == Bool(true) {
      SpliceFinishes(brs[0].body);
    } else if brs[0].cond == Bool(false) {
      PruneFinishes(brs[1..], orelse);
    }
  }

  lemma {:induction false} FoldBlockFinishes(b: Block)
    ensures FinishedBlock(FoldedBlock(b))
    decreases b, 0
  {
    FoldStmtsFinish(b.stmts);
    LiveFinishes(FoldedStmts(b.stmts));
    if b.value.Some? { FoldFinishes(b.value.value); }
  }

  lemma {:induction false} FoldElseFinishes(b: Option<Block>)
    ensures FinishedElse(FoldedElse(b))
    decreases b, 1
  {
    if b.Some? { FoldBlockFinishes(b.value); }
  }

  lemma {:induction false} FoldBranchFinishes(br: Branch)
    ensures FinishedBranch(FoldedBranch(br))
    decreases br, 0
  {
    FoldFinishes(br.cond);
    FoldBlockFinishes(br.body);
  }

  lemma {:induction false} FoldBranchesFinish(brs: seq<Branch>)
    ensures FinishedBranches(FoldedBranches(brs))
    decreases brs, 0
  {
    if brs != [] {
      FoldBranchFinishes(brs[0]);
      FoldBranchesFinish(brs[1..]);
      assert FoldedBranches(brs)[1..] == FoldedBranches(brs[1..]);
    }
  }

  lemma {:induction false} FoldStmtsFinish(stmts: seq<Stmt>)
    ensures FinishedStmts(FoldedStmts(stmts))
    decreases stmts, 0
  {
    if stmts != [] {
      FoldStmtFinishes(stmts[0]);
      FoldStmtsFinish(stmts[1..]);
      FinishedConcat(FoldedStmt(stmts[0]), FoldedStmts(stmts[1..]));
    }
  }

  lemma {:induction false} FoldStmtFinishes(s: Stmt)
    ensures FinishedStmts(FoldedStmt(s))
    decreases s, 0
  {
    hide Finished, FinishedBlock, FoldedBlock, FoldExpr;
    match s
    case Binding(_, value) => FoldFinishes(value);
    case ExprStmt(expr) => FoldFinishes(expr);
    case Return(result) => FoldFinishes(result);
    case If(cond, body, elifs, orelse) =>
      FoldFinishes(cond);
      FoldBlockFinishes(body);
      FoldBranchesFinish(elifs);
      FoldElseFinishes(orelse);
      if FoldExpr(cond) == Bool(true) { SpliceFinishes(FoldedBlock(body)); }
      else if FoldExpr(cond) == Bool(false) { PruneFinishes(FoldedBranches(elifs), FoldedElse(orelse)); }
    case While(cond, body) => FoldFinishes(cond); FoldBlockFinishes(body);
    case For(_, iterable, body) => FoldFinishes(iterable); FoldBlockFinishes(body);
    case ForKV(_, _, iterable, body) => FoldFinishes(iterable); FoldBlockFinishes(body);
    case ForRange(_, start, end, step, body) =>
      FoldFinishes(start);
      FoldFinishes(end);
      if step.Some? { FoldFinishes(step.value); }
      FoldBlockFinishes(body);
    case FieldAssign(_, _, value) => FoldFinishes(value);
    case _ =>
  }

  lemma {:induction false} FinishedBlockStays(b: Block)
    requires FinishedBlock(b)
    ensures FoldedBlock(b) == b
    decreases b, 0
  {
    FinishedStmtsStay(b.stmts);
    LiveStays(b.stmts);
    if b.value.Some? { FinishedStays(b.value.value); }
  }

  lemma {:induction false} LiveStays(stmts: seq<Stmt>)
    requires forall s :: s in stmts ==> !IsDead(s)
    ensures Live(stmts) == stmts
    decreases stmts
  {
    hide IsDead;
    if stmts != [] {
      assert stmts[0] in stmts;
      LiveStays(stmts[1..]);
    }
  }

  lemma {:induction false} FinishedElseStays(b: Option<Block>)
    requires FinishedElse(b)
    ensures FoldedElse(b) == b
    decreases b, 1
  {
    if b.Some? { FinishedBlockStays(b.value); }
  }

  lemma {:induction false} FinishedBranchesStay(brs: seq<Branch>)
    requires FinishedBranches(brs)
    ensures FoldedBranches(brs) == brs
    decreases brs, 0
  {
    if brs != [] {
      FinishedBranchStays(brs[0]);
      FinishedBranchesStay(brs[1..]);
    }
  }

  lemma {:induction false} FinishedBranchStays(br: Branch)
    requires FinishedBranch(br)
    ensures FoldedBranch(br) == br
    decreases br, 0
  {
    FinishedStays(br.cond);
    FinishedBlockStays(br.body);
  }

  lemma {:induction false} FinishedStmtsStay(stmts: seq<Stmt>)
    requires FinishedStmts(stmts)
    ensures FoldedStmts(stmts) == stmts
    decreases stmts, 0
  {
    if stmts != [] {
      FinishedStmtStays(stmts[0]);
      FinishedStmtsStay(stmts[1..]);
    }
  }

  lemma {:induction false} FinishedStmtStays(s: Stmt)
    requires FinishedStmt(s)
    ensures FoldedStmt(s) == [s]
    decreases s, 0
  {
    hide Finished, FinishedBlock, FoldedBlock, FoldExpr;
    match s
    case Binding(_, value) => FinishedStays(value);
    case ExprStmt(expr) => FinishedStays(expr);
    case Return(result) => FinishedStays(result);
    case If(cond, body, elifs, orelse) =>
      FinishedStays(cond);
      FinishedBlockStays(body);
      FinishedBranchesStay(elifs);
      FinishedElseStays(orelse);
    case While(cond, body) => FinishedStays(cond); FinishedBlockStays(body);
    case For(_, iterable, body) => FinishedStays(iterable); FinishedBlockStays(body);
    case ForKV(_, _, iterable, body) => FinishedStays(iterable); FinishedBlockStays(body);
    case ForRange(_, start, end, step, body) =>
      FinishedStays(start);
      FinishedStays(end);
      if step.Some? { FinishedStays(step.value); }
      FinishedBlockStays(body);
    case FieldAssign(_, _, value) => FinishedStays(value);
    case _ =>
  }

  /** Folding a block leaves nothing to fold in it, no dead statement and no `if` with a known
      condition, and changes exactly the blocks with any of them. */
  lemma FoldBlockIsComplete(b: Block)
    ensures FinishedBlock(FoldedBlock(b)) && (FoldedBlock(b) == b <==> FinishedBlock(b))
  {
    FoldBlockFinishes(b);
    if FinishedBlock(b) { FinishedBlockStays(b); }
  }

  /** So folding twice is folding once, also where folding loses meaning. */
  lemma FoldExprTwice(e: Expr)
    ensures FoldExpr(FoldExpr(e)) == FoldExpr(e)
  {
    FoldIsComplete(e);
    FinishedStays(FoldExpr(e));
  }

  lemma FoldBlockTwice(b: Block)
    ensures FoldedBlock(FoldedBlock(b)) == FoldedBlock(b)
  {
    FoldBlockIsComplete(b);
    FinishedBlockStays(FoldedBlock(b));
  }

  // ---------------------------------------------------------------- which statements are dead

  /** An expression and everything in it that is evaluated with it. */
  function Parts(e: Expr): set<Expr>
    decreases e
  {
    {e} + match e
          case Binary(_, left, right) => Parts(left) + Parts(right)
          case Unary(_, operand) => Parts(operand)
          case Ternary(cond, a, b) => Parts(cond) + Parts(a) + Parts(b)
          case Call(callee, args) => Parts(callee) + AllParts(args)
          case List(items) => AllParts(items)
          case Member(target, _) => Parts(target)
          case Index(base, position) => Parts(base) + Parts(position)
          case _ => {}
  }

  function AllParts(es: seq<Expr>): set<Expr>
    decreases es
  {
    if es == [] then {} else Parts(es[0]) + AllParts(es[1..])
  }

  /** What may be part of a dead statement. */
  predicate Harmless(e: Expr) {
    && !e.NoneLit? && !e.Placeholder? && !e.Ternary? && !e.Pipeline? && !e.Throw? && !e.Lambda?
    && (e.Call? ==> CallsPureBuiltin(e.callee))
  }

  /** A statement counts as dead exactly when every part of it is harmless. */
  lemma {:induction false} DeadExactly(e: Expr)
    ensures IsPureDead(e) <==> forall p :: p in Parts(e) ==> Harmless(p)
    decreases e
  {
    assert e in Parts(e);
    hide CallsPureBuiltin;
    match e
    case Binary(_, left, right) => DeadExactly(left); DeadExactly(right);
    case Unary(_, operand) => DeadExactly(operand);
    case Call(callee, args) =>
      AllDeadExactly(args);
      PureCalleeIsHarmless(callee);
      assert Parts(e) == {e} + (Parts(callee) + AllParts(args));
      assert Harmless(e) == CallsPureBuiltin(callee);
    case List(items) => AllDeadExactly(items);
    case Member(target, _) => DeadExactly(target);
    case Index(base, position) => DeadExactly(base); DeadExactly(position);
    case Ternary(_, _, _) => assert !Harmless(e);
    case _ => assert Parts(e) == {e} && IsPureDead(e) == Harmless(e);
  }

  lemma PureCalleeIsHarmless(callee: Expr)
    ensures CallsPureBuiltin(callee) ==> forall p :: p in Parts(callee) ==> Harmless(p)
  {
  }

  lemma {:induction false} AllDeadExactly(es: seq<Expr>)
    ensures AllPureDead(es) <==> forall p :: p in AllParts(es) ==> Harmless(p)
    decreases es
  {
    hide Harmless;
    if es != [] {
      DeadExactly(es[0]);
      AllDeadExactly(es[1..]);
    }
  }
}
