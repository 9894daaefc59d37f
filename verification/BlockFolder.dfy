/** Folding statements: `if` chains with a known condition are spliced into the enclosing
    block, and expression statements that cannot have an effect are dropped
    (src/compiler.rs, `fold_block`). */
module BlockFolder {
  import opened Ast
  import opened Meaning
  import opened Folder

  // ---------------------------------------------------------------- specification

  /** The statements of a block followed by its value as an expression statement. */
  function Splice(b: Block): seq<Stmt> {
    b.stmts + if b.value.Some? then [ExprStmt(b.value.value)] else []
  }

  predicate IsDead(s: Stmt) { s.ExprStmt? && IsPureDead(s.expr) }

  function Live(stmts: seq<Stmt>): seq<Stmt> {
    if stmts == [] then []
    else if IsDead(stmts[0]) then Live(stmts[1..])
    else [stmts[0]] + Live(stmts[1..])
  }

  /** The `if` rebuilt from the branches that are still undecided. */
  function Kept(branches: seq<Branch>, orelse: Option<Block>): seq<Stmt> {
    if branches == [] then [] else [If(branches[0].cond, branches[0].body, branches[1..], orelse)]
  }

  /** What is left of folded `elif` branches and a folded `else` once the `if` condition is
      known to be false. */
  function Prune(branches: seq<Branch>, orelse: Option<Block>): seq<Stmt> {
    if branches == [] then if orelse.Some? then Splice(orelse.value) else []
    else if branches[0].cond == Bool(true) then Splice(branches[0].body)
    else if branches[0].cond == Bool(false) then Prune(branches[1..], orelse)
    else Kept(branches, orelse)
  }

  function FoldedBlock(b: Block): Block
    decreases b, 0
  {
    Block(Live(FoldedStmts(b.stmts)), FoldOption(b.value))
  }

  function FoldedElse(b: Option<Block>): Option<Block>
    decreases b, 1
  {
    if b.Some? then Some(FoldedBlock(b.value)) else None
  }

  function FoldedBranch(br: Branch): Branch
    decreases br, 0
  {
    Branch(FoldExpr(br.cond), FoldedBlock(br.body))
  }

  function FoldedBranches(brs: seq<Branch>): seq<Branch>
    decreases brs, 0
  {
    if brs == [] then [] else [FoldedBranch(brs[0])] + FoldedBranches(brs[1..])
  }

  function FoldedStmts(stmts: seq<Stmt>): seq<Stmt>
    decreases stmts, 0
  {
    if stmts == [] then [] else FoldedStmt(stmts[0]) + FoldedStmts(stmts[1..])
  }

  function FoldedStmt(s: Stmt): seq<Stmt>
    decreases s, 0
  {
    match s
    case Binding(name, value) => [Binding(name, FoldExpr(value))]
    case ExprStmt(expr) => [ExprStmt(FoldExpr(expr))]
    case Return(result) => [Return(FoldExpr(result))]
    case If(cond, body, elifs, orelse) =>
      var c := FoldExpr(cond);
      if c == Bool(true) then Splice(FoldedBlock(body))
      else if c == Bool(false) then Prune(FoldedBranches(elifs), FoldedElse(orelse))
      else [If(c, FoldedBlock(body), FoldedBranches(elifs), FoldedElse(orelse))]
    case While(cond, body) => [While(FoldExpr(cond), FoldedBlock(body))]
    case For(variable, iterable, body) => [For(variable, FoldExpr(iterable), FoldedBlock(body))]
    case ForKV(keyVar, valueVar, iterable, body) =>
      [ForKV(keyVar, valueVar, FoldExpr(iterable), FoldedBlock(body))]
    case ForRange(variable, start, end, step, body) =>
      [ForRange(variable, FoldExpr(start), FoldExpr(end), FoldOption(step), FoldedBlock(body))]
    case FieldAssign(target, field, value) => [FieldAssign(target, field, FoldExpr(value))]
    case Break => [Break]
    case Continue => [Continue]
  }

  // ---------------------------------------------------------------- where folding is exact

  /** If `e`, once folded, counts as dead, dropping it as a statement loses no effect. */
  predicate Droppable(e: Expr, scope: Scope) { IsPureDead(FoldExpr(e)) ==> Effectless(FoldExpr(e), scope) }

  predicate ExactBlock(b: Block, scope: Scope)
    decreases b, 0
  {
    ExactStmts(b.stmts, scope) && ExactOption(b.value, scope)
  }

  /** A block that may be spliced, where its value becomes a statement. */
  predicate ExactBody(b: Block, scope: Scope)
    decreases b, 1
  {
    ExactBlock(b, scope) && (b.value.Some? ==> Droppable(b.value.value, scope))
  }

  predicate ExactElse(b: Option<Block>, scope: Scope)
    decreases b, 2
  {
    b.Some? ==> ExactBody(b.value, scope)
  }

  predicate ExactBranch(br: Branch, scope: Scope)
    decreases br, 0
  {
    Exact(br.cond, scope) && ExactBody(br.body, scope)
  }

  predicate ExactBranches(brs: seq<Branch>, scope: Scope)
    decreases brs, 0
  {
    brs == [] || (ExactBranch(brs[0], scope) && ExactBranches(brs[1..], scope))
  }

  predicate ExactStmts(stmts: seq<Stmt>, scope: Scope)
    decreases stmts, 0
  {
    stmts == [] || (ExactStmt(stmts[0], scope) && ExactStmts(stmts[1..], scope))
  }

  predicate ExactStmt(s: Stmt, scope: Scope)
    decreases s, 0
  {
    match s
    case Binding(_, value) => Exact(value, scope)
    case ExprStmt(expr) => Exact(expr, scope) && Droppable(expr, scope)
    case Return(result) => Exact(result, scope)
    case If(cond, body, elifs, orelse) =>
      Exact(cond, scope) && ExactBody(body, scope) && ExactBranches(elifs, scope) && ExactElse(orelse, scope)
    case While(cond, body) => Exact(cond, scope) && ExactBlock(body, scope)
    case For(_, iterable, body) => Exact(iterable, scope) && ExactBlock(body, scope)
    case ForKV(_, _, iterable, body) => Exact(iterable, scope) && ExactBlock(body, scope)
    case ForRange(_, start, end, step, body) =>
      && Exact(start, scope) && Exact(end, scope) && ExactOption(step, scope) && ExactBlock(body, scope)
      && IsNativeRange(FoldExpr(start), FoldExpr(end), FoldOption(step), scope.types)
           == IsNativeRange(start, end, step, scope.types)
    case FieldAssign(_, _, value) => Exact(value, scope)
    case _ => true
  }

  // ---------------------------------------------------------------- the names a block binds

  /** Every variable bound anywhere in the block is in `names`. */
  predicate Binds(b: Block, names: set<string>)
    decreases b, 0
  {
    BindsAll(b.stmts, names)
  }

  predicate BindsElse(b: Option<Block>, names: set<string>)
    decreases b, 1
  {
    b.Some? ==> Binds(b.value, names)
  }

  predicate BindsBranch(br: Branch, names: set<string>)
    decreases br, 0
  {
    Binds(br.body, names)
  }

  predicate BindsBranches(brs: seq<Branch>, names: set<string>)
    decreases brs, 0
  {
    brs == [] || (BindsBranch(brs[0], names) && BindsBranches(brs[1..], names))
  }

  predicate BindsAll(stmts: seq<Stmt>, names: set<string>)
    decreases stmts, 0
  {
    stmts == [] || (BindsIn(stmts[0], names) && BindsAll(stmts[1..], names))
  }

  predicate BindsIn(s: Stmt, names: set<string>)
    decreases s, 0
  {
    match s
    case Binding(name, _) => name in names
    case If(_, body, elifs, orelse) => Binds(body, names) && BindsBranches(elifs, names) && BindsElse(orelse, names)
    case While(_, body) => Binds(body, names)
    case For(variable, _, body) => variable in names && Binds(body, names)
    case ForKV(keyVar, valueVar, _, body) => keyVar in names && valueVar in names && Binds(body, names)
    case ForRange(variable, _, _, _, body) => variable in names && Binds(body, names)
    case _ => true
  }

  // ---------------------------------------------------------------- the pass itself

  /** The statement loop of `fold_block`. */
  method FoldBlock(block: Block) returns (folded: Block)
    ensures folded == FoldedBlock(block)
    decreases block, 0
  {
    var newStmts: seq<Stmt> := [];
    var i := 0;
    while i < |block.stmts|
      invariant 0 <= i <= |block.stmts|
      invariant newStmts + FoldedStmts(block.stmts[i..]) == FoldedStmts(block.stmts)
    {
      assert block.stmts[i..][1..] == block.stmts[i + 1..];
      var out := FoldStatement(block.stmts[i]);
      newStmts := newStmts + out;
      i := i + 1;
    }
    assert newStmts == FoldedStmts(block.stmts);
    newStmts := Retain(newStmts);
    folded := Block(newStmts, FoldOption(block.value));
  }

  method FoldStatement(stmt: Stmt) returns (out: seq<Stmt>)
    ensures out == FoldedStmt(stmt)
    decreases stmt, 2
  {
    match stmt
    case Binding(name, value) => out := [Binding(name, FoldExpr(value))];
    case ExprStmt(expr) => out := [ExprStmt(FoldExpr(expr))];
    case Return(result) => out := [Return(FoldExpr(result))];
    case If(_, _, _, _) => out := FoldIf(stmt);
    case While(cond, body) =>
      var blk := FoldBlock(body);
      out := [While(FoldExpr(cond), blk)];
    case For(variable, iterable, body) =>
      var blk := FoldBlock(body);
      out := [For(variable, FoldExpr(iterable), blk)];
    case ForKV(keyVar, valueVar, iterable, body) =>
      var blk := FoldBlock(body);
      out := [ForKV(keyVar, valueVar, FoldExpr(iterable), blk)];
    case ForRange(variable, start, end, step, body) =>
      var blk := FoldBlock(body);
      out := [ForRange(variable, FoldExpr(start), FoldExpr(end), FoldOption(step), blk)];
    case FieldAssign(target, field, value) => out := [FieldAssign(target, field, FoldExpr(value))];
    case Break => out := [stmt];
    case Continue => out := [stmt];
  }

  method FoldIf(stmt: Stmt) returns (out: seq<Stmt>)
    requires stmt.If?
    ensures out == FoldedStmt(stmt)
    decreases stmt, 1
  {
    var cond := FoldExpr(stmt.cond);
    var body := FoldBlock(stmt.body);
    if cond == Bool(true) {
      out := body.stmts;
      if body.value.Some? { out := out + [ExprStmt(body.value.value)]; }
    } else if cond == Bool(false) {
      out := PruneElifs(stmt);
    } else {
      var elifs := FoldElifs(stmt.elifs);
      var orelse := FoldElse(stmt.orelse);
      out := [If(cond, body, elifs, orelse)];
    }
  }

  method FoldElse(orelse: Option<Block>) returns (folded: Option<Block>)
    ensures folded == FoldedElse(orelse)
    decreases orelse, 1
  {
    folded := None;
    if orelse.Some? {
      var blk := FoldBlock(orelse.value);
      folded := Some(blk);
    }
  }

  method FoldBranch(branch: Branch) returns (folded: Branch)
    ensures folded == FoldedBranch(branch)
    decreases branch, 0
  {
    var blk := FoldBlock(branch.body);
    folded := Branch(FoldExpr(branch.cond), blk);
  }

  /** Keeps the statements that are not dead. */
  method Retain(stmts: seq<Stmt>) returns (kept: seq<Stmt>)
    ensures kept == Live(stmts)
  {
    kept := [];
    var i := 0;
    while i < |stmts|
      invariant 0 <= i <= |stmts|
      invariant kept + Live(stmts[i..]) == Live(stmts)
    {
      assert stmts[i..][1..] == stmts[i + 1..];
      if !IsDead(stmts[i]) { kept := kept + [stmts[i]]; }
      i := i + 1;
    }
  }

  method FoldElifs(elifs: seq<Branch>) returns (folded: seq<Branch>)
    ensures folded == FoldedBranches(elifs)
    decreases elifs
  {
    folded := [];
    var i := 0;
    while i < |elifs|
      invariant 0 <= i <= |elifs|
      invariant folded + FoldedBranches(elifs[i..]) == FoldedBranches(elifs)
    {
      assert elifs[i..][1..] == elifs[i + 1..];
      var branch := FoldBranch(elifs[i]);
      folded := folded + [branch];
      i := i + 1;
    }
  }

  /** The loop over the `elif` branches of an `if` whose condition folded to false. */
  method PruneElifs(stmt: Stmt) returns (out: seq<Stmt>)
    requires stmt.If?
    ensures out == Prune(FoldedBranches(stmt.elifs), FoldedElse(stmt.orelse))
    decreases stmt, 0
  {
    var elifs, orelse := stmt.elifs, stmt.orelse;
    out := [];
    var taken, passThrough := false, false;
    var remaining: seq<Branch> := [];
    ghost var folded, last := FoldedBranches(elifs), FoldedElse(orelse);
    ghost var whole := Prune(folded, last);
    var i := 0;
    while i < |elifs| && !taken
      invariant 0 <= i <= |elifs|
      invariant taken ==> out == whole
      invariant !taken ==> out == []
      invariant passThrough == (remaining != [])
      invariant !taken && !passThrough ==> Prune(FoldedBranches(elifs[i..]), last) == whole
      invariant !taken && passThrough ==> Kept(remaining + FoldedBranches(elifs[i..]), last) == whole
    {
      assert elifs[i..][1..] == elifs[i + 1..];
      var branch := FoldBranch(elifs[i]);
      assert FoldedBranches(elifs[i..]) == [branch] + FoldedBranches(elifs[i + 1..]);
      if passThrough {
        assert remaining + FoldedBranches(elifs[i..]) == remaining + [branch] + FoldedBranches(elifs[i + 1..]);
        remaining := remaining + [branch];
      } else if branch.cond == Bool(true) {
        out := branch.body.stmts;
        if branch.body.value.Some? { out := out + [ExprStmt(branch.body.value.value)]; }
        taken := true;
      } else if branch.cond != Bool(false) {
        remaining := [branch];
        passThrough := true;
      }
      i := i + 1;
    }
    if !taken && |remaining| > 0 {
      var foldedElse := FoldElse(orelse);
      assert remaining + FoldedBranches(elifs[i..]) == remaining;
      out := [If(remaining[0].cond, remaining[0].body, remaining[1..], foldedElse)];
      taken := true;
    }
    if !taken && orelse.Some? {
      var blk := FoldBlock(orelse.value);
      out := blk.stmts;
      if blk.value.Some? { out := out + [ExprStmt(blk.value.value)]; }
    }
  }
}
