/** The definite-assignment analysis of src/semantic.rs: which identifier occurrences are
    warned about, as a function of the block and the names known to be assigned. */
module DefiniteAssignment {
  import opened Ast

  datatype Warning = Warning(name: string, span: nat)

  /** What the analysis knows after a piece of code, and what it warned about in it. */
  datatype Flow = Flow(bound: set<string>, warned: seq<Warning>)

  /** Identifiers hold ASCII letters only (src/lexer.rs), so these are all lowercase letters. */
  predicate Lowercase(c: char) { 'a' <= c <= 'z' }

  /** Names the analysis reports: lowercase and not a builtin. */
  predicate Eligible(builtins: set<string>, name: string) {
    name !in builtins && name != "" && Lowercase(name[0])
  }

  function WarnExpr(bs: set<string>, e: Expr, bound: set<string>): seq<Warning>
    decreases e
  {
    match e
    case Identifier(name, span) =>
      if name !in bound && Eligible(bs, name) then [Warning(name, span)] else []
    case Binary(_, left, right) => WarnExpr(bs, left, bound) + WarnExpr(bs, right, bound)
    case Unary(_, operand) => WarnExpr(bs, operand, bound)
    case Call(callee, args) => WarnExpr(bs, callee, bound) + WarnAll(bs, args, bound)
    case Ternary(cond, a, b) =>
      WarnExpr(bs, cond, bound) + (WarnExpr(bs, a, bound) + WarnExpr(bs, b, bound))
    case Member(target, _) => WarnExpr(bs, target, bound)
    case List(items) => WarnAll(bs, items, bound)
    case _ => []
  }

  function WarnAll(bs: set<string>, es: seq<Expr>, bound: set<string>): seq<Warning>
    decreases es
  {
    if es == [] then [] else WarnExpr(bs, es[0], bound) + WarnAll(bs, es[1..], bound)
  }

  function WarnOption(bs: set<string>, e: Option<Expr>, bound: set<string>): seq<Warning> {
    if e.Some? then WarnExpr(bs, e.value, bound) else []
  }

  function CheckBlock(bs: set<string>, b: Block, bound: set<string>): Flow
    decreases b, 0
  {
    var f := CheckStmts(bs, b.stmts, bound);
    Flow(f.bound, f.warned + WarnOption(bs, b.value, f.bound))
  }

  function CheckStmts(bs: set<string>, stmts: seq<Stmt>, bound: set<string>): Flow
    decreases stmts, 0
  {
    if stmts == [] then Flow(bound, [])
    else
      var f := CheckStmt(bs, stmts[0], bound);
      var g := CheckStmts(bs, stmts[1..], f.bound);
      Flow(g.bound, f.warned + g.warned)
  }

  function CheckBranch(bs: set<string>, br: Branch, bound: set<string>): Flow
    decreases br, 0
  {
    var f := CheckBlock(bs, br.body, bound);
    Flow(f.bound, WarnExpr(bs, br.cond, bound) + f.warned)
  }

  /** The branches are checked from the same set; `common` keeps what all of them assign. */
  function CheckBranches(bs: set<string>, brs: seq<Branch>, bound: set<string>, common: set<string>): Flow
    decreases brs, 0
  {
    if brs == [] then Flow(common, [])
    else
      var f := CheckBranch(bs, brs[0], bound);
      var g := CheckBranches(bs, brs[1..], bound, common * f.bound);
      Flow(g.bound, f.warned + g.warned)
  }

  /** A loop body may not run, so what it assigns is forgotten. */
  function AfterLoop(before: seq<Warning>, inside: Flow, bound: set<string>): Flow {
    Flow(bound, before + inside.warned)
  }

  function CheckStmt(bs: set<string>, s: Stmt, bound: set<string>): Flow
    decreases s, 0
  {
    match s
    case Binding(name, value) => Flow(bound + {name}, WarnExpr(bs, value, bound))
    case ExprStmt(expr) => Flow(bound, WarnExpr(bs, expr, bound))
    case Return(result) => Flow(bound, WarnExpr(bs, result, bound))
    case If(cond, body, elifs, orelse) =>
      var t := CheckBlock(bs, body, bound);
      var f := CheckBranches(bs, elifs, bound, t.bound);
      var warned := WarnExpr(bs, cond, bound) + t.warned + f.warned;
      if orelse.None? then Flow(bound, warned)
      else
        var last := CheckBlock(bs, orelse.value, bound);
        Flow(f.bound * last.bound, warned + last.warned)
    case While(cond, body) => AfterLoop(WarnExpr(bs, cond, bound), CheckBlock(bs, body, bound), bound)
    case For(variable, iterable, body) =>
      AfterLoop(WarnExpr(bs, iterable, bound), CheckBlock(bs, body, bound + {variable}), bound)
    case ForKV(keyVar, valueVar, iterable, body) =>
      AfterLoop(WarnExpr(bs, iterable, bound), CheckBlock(bs, body, bound + {keyVar, valueVar}), bound)
    case ForRange(variable, start, end, step, body) =>
      AfterLoop(WarnExpr(bs, start, bound) + WarnExpr(bs, end, bound) + WarnOption(bs, step, bound),
                CheckBlock(bs, body, bound + {variable}), bound)
    case FieldAssign(target, _, value) => Flow(bound, WarnExpr(bs, target, bound) + WarnExpr(bs, value, bound))
    case _ => Flow(bound, [])
  }

  // ---------------------------------------------------------------- the analysis as it runs

  /** The mutable state threaded through the `da_check_*` functions. */
  class Checker {
    const builtins: set<string>
    var bound: set<string>
    var warnings: seq<Warning>

    constructor (builtins: set<string>, params: set<string>)
      ensures this.builtins == builtins && bound == params && warnings == []
    {
      this.builtins := builtins;
      bound := params;
      warnings := [];
    }

    /** Only reads `bound`. */
    method Uses(e: Expr)
      modifies this`warnings
      ensures warnings == old(warnings) + WarnExpr(builtins, e, bound)
      decreases e
    {
      match e
      case Identifier(name, span) =>
        if name !in bound && Eligible(builtins, name) {
          warnings := warnings + [Warning(name, span)];
        }
      case Binary(_, left, right) => Uses(left); Uses(right);
      case Unary(_, operand) => Uses(operand);
      case Call(callee, args) => Uses(callee); UsesAll(args);
      case Ternary(cond, a, b) => Uses(cond); Uses(a); Uses(b);
      case Member(target, _) => Uses(target);
      case List(items) => UsesAll(items);
      case _ =>
    }

    method UsesAll(es: seq<Expr>)
      modifies this`warnings
      ensures warnings == old(warnings) + WarnAll(builtins, es, bound)
      decreases es
    {
      var i := 0;
      ghost var whole := WarnAll(builtins, es, bound);
      while i < |es|
        invariant 0 <= i <= |es|
        invariant warnings + WarnAll(builtins, es[i..], bound) == old(warnings) + whole
      {
        ghost var before, rest := warnings, WarnAll(builtins, es[i + 1..], bound);
        assert es[i..][1..] == es[i + 1..];
        assert WarnAll(builtins, es[i..], bound) == WarnExpr(builtins, es[i], bound) + rest;
        Uses(es[i]);
        assert warnings + rest == before + (WarnExpr(builtins, es[i], bound) + rest);
        i := i + 1;
      }
      assert warnings + [] == warnings;
    }

    method Block(b: Block)
      modifies this
      ensures var f := CheckBlock(builtins, b, old(bound));
              bound == f.bound && warnings == old(warnings) + f.warned
      decreases b, 1
    {
      var i := 0;
      while i < |b.stmts|
        invariant 0 <= i <= |b.stmts|
        invariant var f, g := CheckStmts(builtins, b.stmts[i..], bound), CheckStmts(builtins, b.stmts, old(bound));
                  f.bound == g.bound && warnings + f.warned == old(warnings) + g.warned
      {
        assert b.stmts[i..][1..] == b.stmts[i + 1..];
        Statement(b.stmts[i]);
        i := i + 1;
      }
      assert warnings + [] == warnings;
      if b.value.Some? { Uses(b.value.value); }
    }

    /** Checks a block on a copy of the bound names and returns the copy. */
    method OnCopy(b: Block, vars: set<string>) returns (copy: set<string>)
      modifies this
      ensures bound == old(bound)
      ensures var f := CheckBlock(builtins, b, old(bound) + vars);
              copy == f.bound && warnings == old(warnings) + f.warned
      decreases b, 2
    {
      var saved := bound;
      bound := bound + vars;
      Block(b);
      copy := bound;
      bound := saved;
    }

    method IfStatement(s: Stmt)
      requires s.If?
      modifies this
      ensures var f := CheckStmt(builtins, s, old(bound));
              bound == f.bound && warnings == old(warnings) + f.warned
      decreases s, 0
    {
      ghost var start, all := warnings, WarnExpr(builtins, s.cond, bound);
      Uses(s.cond);
      assert bound + {} == bound;
      all := all + CheckBlock(builtins, s.body, bound).warned;
      var common := OnCopy(s.body, {});
      assert warnings == start + all;
      all := all + CheckBranches(builtins, s.elifs, bound, common).warned;
      common := Elifs(s.elifs, common);
      assert warnings == start + all;
      if s.orelse.Some? {
        all := all + CheckBlock(builtins, s.orelse.value, bound).warned;
        var copy := OnCopy(s.orelse.value, {});
        assert warnings == start + all;
        bound := common * copy;
      }
    }

    method Elif(br: Branch) returns (copy: set<string>)
      modifies this
      ensures var f := CheckBranch(builtins, br, old(bound));
              bound == old(bound) && copy == f.bound && warnings == old(warnings) + f.warned
      decreases br, 0
    {
      Uses(br.cond);
      assert bound + {} == bound;
      copy := OnCopy(br.body, {});
    }

    method Elifs(elifs: seq<Branch>, initial: set<string>) returns (common: set<string>)
      modifies this
      ensures var f := CheckBranches(builtins, elifs, old(bound), initial);
              bound == old(bound) && common == f.bound && warnings == old(warnings) + f.warned
      decreases elifs, 0
    {
      common := initial;
      var i := 0;
      ghost var whole := CheckBranches(builtins, elifs, bound, initial);
      while i < |elifs|
        invariant 0 <= i <= |elifs| && bound == old(bound)
        invariant var f := CheckBranches(builtins, elifs[i..], bound, common);
                  whole.bound == f.bound && old(warnings) + whole.warned == warnings + f.warned
      {
        assert elifs[i..][1..] == elifs[i + 1..];
        var copy := Elif(elifs[i]);
        common := common * copy;
        i := i + 1;
      }
      assert warnings + [] == warnings;
    }

    method LoopStatement(s: Stmt)
      requires s.While? || s.For? || s.ForKV? || s.ForRange?
      modifies this
      ensures var f := CheckStmt(builtins, s, old(bound));
              bound == f.bound && warnings == old(warnings) + f.warned
      decreases s, 0
    {
      hide WarnExpr, CheckBlock;
      match s
      case While(cond, body) =>
        Uses(cond);
        assert bound + {} == bound;
        var _ := OnCopy(body, {});
      case For(variable, iterable, body) =>
        Uses(iterable);
        var _ := OnCopy(body, {variable});
      case ForKV(keyVar, valueVar, iterable, body) =>
        Uses(iterable);
        var _ := OnCopy(body, {keyVar, valueVar});
      case ForRange(variable, start, end, step, body) =>
        Uses(start);
        Uses(end);
        if step.Some? { Uses(step.value); }
        var _ := OnCopy(body, {variable});
    }

    method Statement(s: Stmt)
      modifies this
      ensures var f := CheckStmt(builtins, s, old(bound));
              bound == f.bound && warnings == old(warnings) + f.warned
      decreases s, 1
    {
      match s
      case Binding(name, value) =>
        Uses(value);
        bound := bound + {name};
      case ExprStmt(expr) => Uses(expr);
      case Return(result) => Uses(result);
      case If(_, _, _, _) => IfStatement(s);
      case While(_, _) => LoopStatement(s);
      case For(_, _, _) => LoopStatement(s);
      case ForKV(_, _, _, _) => LoopStatement(s);
      case ForRange(_, _, _, _, _) => LoopStatement(s);
      case FieldAssign(target, _, value) => Uses(target); Uses(value);
      case _ =>
    }
  }
}
