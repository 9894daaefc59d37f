/** Every execution of a block, as seen by definite assignment: values are abstracted to a
    sequence of choices that decides each branch, short-circuit and loop test, so the choice
    sequences range over all executions and all their prefixes. A run records each read of
    a name that is not bound at that moment. */
module Paths {
  import opened Ast

  /** `walked` tells whether the analysis looks at this occurrence at all. */
  datatype Read = Read(name: string, span: nat, walked: bool)

  datatype Control = Normal | Broke | Continued | Returned | Cut

  /** `done` is false when the choices ran out inside the expression. */
  datatype ExprRun = ExprRun(unbound: set<Read>, rest: seq<bool>, done: bool)

  datatype Run = Run(env: set<string>, unbound: set<Read>, rest: seq<bool>, control: Control)

  function After(r: ExprRun, next: ExprRun): ExprRun { ExprRun(r.unbound + next.unbound, next.rest, next.done) }

  function ReadsOf(e: Expr, env: set<string>, walked: bool, cs: seq<bool>): (r: ExprRun)
    ensures |r.rest| <= |cs|
    decreases e, 0
  {
    match e
    case Identifier(name, span) => ExprRun(if name in env then {} else {Read(name, span, walked)}, cs, true)
    case Unary(_, operand) => ReadsOf(operand, env, walked, cs)
    case Binary(op, left, right) =>
      var l := ReadsOf(left, env, walked, cs);
      if !l.done then l
      else if !(op.And? || op.Or?) then After(l, ReadsOf(right, env, walked, l.rest))
      else if l.rest == [] then ExprRun(l.unbound, [], false)
      else if l.rest[0] then After(l, ReadsOf(right, env, walked, l.rest[1..]))
      else ExprRun(l.unbound, l.rest[1..], true)
    case Ternary(cond, a, b) =>
      var c := ReadsOf(cond, env, walked, cs);
      if !c.done then c
      else if c.rest == [] then ExprRun(c.unbound, [], false)
      else After(c, ReadsOf(if c.rest[0] then a else b, env, walked, c.rest[1..]))
    case Call(callee, args) =>
      var f := ReadsOf(callee, env, walked, cs);
      if !f.done then f else After(f, ReadsOfAll(args, env, walked, f.rest))
    case List(items) => ReadsOfAll(items, env, walked, cs)
    case Member(target, _) => ReadsOf(target, env, walked, cs)
    case Index(base, position) =>
      var b := ReadsOf(base, env, false, cs);
      if !b.done then b else After(b, ReadsOf(position, env, false, b.rest))
    case Pipeline(source, stage) =>
      var l := ReadsOf(source, env, false, cs);
      if !l.done then l else After(l, ReadsOf(stage, env, false, l.rest))
    case Throw(thrown) => ReadsOf(thrown, env, false, cs)
    case Lambda(params, body) => ReadsOf(body, env + (set x | x in params), false, cs)
    case _ => ExprRun({}, cs, true)
  }

  function ReadsOfAll(es: seq<Expr>, env: set<string>, walked: bool, cs: seq<bool>): (r: ExprRun)
    ensures |r.rest| <= |cs|
    decreases es, 0
  {
    if es == [] then ExprRun({}, cs, true)
    else
      var head := ReadsOf(es[0], env, walked, cs);
      if !head.done then head else After(head, ReadsOfAll(es[1..], env, walked, head.rest))
  }

  function ReadsOfOption(e: Option<Expr>, env: set<string>, cs: seq<bool>): (r: ExprRun)
    ensures |r.rest| <= |cs|
  {
    if e.None? then ExprRun({}, cs, true) else ReadsOf(e.value, env, true, cs)
  }

  /** The bounds of a range loop, evaluated once. */
  function ReadsOfRange(start: Expr, end: Expr, step: Option<Expr>, env: set<string>, cs: seq<bool>): (r: ExprRun)
    ensures |r.rest| <= |cs|
  {
    var a := ReadsOf(start, env, true, cs);
    if !a.done then a
    else
      var z := After(a, ReadsOf(end, env, true, a.rest));
      if !z.done then z else After(z, ReadsOfOption(step, env, z.rest))
  }

  // ---------------------------------------------------------------- statements

  /** What a run does once an expression has been evaluated in it. */
  function Finish(env: set<string>, r: ExprRun, control: Control): Run {
    Run(env, r.unbound, r.rest, if r.done then control else Cut)
  }

  function Along(unbound: set<Read>, r: Run): Run { r.(unbound := unbound + r.unbound) }

  function ExecBlock(b: Block, env: set<string>, cs: seq<bool>): (r: Run)
    ensures |r.rest| <= |cs|
    decreases |cs|, b, 0
  {
    var s := ExecStmts(b.stmts, env, cs);
    if !s.control.Normal? then s
    else Along(s.unbound, Finish(s.env, ReadsOfOption(b.value, s.env, s.rest), Normal))
  }

  function ExecStmts(stmts: seq<Stmt>, env: set<string>, cs: seq<bool>): (r: Run)
    ensures |r.rest| <= |cs|
    decreases |cs|, stmts, 0
  {
    if stmts == [] then Run(env, {}, cs, Normal)
    else
      var s := ExecStmt(stmts[0], env, cs);
      if !s.control.Normal? then s else Along(s.unbound, ExecStmts(stmts[1..], s.env, s.rest))
  }

  datatype Selected = Selected(k: nat, unbound: set<Read>, rest: seq<bool>, done: bool)

  /** The branch whose condition is the first to hold, or their number. */
  function Select(brs: seq<Branch>, env: set<string>, cs: seq<bool>): (r: Selected)
    ensures |r.rest| <= |cs| && r.k <= |brs|
  {
    if brs == [] then Selected(0, {}, cs, true)
    else
      var c := ReadsOf(brs[0].cond, env, true, cs);
      if !c.done || c.rest == [] then Selected(0, c.unbound, c.rest, false)
      else if c.rest[0] then Selected(0, c.unbound, c.rest[1..], true)
      else
        var r := Select(brs[1..], env, c.rest[1..]);
        Selected(r.k + 1, c.unbound + r.unbound, r.rest, r.done)
  }

  /** Each round evaluates the loop condition, chooses whether to go on, binds the loop's
      variables and runs the body. */
  function ExecLoop(cond: Option<Expr>, vars: set<string>, body: Block, env: set<string>, cs: seq<bool>): (r: Run)
    ensures |r.rest| <= |cs|
    decreases |cs|, body, 2
  {
    var c := ReadsOfOption(cond, env, cs);
    if !c.done || c.rest == [] then Run(env, c.unbound, c.rest, Cut)
    else if !c.rest[0] then Run(env, c.unbound, c.rest[1..], Normal)
    else
      var s := ExecBlock(body, env + vars, c.rest[1..]);
      if s.control.Normal? || s.control.Continued? then
        Along(c.unbound + s.unbound, ExecLoop(cond, vars, body, s.env, s.rest))
      else Along(c.unbound, s.(control := if s.control.Broke? then Normal else s.control))
  }

  function ExecStmt(s: Stmt, env: set<string>, cs: seq<bool>): (r: Run)
    ensures |r.rest| <= |cs|
    decreases |cs|, s, 3
  {
    match s
    case Binding(name, value) => Finish(env + {name}, ReadsOf(value, env, true, cs), Normal)
    case ExprStmt(expr) => Finish(env, ReadsOf(expr, env, true, cs), Normal)
    case Return(result) => Finish(env, ReadsOf(result, env, true, cs), Returned)
    case If(cond, body, elifs, orelse) =>
      var c := ReadsOf(cond, env, true, cs);
      if !c.done || c.rest == [] then Run(env, c.unbound, c.rest, Cut)
      else if c.rest[0] then Along(c.unbound, ExecBlock(body, env, c.rest[1..]))
      else
        var chosen := Select(elifs, env, c.rest[1..]);
        Along(c.unbound + chosen.unbound,
              if !chosen.done then Run(env, {}, chosen.rest, Cut)
              else if chosen.k < |elifs| then ExecBlock(elifs[chosen.k].body, env, chosen.rest)
              else if orelse.Some? then ExecBlock(orelse.value, env, chosen.rest)
              else Run(env, {}, chosen.rest, Normal))
    case While(cond, body) => ExecLoop(Some(cond), {}, body, env, cs)
    case For(variable, iterable, body) => LoopAfter(ReadsOf(iterable, env, true, cs), {variable}, body, env)
    case ForKV(keyVar, valueVar, iterable, body) =>
      LoopAfter(ReadsOf(iterable, env, true, cs), {keyVar, valueVar}, body, env)
    case ForRange(variable, start, end, step, body) =>
      LoopAfter(ReadsOfRange(start, end, step, env, cs), {variable}, body, env)
    case FieldAssign(target, _, value) =>
      var o := ReadsOf(target, env, true, cs);
      Finish(env, if o.done then After(o, ReadsOf(value, env, true, o.rest)) else o, Normal)
    case Break => Run(env, {}, cs, Broke)
    case Continue => Run(env, {}, cs, Continued)
  }

  function LoopAfter(r: ExprRun, vars: set<string>, body: Block, env: set<string>): (run: Run)
    ensures |run.rest| <= |r.rest|
    decreases |r.rest|, body, 3
  {
    if !r.done then Run(env, r.unbound, r.rest, Cut)
    else Along(r.unbound, ExecLoop(None, vars, body, env, r.rest))
  }
}
