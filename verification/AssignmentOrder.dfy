/** Warnings come in the order of the text: they are some of the names that stand in it, each
    occurrence at most once. */
module AssignmentOrder {
  import opened Ast
  import opened DefiniteAssignment

  // ---------------------------------------------------------------- reading order

  /** The occurrences of names in an expression, in reading order. */
  function Names(e: Expr): seq<Warning>
    decreases e
  {
    match e
    case Identifier(name, span) => [Warning(name, span)]
    case List(items) => NamesOfAll(items)
    case Unary(_, operand) => Names(operand)
    case Binary(_, left, right) => Names(left) + Names(right)
    case Ternary(cond, a, b) => Names(cond) + (Names(a) + Names(b))
    case Call(callee, args) => Names(callee) + NamesOfAll(args)
    case Member(target, _) => Names(target)
    case Index(base, position) => Names(base) + Names(position)
    case Pipeline(source, stage) => Names(source) + Names(stage)
    case Throw(thrown) => Names(thrown)
    case Lambda(_, body) => Names(body)
    case _ => []
  }

  function NamesOfAll(es: seq<Expr>): seq<Warning>
    decreases es
  {
    if es == [] then [] else Names(es[0]) + NamesOfAll(es[1..])
  }

  function NamesOfOption(e: Option<Expr>): seq<Warning> { if e.Some? then Names(e.value) else [] }

  function BlockNames(b: Block): seq<Warning>
    decreases b, 0
  {
    StmtsNames(b.stmts) + NamesOfOption(b.value)
  }

  function ElseNames(b: Option<Block>): seq<Warning>
    decreases b, 1
  {
    if b.Some? then BlockNames(b.value) else []
  }

  function BranchNames(br: Branch): seq<Warning>
    decreases br, 0
  {
    Names(br.cond) + BlockNames(br.body)
  }

  function BranchesNames(brs: seq<Branch>): seq<Warning>
    decreases brs, 0
  {
    if brs == [] then [] else BranchNames(brs[0]) + BranchesNames(brs[1..])
  }

  function StmtsNames(stmts: seq<Stmt>): seq<Warning>
    decreases stmts, 0
  {
    if stmts == [] then [] else StmtNames(stmts[0]) + StmtsNames(stmts[1..])
  }

  function StmtNames(s: Stmt): seq<Warning>
    decreases s, 0
  {
    match s
    case Binding(_, value) => Names(value)
    case ExprStmt(expr) => Names(expr)
    case Return(result) => Names(result)
    case If(cond, body, elifs, orelse) =>
      Names(cond) + (BlockNames(body) + (BranchesNames(elifs) + ElseNames(orelse)))
    case While(cond, body) => Names(cond) + BlockNames(body)
    case For(_, iterable, body) => Names(iterable) + BlockNames(body)
    case ForKV(_, _, iterable, body) => Names(iterable) + BlockNames(body)
    case ForRange(_, start, end, step, body) =>
      Names(start) + (Names(end) + (NamesOfOption(step) + BlockNames(body)))
    case FieldAssign(target, _, value) => Names(target) + Names(value)
    case _ => []
  }

  // ---------------------------------------------------------------- some of them, in their order

  /** `a` is `b` with some items left out. */
  predicate IsPart<T(==)>(a: seq<T>, b: seq<T>)
    decreases b
  {
    a == [] || (b != [] && ((a[0] == b[0] && IsPart(a[1..], b[1..])) || IsPart(a, b[1..])))
  }

  lemma {:induction false} Join<T>(a: seq<T>, b: seq<T>, c: seq<T>, d: seq<T>)
    requires IsPart(a, b) && IsPart(c, d)
    ensures IsPart(a + c, b + d)
    decreases b
  {
    if b == [] {
      assert a + c == c && b + d == d;
    } else {
      assert (b + d)[1..] == b[1..] + d && (b + d)[0] == b[0];
      if a == [] {
        assert a + c == c;
        Join(a, b[1..], c, d);
      } else if a[0] == b[0] && IsPart(a[1..], b[1..]) {
        assert (a + c)[1..] == a[1..] + c && (a + c)[0] == a[0];
        Join(a[1..], b[1..], c, d);
      } else {
        Join(a, b[1..], c, d);
      }
    }
  }

  lemma {:induction false} Same<T>(a: seq<T>)
    ensures IsPart(a, a)
    decreases a
  {
    if a != [] { Same(a[1..]); }
  }

  /** The items of `a` stand in `b` at these places. */
  predicate Places<T(==)>(a: seq<T>, b: seq<T>, at: seq<nat>) {
    && |at| == |a| && (forall k :: 0 <= k < |a| ==> at[k] < |b| && a[k] == b[at[k]])
    && forall j, k :: 0 <= j < k < |a| ==> at[j] < at[k]
  }

  function Shifted(at: seq<nat>): seq<nat> { seq(|at|, k requires 0 <= k < |at| => at[k] + 1) }

  lemma PlacesLater<T>(a: seq<T>, b: seq<T>, at: seq<nat>)
    requires b != [] && Places(a, b[1..], at)
    ensures Places(a, b, Shifted(at)) && forall k :: 0 <= k < |a| ==> Shifted(at)[k] > 0
  {
    forall k | 0 <= k < |a| ensures Shifted(at)[k] < |b| && a[k] == b[Shifted(at)[k]] {
      assert b[1..][at[k]] == b[at[k] + 1];
    }
  }

  lemma PlacesFirst<T>(x: T, a: seq<T>, b: seq<T>, at: seq<nat>)
    requires b != [] && b[0] == x && Places(a, b, at) && forall k :: 0 <= k < |a| ==> at[k] > 0
    ensures Places([x] + a, b, [0] + at)
  {
  }

  /** They are increasing. */
  lemma {:induction false} PartHasPlaces<T>(a: seq<T>, b: seq<T>) returns (at: seq<nat>)
    requires IsPart(a, b)
    ensures Places(a, b, at)
    decreases b
  {
    hide Places, Shifted;
    if a == [] {
      at := [];
      NoPlaces(b);
    } else if a[0] == b[0] && IsPart(a[1..], b[1..]) {
      at := PartHasPlaces(a[1..], b[1..]);
      PlacesLater(a[1..], b, at);
      assert |Shifted(at)| == |a[1..]| by { PlaceForEach(a[1..], b, Shifted(at)); }
      PlacesFirst(a[0], a[1..], b, Shifted(at));
      assert [a[0]] + a[1..] == a;
      at := [0] + Shifted(at);
    } else {
      at := PartHasPlaces(a, b[1..]);
      PlacesLater(a, b, at);
      at := Shifted(at);
    }
  }

  lemma PlaceForEach<T>(a: seq<T>, b: seq<T>, at: seq<nat>)
    requires Places(a, b, at)
    ensures |at| == |a|
  {
  }

  lemma NoPlaces<T>(b: seq<T>)
    ensures Places([], b, [])
  {
  }

  // ---------------------------------------------------------------- warnings

  /** A name is warned about where it is not bound, unless it is a builtin or does not begin with a
      lowercase letter. */
  lemma NamesWarned(bs: set<string>, name: string, span: nat, bound: set<string>)
    ensures WarnExpr(bs, Identifier(name, span), bound) ==
            if name in bound || name in bs || name == "" || !(97 <= name[0] as int <= 122) then []
            else [Warning(name, span)]
  {
  }

  lemma {:induction false} ExprInOrder(bs: set<string>, e: Expr, bound: set<string>)
    ensures IsPart(WarnExpr(bs, e, bound), Names(e))
    decreases e
  {
    match e
    case Binary(_, left, right) =>
      ExprInOrder(bs, left, bound);
      ExprInOrder(bs, right, bound);
      TwoInOrder(bs, left, right, bound);
    case Unary(_, operand) => ExprInOrder(bs, operand, bound);
    case Call(callee, args) =>
      ExprInOrder(bs, callee, bound);
      AllInOrder(bs, args, bound);
      Join(WarnExpr(bs, callee, bound), Names(callee), WarnAll(bs, args, bound), NamesOfAll(args));
    case Ternary(cond, a, b) =>
      ExprInOrder(bs, cond, bound);
      ExprInOrder(bs, a, bound);
      ExprInOrder(bs, b, bound);
      TwoInOrder(bs, a, b, bound);
      var warned := WarnExpr(bs, a, bound) + WarnExpr(bs, b, bound);
      Join(WarnExpr(bs, cond, bound), Names(cond), warned, Names(a) + Names(b));
    case Member(target, _) => ExprInOrder(bs, target, bound);
    case List(items) => AllInOrder(bs, items, bound);
    case _ =>
  }

  lemma TwoInOrder(bs: set<string>, a: Expr, b: Expr, bound: set<string>)
    requires IsPart(WarnExpr(bs, a, bound), Names(a)) && IsPart(WarnExpr(bs, b, bound), Names(b))
    ensures IsPart(WarnExpr(bs, a, bound) + WarnExpr(bs, b, bound), Names(a) + Names(b))
  {
    Join(WarnExpr(bs, a, bound), Names(a), WarnExpr(bs, b, bound), Names(b));
  }

  lemma {:induction false} AllInOrder(bs: set<string>, es: seq<Expr>, bound: set<string>)
    ensures IsPart(WarnAll(bs, es, bound), NamesOfAll(es))
    decreases es
  {
    if es != [] {
      ExprInOrder(bs, es[0], bound);
      AllInOrder(bs, es[1..], bound);
      Join(WarnExpr(bs, es[0], bound), Names(es[0]), WarnAll(bs, es[1..], bound), NamesOfAll(es[1..]));
    }
  }

  lemma OptionInOrder(bs: set<string>, e: Option<Expr>, bound: set<string>)
    ensures IsPart(WarnOption(bs, e, bound), NamesOfOption(e))
  {
    if e.Some? { ExprInOrder(bs, e.value, bound); }
  }

  /** The warnings of a block are some of the names in it, in their order. */
  lemma {:induction false} WarningsAreInOrder(bs: set<string>, b: Block, bound: set<string>)
    ensures IsPart(CheckBlock(bs, b, bound).warned, BlockNames(b))
    decreases b, 0
  {
    hide IsPart;
    var f := CheckStmts(bs, b.stmts, bound);
    StmtsInOrder(bs, b.stmts, bound);
    OptionInOrder(bs, b.value, f.bound);
    Join(f.warned, StmtsNames(b.stmts), WarnOption(bs, b.value, f.bound), NamesOfOption(b.value));
  }

  lemma {:induction false} StmtsInOrder(bs: set<string>, stmts: seq<Stmt>, bound: set<string>)
    ensures IsPart(CheckStmts(bs, stmts, bound).warned, StmtsNames(stmts))
    decreases stmts, 0
  {
    if stmts != [] {
      hide IsPart;
      var f := CheckStmt(bs, stmts[0], bound);
      StmtInOrder(bs, stmts[0], bound);
      StmtsInOrder(bs, stmts[1..], f.bound);
      Join(f.warned, StmtNames(stmts[0]), CheckStmts(bs, stmts[1..], f.bound).warned, StmtsNames(stmts[1..]));
    }
  }

  lemma {:induction false} BranchInOrder(bs: set<string>, br: Branch, bound: set<string>)
    ensures IsPart(CheckBranch(bs, br, bound).warned, BranchNames(br))
    decreases br, 0
  {
    hide IsPart;
    ExprInOrder(bs, br.cond, bound);
    WarningsAreInOrder(bs, br.body, bound);
    Join(WarnExpr(bs, br.cond, bound), Names(br.cond), CheckBlock(bs, br.body, bound).warned, BlockNames(br.body));
  }

  lemma {:induction false} BranchesInOrder(bs: set<string>, brs: seq<Branch>, bound: set<string>, common: set<string>)
    ensures IsPart(CheckBranches(bs, brs, bound, common).warned, BranchesNames(brs))
    decreases brs, 0
  {
    if brs != [] {
      hide IsPart;
      var f := CheckBranch(bs, brs[0], bound);
      BranchInOrder(bs, brs[0], bound);
      BranchesInOrder(bs, brs[1..], bound, common * f.bound);
      Join(f.warned, BranchNames(brs[0]), CheckBranches(bs, brs[1..], bound, common * f.bound).warned,
           BranchesNames(brs[1..]));
    }
  }

  lemma {:induction false} ElseInOrder(bs: set<string>, b: Option<Block>, bound: set<string>)
    ensures IsPart(if b.Some? then CheckBlock(bs, b.value, bound).warned else [], ElseNames(b))
    decreases b, 1
  {
    if b.Some? { WarningsAreInOrder(bs, b.value, bound); }
  }

  lemma {:induction false} StmtInOrder(bs: set<string>, s: Stmt, bound: set<string>)
    ensures IsPart(CheckStmt(bs, s, bound).warned, StmtNames(s))
    decreases s, 1
  {
    hide IsPart, WarnExpr, CheckBlock, BlockNames, Names, WarnOption, NamesOfOption;
    match s
    case Binding(_, value) => ExprInOrder(bs, value, bound);
    case ExprStmt(expr) => ExprInOrder(bs, expr, bound);
    case Return(result) => ExprInOrder(bs, result, bound);
    case If(_, _, _, _) => IfInOrder(bs, s, bound);
    case While(cond, body) => LoopInOrder(bs, cond, body, bound, bound);
    case For(variable, iterable, body) => LoopInOrder(bs, iterable, body, bound, bound + {variable});
    case ForKV(keyVar, valueVar, iterable, body) => LoopInOrder(bs, iterable, body, bound, bound + {keyVar, valueVar});
    case ForRange(variable, start, end, step, body) =>
      var inside := bound + {variable};
      ExprInOrder(bs, start, bound);
      ExprInOrder(bs, end, bound);
      TwoInOrder(bs, start, end, bound);
      OptionInOrder(bs, step, bound);
      WarningsAreInOrder(bs, body, inside);
      var x, y, z := WarnExpr(bs, start, bound) + WarnExpr(bs, end, bound), WarnOption(bs, step, bound),
                     CheckBlock(bs, body, inside).warned;
      var p, q, r := Names(start) + Names(end), NamesOfOption(step), BlockNames(body);
      Join(x, p, y, q);
      Join(x + y, p + q, z, r);
      assert p + q + r == StmtNames(s);
    case FieldAssign(target, _, value) =>
      ExprInOrder(bs, target, bound);
      ExprInOrder(bs, value, bound);
      TwoInOrder(bs, target, value, bound);
    case _ => Nothing(StmtNames(s));
  }

  lemma Nothing(b: seq<Warning>)
    ensures IsPart([], b)
  {
  }

  lemma {:induction false} LoopInOrder(bs: set<string>, head: Expr, body: Block, bound: set<string>,
                                       inside: set<string>)
    ensures IsPart(WarnExpr(bs, head, bound) + CheckBlock(bs, body, inside).warned, Names(head) + BlockNames(body))
    decreases body, 1
  {
    hide IsPart;
    ExprInOrder(bs, head, bound);
    WarningsAreInOrder(bs, body, inside);
    Join(WarnExpr(bs, head, bound), Names(head), CheckBlock(bs, body, inside).warned, BlockNames(body));
  }

  lemma {:induction false} IfInOrder(bs: set<string>, s: Stmt, bound: set<string>)
    requires s.If?
    ensures IsPart(CheckStmt(bs, s, bound).warned, StmtNames(s))
    decreases s, 0
  {
    hide IsPart, WarnExpr, CheckBlock, BlockNames, Names;
    var t := CheckBlock(bs, s.body, bound);
    var f := CheckBranches(bs, s.elifs, bound, t.bound);
    LoopInOrder(bs, s.cond, s.body, bound, bound);
    BranchesInOrder(bs, s.elifs, bound, t.bound);
    ElseInOrder(bs, s.orelse, bound);
    var x, y, z := WarnExpr(bs, s.cond, bound) + t.warned, f.warned,
                   if s.orelse.Some? then CheckBlock(bs, s.orelse.value, bound).warned else [];
    var p, q, r := Names(s.cond) + BlockNames(s.body), BranchesNames(s.elifs), ElseNames(s.orelse);
    Join(x, p, y, q);
    Join(x + y, p + q, z, r);
    assert p + q + r == StmtNames(s);
    assert x + y + [] == x + y;
  }
}
