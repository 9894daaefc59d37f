/** Constant folding over whole blocks (src/compiler.rs). */
module Folder {
  import opened Ast
  import opened Integers
  import opened Meaning

  // ---------------------------------------------------------------- folding expressions

  /** Folding an operator on two integer literals. */
  function FoldInts(op: BinaryOp, a: int, b: int): Option<Expr> {
    match op
    case Add => Some(Integer(Wrap64(a + b)))
    case Sub => Some(Integer(Wrap64(a - b)))
    case Mul => Some(Integer(Wrap64(a * b)))
    case Div => if b != 0 then Some(Integer(Wrap64(TruncDiv(a, b)))) else None
    case Mod => if b != 0 then Some(Integer(TruncRem(a, b))) else None
    case BitAnd => Some(Integer(BitOp(op, a, b)))
    case BitOr => Some(Integer(BitOp(op, a, b)))
    case BitXor => Some(Integer(BitOp(op, a, b)))
    case Equals => Some(Bool(a == b))
    case Less => Some(Bool(a < b))
    case LessEq => Some(Bool(a <= b))
    case Greater => Some(Bool(a > b))
    case GreaterEq => Some(Bool(a >= b))
    case _ => None
  }

  function FoldBools(op: BinaryOp, a: bool, b: bool): Option<Expr> {
    match op
    case And => Some(Bool(a && b))
    case Or => Some(Bool(a || b))
    case Equals => Some(Bool(a == b))
    case _ => None
  }

  function FoldBinary(op: BinaryOp, left: Expr, right: Expr): Expr {
    var folded :=
      if left.Integer? && right.Integer? then FoldInts(op, left.n, right.n)
      else if left.Bool? && right.Bool? then FoldBools(op, left.b, right.b)
      else if left.Str? && right.Str? && op.Add? then Some(Str(left.s + right.s))
      else None;
    if folded.Some? then folded.value else Binary(op, left, right)
  }

  function FoldUnary(op: UnaryOp, operand: Expr): Expr {
    if op.Neg? && operand.Integer? then Integer(Wrap64(-operand.n))
    else if op.Not? && operand.Bool? then Bool(!operand.b)
    else if op.BitNot? && operand.Integer? then Integer(-operand.n - 1)
    else Unary(op, operand)
  }

  /** `length` of a string or list literal. */
  function FoldLength(target: Expr): Option<Expr> {
    match target
    case Str(s) => Some(Integer(ByteLength(s)))
    case List(items) => Some(Integer(|items|))
    case _ => None
  }

  function FoldCall(callee: Expr, args: seq<Expr>): Expr {
    if !callee.Identifier? || |args| != 1 then Call(callee, args)
    else if callee.name == "length" then
      var r := FoldLength(args[0]);
      if r.Some? then r.value else Call(callee, args)
    else if callee.name == "to_string" then
      match args[0]
      case Integer(n) => Str(IntText(n))
      case Bool(b) => Str(BoolText(b))
      case Str(_) => args[0]
      case _ => Call(callee, args)
    else Call(callee, args)
  }

  function FoldMember(target: Expr, property: string): Expr {
    var r := if property == "length" then FoldLength(target) else None;
    if r.Some? then r.value else Member(target, property)
  }

  function FoldTernary(cond: Expr, thenBranch: Expr, elseBranch: Expr): Expr {
    if cond.Bool? then if cond.b then thenBranch else elseBranch
    else Ternary(cond, thenBranch, elseBranch)
  }

  function FoldExpr(e: Expr): Expr
    decreases e
  {
    match e
    case Binary(op, left, right) => FoldBinary(op, FoldExpr(left), FoldExpr(right))
    case Unary(op, operand) => FoldUnary(op, FoldExpr(operand))
    case Ternary(cond, thenBranch, elseBranch) =>
      FoldTernary(FoldExpr(cond), FoldExpr(thenBranch), FoldExpr(elseBranch))
    case Call(callee, args) => FoldCall(FoldExpr(callee), FoldAll(args))
    case List(items) => List(FoldAll(items))
    case Member(target, property) => FoldMember(FoldExpr(target), property)
    case Index(base, position) => Index(FoldExpr(base), FoldExpr(position))
    case Lambda(params, body) => Lambda(params, FoldExpr(body))
    case _ => e
  }

  function FoldAll(es: seq<Expr>): seq<Expr>
    decreases es
  {
    if es == [] then [] else [FoldExpr(es[0])] + FoldAll(es[1..])
  }

  function FoldOption(e: Option<Expr>): Option<Expr> {
    if e.Some? then Some(FoldExpr(e.value)) else None
  }

  predicate IsPureDead(e: Expr)
    decreases e
  {
    match e
    case Integer(_) => true
    case Bool(_) => true
    case Str(_) => true
    case Unit => true
    case Identifier(_, _) => true
    case Binary(_, left, right) => IsPureDead(left) && IsPureDead(right)
    case Unary(_, operand) => IsPureDead(operand)
    case List(items) => AllPureDead(items)
    case Member(target, _) => IsPureDead(target)
    case Index(base, position) => IsPureDead(base) && IsPureDead(position)
    case Call(callee, args) => CallsPureBuiltin(callee) && AllPureDead(args)
    case _ => false
  }

  predicate AllPureDead(es: seq<Expr>)
    decreases es
  {
    es == [] || (IsPureDead(es[0]) && AllPureDead(es[1..]))
  }

  // ---------------------------------------------------------------- where folding is exact

  /** Only calls that reach pure builtins, anywhere. */
  predicate Effectless(e: Expr, scope: Scope)
    decreases e
  {
    match e
    case List(items) => AllEffectless(items, scope)
    case Unary(_, operand) => Effectless(operand, scope)
    case Binary(_, left, right) => Effectless(left, scope) && Effectless(right, scope)
    case Ternary(cond, thenBranch, elseBranch) =>
      Effectless(cond, scope) && Effectless(thenBranch, scope) && Effectless(elseBranch, scope)
    case Call(callee, args) => CallsBuiltin(callee, scope) && AllEffectless(args, scope)
    case Member(target, _) => Effectless(target, scope)
    case Index(base, position) => Effectless(base, scope) && Effectless(position, scope)
    case Lambda(_, _) => true
    case _ => e.Unit? || e.NoneLit? || e.Bool? || e.Integer? || e.Str? || e.Identifier?
  }

  predicate AllEffectless(es: seq<Expr>, scope: Scope)
    decreases es
  {
    es == [] || (Effectless(es[0], scope) && AllEffectless(es[1..], scope))
  }

  /** Every name that a run in this environment can find is in `scope`. */
  predicate Covers(scope: Scope, rt: Runtime, env: Env) {
    rt.functions <= scope.functions && env.Keys <= scope.locals && rt.types == scope.types
  }

  /** The folder's operation on these literals gives what the same operation on floats gives. */
  predicate ExactInts(op: BinaryOp, a: int, b: int) {
    && (op.And? || op.Or? || op.ShiftLeft? || op.ShiftRight? || (InRange(a) && InRange(b)))
    && match op
       case Add => InRange(a + b)
       case Sub => InRange(a - b)
       case Mul => InRange(a * b)
       case Div => b != 0 && a == b * TruncDiv(a, b)
       case Mod => b != 0
       case BitAnd => InRange(BitOp(op, a, b))
       case BitOr => InRange(BitOp(op, a, b))
       case BitXor => InRange(BitOp(op, a, b))
       case _ => true
  }

  /** Literals are folded as code generation would compute them, and otherwise an operation is
      done on native integers after folding exactly if it was before. */
  predicate ExactBinary(op: BinaryOp, left: Expr, right: Expr, l: Expr, r: Expr, types: Types) {
    if l.Integer? && r.Integer? then IsNative(op, left, right, types) || ExactInts(op, l.n, r.n)
    else IsNative(op, l, r, types) == IsNative(op, left, right, types)
  }

  predicate ExactUnary(op: UnaryOp, operand: Expr) {
    match op
    case Neg => operand.Integer? ==> IsI64(-operand.n)
    case BitNot => operand.Integer? ==> InRange(operand.n) && InRange(-operand.n - 1)
    case Not => true
  }

  predicate ExactLength(target: Expr, scope: Scope) {
    match target
    case Str(s) => InRange(ByteLength(s))
    case List(items) => InRange(|items|) && AllEffectless(items, scope)
    case _ => true
  }

  /** Folding this call of folded parts is exact: `length` of a literal is the builtin, and a
      number that becomes text is one that floats hold. */
  predicate ExactCall(callee: Expr, args: seq<Expr>, scope: Scope) {
    callee.Identifier? && |args| == 1 ==>
      && (callee.name == "length" && (args[0].Str? || args[0].List?) ==>
            !Finds(scope, "length") && ExactLength(args[0], scope))
      && (callee.name == "to_string" && args[0].Integer? ==> InRange(args[0].n))
  }

  /** A callee that only becomes a name by folding still means that name's value. */
  predicate ExactCallee(callee: Expr, folded: Expr, scope: Scope) {
    folded.Identifier? && !callee.Identifier? ==>
      !IsPureBuiltin(folded.name) && !(folded.name in scope.functions && folded.name in scope.locals)
  }

  /** Every fold in `e` is exact: literals are computed as code generation would compute them,
      no operation becomes one on native integers, no call gets another specialised version,
      list literals whose length is taken have effect-free items, a `length` that is folded is
      the builtin's, and no builtin is reached through a folded callee. */
  predicate Exact(e: Expr, scope: Scope)
    decreases e
  {
    match e
    case Integer(n) => InRange(n)
    case Unary(op, operand) =>
      Exact(operand, scope) && ExactUnary(op, FoldExpr(operand))
    case Binary(op, left, right) =>
      && Exact(left, scope) && Exact(right, scope)
      && ExactBinary(op, left, right, FoldExpr(left), FoldExpr(right), scope.types)
    case Ternary(cond, thenBranch, elseBranch) =>
      Exact(cond, scope) && Exact(thenBranch, scope) && Exact(elseBranch, scope)
    case Call(callee, args) =>
      && Exact(callee, scope) && AllExact(args, scope)
      && ExactCallee(callee, FoldExpr(callee), scope) && ExactCall(FoldExpr(callee), FoldAll(args), scope)
      && VersionOf(FoldExpr(callee), FoldAll(args), scope) == VersionOf(callee, args, scope)
    case List(items) => AllExact(items, scope)
    case Member(target, property) =>
      Exact(target, scope) && (property == "length" ==> ExactLength(FoldExpr(target), scope))
    case Index(base, position) => Exact(base, scope) && Exact(position, scope)
    case Lambda(params, body) => Exact(body, Inside(scope, params))
    case _ => true
  }

  predicate AllExact(es: seq<Expr>, scope: Scope)
    decreases es
  {
    es == [] || (Exact(es[0], scope) && AllExact(es[1..], scope))
  }

  /** What a lambda's body can find. */
  function Inside(scope: Scope, params: seq<string>): Scope {
    Scope(scope.functions, scope.locals + (set x | x in params), Boxed(scope.types))
  }

  predicate ExactOption(e: Option<Expr>, scope: Scope) { e.Some? ==> Exact(e.value, scope) }

  // ---------------------------------------------------------------- folding keeps an expression's meaning

  lemma {:induction false} FoldAllAt(es: seq<Expr>)
    ensures |FoldAll(es)| == |es|
    ensures forall i :: 0 <= i < |es| ==> FoldAll(es)[i] == FoldExpr(es[i])
    decreases es
  {
    if es != [] {
      FoldAllAt(es[1..]);
    }
  }

  lemma IntReal(a: int, b: int)
    ensures (a as real).Floor == a
    ensures (a * b) as real == a as real * b as real
    ensures b != 0 && a == b * TruncDiv(a, b) ==> a as real / b as real == TruncDiv(a, b) as real
  {
    if b != 0 && a == b * TruncDiv(a, b) {
      var q := TruncDiv(a, b);
      assert a as real == b as real * q as real;
    }
  }

  ghost predicate Computes(e: Expr, v: Value) {
    (e.Integer? && IsI64(e.n) && v == NumV(e.n as real)) || (e.Bool? && v == BoolV(e.b))
  }

  lemma FoldDivision(rt: Runtime, op: BinaryOp, a: int, b: int, t: Trace)
    requires (op.Div? || op.Mod?) && ExactInts(op, a, b)
    ensures b != 0 && Computes(FoldInts(op, a, b).value, ApplyNumbers(rt, op, a as real, b as real, t))
  {
    IntReal(a, b);
    IntReal(b, a);
    TruncFacts(a, b);
    if op.Div? { WrapExact(TruncDiv(a, b)); }
  }

  lemma FoldArithmetic(rt: Runtime, op: BinaryOp, a: int, b: int, t: Trace)
    requires IsArithmetic(op) && ExactInts(op, a, b) && FoldInts(op, a, b).Some?
    ensures Computes(FoldInts(op, a, b).value, ApplyNumbers(rt, op, a as real, b as real, t))
  {
    match op
    case Add => WrapExact(a + b);
    case Sub => WrapExact(a - b);
    case Mul =>
      IntReal(a, b);
      WrapExact(a * b);
    case _ => FoldDivision(rt, op, a, b, t);
  }

  /** Folding two literals computes what floats would. */
  lemma FoldIntsMeaning(rt: Runtime, op: BinaryOp, a: int, b: int, t: Trace)
    requires ExactInts(op, a, b) && FoldInts(op, a, b).Some?
    ensures Computes(FoldInts(op, a, b).value, ApplyNumbers(rt, op, a as real, b as real, t))
  {
    if IsArithmetic(op) {
      FoldArithmetic(rt, op, a, b, t);
    } else {
      IntReal(a, b);
      IntReal(b, a);
    }
  }

  lemma AsIntOfInteger(rt: Runtime, n: int)
    requires IsI64(n)
    ensures AsInt(rt, NumV(n as real)) == n
  {
    WrapIsI64(n);
    assert (n as real).Floor == n && (-(n as real)).Floor == -n;
  }

  /** Folding two literals computes what native integers would, whatever they are. */
  lemma FoldNativeMeaning(rt: Runtime, op: BinaryOp, a: int, b: int, t: Trace)
    requires IsI64(a) && IsI64(b) && (IsArithmetic(op) || IsComparison(op)) && FoldInts(op, a, b).Some?
    ensures Computes(FoldInts(op, a, b).value, ApplyNative(rt, op, a, b, t))
  {
    WrapIsI64(a + b);
    WrapIsI64(a - b);
    WrapIsI64(a * b);
    if op.Div? { WrapIsI64(TruncDiv(a, b)); }
    if op.Mod? {
      RemainderKeepsSign(a, b);
    }
  }

  /** What an operation on two literals folds to, if the original did it on native integers or
      if floats give the same. */
  lemma FoldLiterals(rt: Runtime, op: BinaryOp, native: bool, a: int, b: int, env: Env, t: Trace)
    requires IsI64(a) && IsI64(b) && !op.And? && !op.Or?
    requires (native && (IsArithmetic(op) || IsComparison(op))) || (!native && ExactInts(op, a, b))
    ensures var folded := FoldBinary(op, Integer(a), Integer(b));
            && (folded.Integer? ==> IsI64(folded.n))
            && Eval(rt, folded, env, t) == Ev(Operate(rt, op, native, NumV(a as real), NumV(b as real), t), t)
  {
    hide ExactInts, FoldInts, ApplyNumbers, ApplyNative, AsInt;
    AsIntOfInteger(rt, a);
    AsIntOfInteger(rt, b);
    if FoldInts(op, a, b).Some? {
      if native { FoldNativeMeaning(rt, op, a, b, t); } else { FoldIntsMeaning(rt, op, a, b, t); }
    } else {
      KeptLiterals(rt, op, native, a, b, t);
    }
  }

  /** The operations on literals that are not folded do the same natively and on floats. */
  lemma KeptLiterals(rt: Runtime, op: BinaryOp, native: bool, a: int, b: int, t: Trace)
    requires IsI64(a) && IsI64(b) && !op.And? && !op.Or? && FoldInts(op, a, b).None?
    requires (native && (IsArithmetic(op) || IsComparison(op))) || (!native && ExactInts(op, a, b))
    ensures var before := Operate(rt, op, native, NumV(a as real), NumV(b as real), t);
            var after := Operate(rt, op, IsNative(op, Integer(a), Integer(b), rt.types),
                                 NumV(a as real), NumV(b as real), t);
            after == before
  {
    AsIntOfInteger(rt, a);
    AsIntOfInteger(rt, b);
  }

  lemma FoldOthersCase(rt: Runtime, op: BinaryOp, left: Expr, right: Expr, env: Env, t: Trace)
    requires !left.Integer? || !right.Integer?
    ensures !FoldBinary(op, left, right).Integer?
    ensures Eval(rt, FoldBinary(op, left, right), env, t) == Eval(rt, Binary(op, left, right), env, t)
  {
  }

  /** Folding an operation whose operands have been folded keeps its value and effects. */
  lemma FoldBinaryMeaning(rt: Runtime, op: BinaryOp, left: Expr, right: Expr, l: Expr, r: Expr, env: Env, t: Trace)
    requires (l.Integer? ==> IsI64(l.n)) && (r.Integer? ==> IsI64(r.n))
    requires Eval(rt, l, env, t) == Eval(rt, left, env, t)
    requires Eval(rt, r, env, Eval(rt, left, env, t).t) == Eval(rt, right, env, Eval(rt, left, env, t).t)
    requires ExactBinary(op, left, right, l, r, rt.types)
    ensures FoldBinary(op, l, r).Integer? ==> IsI64(FoldBinary(op, l, r).n)
    ensures Eval(rt, FoldBinary(op, l, r), env, t) == Eval(rt, Binary(op, left, right), env, t)
  {
    hide FoldBinary, ExactInts, Operate, StaticInt, Eval;
    if l.Integer? && r.Integer? {
      LiteralsMean(rt, l.n, r.n, env, t);
      if op.And? || op.Or? {
        assert FoldBinary(op, l, r) == Binary(op, l, r) by { LogicStays(op, l.n, r.n); }
        BinaryCongruence(rt, op, left, right, l, r, env, t);
      } else {
        OperationMeans(rt, op, left, right, Ev(NumV(l.n as real), t), Ev(NumV(r.n as real), t), env, t);
        FoldLiterals(rt, op, IsNative(op, left, right, rt.types), l.n, r.n, env, t);
      }
    } else {
      FoldOthersCase(rt, op, l, r, env, t);
      BinaryCongruence(rt, op, left, right, l, r, env, t);
    }
  }

  lemma LiteralsMean(rt: Runtime, a: int, b: int, env: Env, t: Trace)
    ensures Eval(rt, Integer(a), env, t) == Ev(NumV(a as real), t)
    ensures Eval(rt, Integer(b), env, t) == Ev(NumV(b as real), t)
  {
  }

  lemma LogicStays(op: BinaryOp, a: int, b: int)
    requires op.And? || op.Or?
    ensures FoldBinary(op, Integer(a), Integer(b)) == Binary(op, Integer(a), Integer(b))
  {
  }

  /** Evaluating an effect-free expression leaves the trace alone. */
  lemma {:induction false} EffectlessKeepsTrace(rt: Runtime, e: Expr, scope: Scope, env: Env, t: Trace)
    requires Effectless(e, scope) && Covers(scope, rt, env)
    ensures Eval(rt, e, env, t).t == t
    decreases e
  {
    match e
    case List(items) => AllEffectlessKeepsTrace(rt, items, scope, env, t);
    case Unary(_, operand) => EffectlessKeepsTrace(rt, operand, scope, env, t);
    case Binary(_, left, right) =>
      EffectlessKeepsTrace(rt, left, scope, env, t);
      EffectlessKeepsTrace(rt, right, scope, env, t);
    case Ternary(cond, thenBranch, elseBranch) =>
      EffectlessKeepsTrace(rt, cond, scope, env, t);
      EffectlessKeepsTrace(rt, thenBranch, scope, env, t);
      EffectlessKeepsTrace(rt, elseBranch, scope, env, t);
    case Call(_, args) => AllEffectlessKeepsTrace(rt, args, scope, env, t);
    case Member(target, _) => EffectlessKeepsTrace(rt, target, scope, env, t);
    case Index(base, position) =>
      EffectlessKeepsTrace(rt, base, scope, env, t);
      EffectlessKeepsTrace(rt, position, scope, env, t);
    case _ =>
  }

  lemma {:induction false} AllEffectlessKeepsTrace(rt: Runtime, es: seq<Expr>, scope: Scope, env: Env, t: Trace)
    requires AllEffectless(es, scope) && Covers(scope, rt, env)
    ensures EvalAll(rt, es, env, t).t == t
    decreases es
  {
    if es != [] {
      EffectlessKeepsTrace(rt, es[0], scope, env, t);
      AllEffectlessKeepsTrace(rt, es[1..], scope, env, t);
    }
  }

  lemma {:induction false} EvalAllLength(rt: Runtime, es: seq<Expr>, env: Env, t: Trace)
    ensures |EvalAll(rt, es, env, t).vs| == |es|
    decreases es
  {
    if es != [] {
      EvalAllLength(rt, es[1..], env, Eval(rt, es[0], env, t).t);
    }
  }

  /** The names called in `e` that code generation does not emit itself. */
  function OpenCalls(e: Expr): set<string>
    decreases e
  {
    match e
    case List(items) => AllOpenCalls(items)
    case Unary(_, operand) => OpenCalls(operand)
    case Binary(_, left, right) => OpenCalls(left) + OpenCalls(right)
    case Ternary(cond, thenBranch, elseBranch) => OpenCalls(cond) + OpenCalls(thenBranch) + OpenCalls(elseBranch)
    case Call(callee, args) =>
      (if callee.Identifier? then if IsEmitted(callee.name) then {} else {callee.name} else OpenCalls(callee))
      + AllOpenCalls(args)
    case Member(target, _) => OpenCalls(target)
    case Index(base, position) => OpenCalls(base) + OpenCalls(position)
    case _ => {}
  }

  function AllOpenCalls(es: seq<Expr>): set<string>
    decreases es
  {
    if es == [] then {} else OpenCalls(es[0]) + AllOpenCalls(es[1..])
  }

  /** What counts as dead code is free of effects exactly when the program has nothing of its
      own under the builtin names it calls. */
  lemma {:induction false} PureDeadIsEffectless(e: Expr, scope: Scope)
    requires IsPureDead(e)
    ensures Effectless(e, scope) <==> forall name :: name in OpenCalls(e) ==> !Finds(scope, name)
    decreases e
  {
    match e
    case List(items) => AllPureDeadIsEffectless(items, scope);
    case Unary(_, operand) => PureDeadIsEffectless(operand, scope);
    case Binary(_, left, right) => PureDeadIsEffectless(left, scope); PureDeadIsEffectless(right, scope);
    case Call(_, args) => AllPureDeadIsEffectless(args, scope);
    case Member(target, _) => PureDeadIsEffectless(target, scope);
    case Index(base, position) => PureDeadIsEffectless(base, scope); PureDeadIsEffectless(position, scope);
    case _ =>
  }

  lemma {:induction false} AllPureDeadIsEffectless(es: seq<Expr>, scope: Scope)
    requires AllPureDead(es)
    ensures AllEffectless(es, scope) <==> forall name :: name in AllOpenCalls(es) ==> !Finds(scope, name)
    decreases es
  {
    if es != [] {
      PureDeadIsEffectless(es[0], scope);
      AllPureDeadIsEffectless(es[1..], scope);
    }
  }

  lemma EvalOne(rt: Runtime, e: Expr, env: Env, t: Trace)
    ensures EvalAll(rt, [e], env, t) == Evs([Eval(rt, e, env, t).v], Eval(rt, e, env, t).t)
  {
    assert [e][1..] == [];
  }

  lemma FoldMemberMeaning(rt: Runtime, target: Expr, property: string, scope: Scope, env: Env, t: Trace)
    requires Lawful(rt) && Covers(scope, rt, env)
    requires property == "length" ==> ExactLength(target, scope)
    ensures FoldMember(target, property).Integer? ==> InRange(FoldMember(target, property).n)
    ensures Eval(rt, FoldMember(target, property), env, t) == Eval(rt, Member(target, property), env, t)
  {
    if property == "length" && target.List? {
      AllEffectlessKeepsTrace(rt, target.items, scope, env, t);
      EvalAllLength(rt, target.items, env, t);
    }
  }

  lemma BuiltinCallOfOne(rt: Runtime, callee: Expr, a: Expr, env: Env, t: Trace)
    requires CallsBuiltin(callee, ScopeOf(rt, env))
    ensures var r := Eval(rt, a, env, t);
            Eval(rt, Call(callee, [a]), env, t) == Ev(rt.builtin(callee.name, [r.v], r.t), r.t)
  {
    EvalOne(rt, a, env, t);
  }

  lemma FoldLengthCall(rt: Runtime, callee: Expr, a: Expr, scope: Scope, env: Env, t: Trace)
    requires Lawful(rt) && Covers(scope, rt, env)
    requires callee.Identifier? && callee.name == "length" && ExactCall(callee, [a], scope)
    ensures FoldCall(callee, [a]).Integer? ==> InRange(FoldCall(callee, [a]).n)
    ensures Eval(rt, FoldCall(callee, [a]), env, t) == Eval(rt, Call(callee, [a]), env, t)
  {
    if a.Str? || a.List? {
      BuiltinCallOfOne(rt, callee, a, env, t);
      if a.List? {
        AllEffectlessKeepsTrace(rt, a.items, scope, env, t);
        EvalAllLength(rt, a.items, env, t);
      }
    }
  }

  lemma FoldTextCall(rt: Runtime, callee: Expr, a: Expr, env: Env, t: Trace)
    requires Lawful(rt) && callee.Identifier? && callee.name == "to_string"
    requires a.Integer? ==> InRange(a.n)
    ensures !FoldCall(callee, [a]).Integer?
    ensures Eval(rt, FoldCall(callee, [a]), env, t) == Eval(rt, Call(callee, [a]), env, t)
  {
    BuiltinCallOfOne(rt, callee, a, env, t);
  }

  /** Folding a call of folded parts keeps its value and effects. */
  lemma FoldCallMeaning(rt: Runtime, callee: Expr, args: seq<Expr>, scope: Scope, env: Env, t: Trace)
    requires Lawful(rt) && Covers(scope, rt, env)
    requires ExactCall(callee, args, scope)
    ensures FoldCall(callee, args).Integer? ==> InRange(FoldCall(callee, args).n)
    ensures Eval(rt, FoldCall(callee, args), env, t) == Eval(rt, Call(callee, args), env, t)
  {
    hide Eval, ExactLength, Lawful;
    if callee.Identifier? && |args| == 1 {
      assert args == [args[0]];
      if callee.name == "length" { FoldLengthCall(rt, callee, args[0], scope, env, t); }
      else if callee.name == "to_string" { FoldTextCall(rt, callee, args[0], env, t); }
    }
  }

  lemma OperationMeans(rt: Runtime, op: BinaryOp, left: Expr, right: Expr, l: Ev, r: Ev, env: Env, t: Trace)
    requires !op.And? && !op.Or?
    requires l == Eval(rt, left, env, t) && r == Eval(rt, right, env, l.t)
    ensures Eval(rt, Binary(op, left, right), env, t) ==
              Ev(Operate(rt, op, IsNative(op, left, right, rt.types), l.v, r.v, r.t), r.t)
  {
    hide Operate, IsNative;
  }

  lemma BinaryCongruence(rt: Runtime, op: BinaryOp, l: Expr, r: Expr, l': Expr, r': Expr, env: Env, t: Trace)
    requires IsNative(op, l', r', rt.types) == IsNative(op, l, r, rt.types)
    requires Eval(rt, l', env, t) == Eval(rt, l, env, t)
    requires Eval(rt, r', env, Eval(rt, l, env, t).t) == Eval(rt, r, env, Eval(rt, l, env, t).t)
    ensures Eval(rt, Binary(op, l', r'), env, t) == Eval(rt, Binary(op, l, r), env, t)
  {
  }

  lemma TernaryCongruence(rt: Runtime, c: Expr, a: Expr, b: Expr, c': Expr, a': Expr, b': Expr, env: Env, t: Trace)
    requires Eval(rt, c', env, t) == Eval(rt, c, env, t)
    requires Eval(rt, a', env, Eval(rt, c, env, t).t) == Eval(rt, a, env, Eval(rt, c, env, t).t)
    requires Eval(rt, b', env, Eval(rt, c, env, t).t) == Eval(rt, b, env, Eval(rt, c, env, t).t)
    ensures Eval(rt, FoldTernary(c', a', b'), env, t) == Eval(rt, Ternary(c, a, b), env, t)
  {
  }

  lemma CallCongruence(rt: Runtime, f: Expr, args: seq<Expr>, f': Expr, args': seq<Expr>, env: Env, t: Trace)
    requires f' == f || (!f.Identifier? && ExactCallee(f, f', ScopeOf(rt, env)))
    requires VersionOf(f', args', ScopeOf(rt, env)) == VersionOf(f, args, ScopeOf(rt, env))
    requires Eval(rt, f', env, t) == Eval(rt, f, env, t)
    requires EvalAll(rt, args', env, t) == EvalAll(rt, args, env, t)
    requires EvalAll(rt, args', env, Eval(rt, f, env, t).t) == EvalAll(rt, args, env, Eval(rt, f, env, t).t)
    ensures Eval(rt, Call(f', args'), env, t) == Eval(rt, Call(f, args), env, t)
  {
  }

  /** Folding keeps the value and the effects of every exactly folded expression. */
  lemma {:induction false} FoldExprMeaning(rt: Runtime, e: Expr, scope: Scope, env: Env, t: Trace)
    requires Lawful(rt) && Covers(scope, rt, env) && Exact(e, scope)
    ensures FoldExpr(e).Integer? ==> IsI64(FoldExpr(e).n)
    ensures Eval(rt, FoldExpr(e), env, t) == Eval(rt, e, env, t)
    decreases e, 1
  {
    match e
    case Unary(_, _) => FoldUnaryCase(rt, e, scope, env, t);
    case Binary(_, _, _) => FoldBinaryCase(rt, e, scope, env, t);
    case Ternary(_, _, _) => FoldTernaryCase(rt, e, scope, env, t);
    case Call(_, _) => FoldCallCase(rt, e, scope, env, t);
    case List(_) => FoldSequenceCase(rt, e, scope, env, t);
    case Member(_, _) => FoldSequenceCase(rt, e, scope, env, t);
    case Index(_, _) => FoldSequenceCase(rt, e, scope, env, t);
    case Lambda(params, body) => FoldLambdaMeaning(rt, params, body, scope, env);
    case _ =>
  }

  /** A folded lambda has the same parameters, and its body does the same in every environment
      for all arguments; so the closure is the same. */
  lemma {:induction false} FoldLambdaMeaning(rt: Runtime, params: seq<string>, body: Expr, scope: Scope, env: Env)
    requires Lawful(rt) && Covers(scope, rt, env) && Exact(body, Inside(scope, params))
    ensures FoldExpr(Lambda(params, body)) == Lambda(params, FoldExpr(body))
    ensures forall vs: seq<Value>, t: Trace :: |vs| == |params| ==>
              Closure(rt, params, FoldExpr(body), env)(vs, t) == Closure(rt, params, body, env)(vs, t)
    ensures rt.closure(|params|, Closure(rt, params, FoldExpr(body), env))
         == rt.closure(|params|, Closure(rt, params, body, env))
    decreases body, 2
  {
    hide Exact, Eval;
    forall vs: seq<Value>, t: Trace | |vs| == |params|
      ensures Eval(InLambda(rt), FoldExpr(body), Bind(env, params, vs), t)
           == Eval(InLambda(rt), body, Bind(env, params, vs), t)
    {
      LambdaIsLawful(rt);
      FoldExprMeaning(InLambda(rt), body, Inside(scope, params), Bind(env, params, vs), t);
    }
  }

  lemma LambdaIsLawful(rt: Runtime)
    requires Lawful(rt)
    ensures Lawful(InLambda(rt))
  {
  }

  lemma {:induction false} FoldUnaryCase(rt: Runtime, e: Expr, scope: Scope, env: Env, t: Trace)
    requires Lawful(rt) && Covers(scope, rt, env) && e.Unary? && Exact(e, scope)
    ensures FoldExpr(e).Integer? ==> IsI64(FoldExpr(e).n)
    ensures Eval(rt, FoldExpr(e), env, t) == Eval(rt, e, env, t)
    decreases e, 0
  {
    hide Eval, Lawful, FoldUnary, ExactUnary;
    FoldExprMeaning(rt, e.operand, scope, env, t);
    FoldUnaryMeaning(rt, e.uop, e.operand, FoldExpr(e.operand), env, t);
  }

  lemma FoldUnaryMeaning(rt: Runtime, op: UnaryOp, operand: Expr, folded: Expr, env: Env, t: Trace)
    requires Eval(rt, folded, env, t) == Eval(rt, operand, env, t) && ExactUnary(op, folded)
    ensures FoldUnary(op, folded).Integer? ==> IsI64(FoldUnary(op, folded).n)
    ensures Eval(rt, FoldUnary(op, folded), env, t) == Eval(rt, Unary(op, operand), env, t)
  {
    hide Eval, ApplyUnary, FoldUnary;
    UnaryMeans(rt, op, operand, env, t);
    UnaryMeans(rt, op, folded, env, t);
    if folded.Integer? {
      FoldUnaryInteger(rt, op, folded.n, env, t);
    } else {
      FoldUnaryOther(rt, op, folded, env, t);
    }
  }

  lemma UnaryMeans(rt: Runtime, op: UnaryOp, operand: Expr, env: Env, t: Trace)
    ensures var r := Eval(rt, operand, env, t);
            Eval(rt, Unary(op, operand), env, t) == Ev(ApplyUnary(rt, op, r.v), r.t)
  {
    hide ApplyUnary;
  }

  lemma FoldUnaryInteger(rt: Runtime, op: UnaryOp, n: int, env: Env, t: Trace)
    requires ExactUnary(op, Integer(n))
    ensures var folded := FoldUnary(op, Integer(n));
            && (folded.Integer? ==> IsI64(folded.n))
            && Eval(rt, folded, env, t) == Eval(rt, Unary(op, Integer(n)), env, t)
  {
    WrapIsI64(-n);
    IntReal(n, 1);
  }

  lemma FoldUnaryOther(rt: Runtime, op: UnaryOp, operand: Expr, env: Env, t: Trace)
    requires !operand.Integer?
    ensures !FoldUnary(op, operand).Integer?
    ensures Eval(rt, FoldUnary(op, operand), env, t) == Eval(rt, Unary(op, operand), env, t)
  {
  }

  lemma {:induction false} FoldSequenceCase(rt: Runtime, e: Expr, scope: Scope, env: Env, t: Trace)
    requires Lawful(rt) && Covers(scope, rt, env) && (e.List? || e.Member? || e.Index?) && Exact(e, scope)
    ensures FoldExpr(e).Integer? ==> IsI64(FoldExpr(e).n)
    ensures Eval(rt, FoldExpr(e), env, t) == Eval(rt, e, env, t)
    decreases e, 0
  {
    if e.List? {
      FoldAllMeaning(rt, e.items, scope, env, t);
    } else if e.Member? {
      FoldExprMeaning(rt, e.target, scope, env, t);
      FoldMemberMeaning(rt, FoldExpr(e.target), e.property, scope, env, t);
    } else {
      FoldExprMeaning(rt, e.base, scope, env, t);
      FoldExprMeaning(rt, e.position, scope, env, Eval(rt, e.base, env, t).t);
    }
  }

  lemma {:induction false} FoldBinaryCase(rt: Runtime, e: Expr, scope: Scope, env: Env, t: Trace)
    requires Lawful(rt) && Covers(scope, rt, env) && e.Binary? && Exact(e, scope)
    ensures FoldExpr(e).Integer? ==> IsI64(FoldExpr(e).n)
    ensures Eval(rt, FoldExpr(e), env, t) == Eval(rt, e, env, t)
    decreases e, 0
  {
    var l, r := FoldExpr(e.left), FoldExpr(e.right);
    FoldExprMeaning(rt, e.left, scope, env, t);
    FoldExprMeaning(rt, e.right, scope, env, Eval(rt, e.left, env, t).t);
    FoldBinaryMeaning(rt, e.op, e.left, e.right, l, r, env, t);
  }

  lemma {:induction false} FoldTernaryCase(rt: Runtime, e: Expr, scope: Scope, env: Env, t: Trace)
    requires Lawful(rt) && Covers(scope, rt, env) && e.Ternary? && Exact(e, scope)
    ensures FoldExpr(e).Integer? ==> IsI64(FoldExpr(e).n)
    ensures Eval(rt, FoldExpr(e), env, t) == Eval(rt, e, env, t)
    decreases e, 0
  {
    var t' := Eval(rt, e.cond, env, t).t;
    FoldExprMeaning(rt, e.cond, scope, env, t);
    FoldExprMeaning(rt, e.thenBranch, scope, env, t');
    FoldExprMeaning(rt, e.elseBranch, scope, env, t');
    TernaryCongruence(rt, e.cond, e.thenBranch, e.elseBranch,
                      FoldExpr(e.cond), FoldExpr(e.thenBranch), FoldExpr(e.elseBranch), env, t);
  }

  lemma {:induction false} FoldCallCase(rt: Runtime, e: Expr, scope: Scope, env: Env, t: Trace)
    requires Lawful(rt) && Covers(scope, rt, env) && e.Call? && Exact(e, scope)
    ensures FoldExpr(e).Integer? ==> IsI64(FoldExpr(e).n)
    ensures Eval(rt, FoldExpr(e), env, t) == Eval(rt, e, env, t)
    decreases e, 0
  {
    var f, args := FoldExpr(e.callee), FoldAll(e.args);
    FoldExprMeaning(rt, e.callee, scope, env, t);
    FoldAllMeaning(rt, e.args, scope, env, t);
    FoldAllMeaning(rt, e.args, scope, env, Eval(rt, e.callee, env, t).t);
    FoldAllAt(e.args);
    FoldCallMeaning(rt, f, args, scope, env, t);
    VersionStays(e.callee, e.args, f, args, scope, rt, env);
    CallCongruence(rt, e.callee, e.args, f, args, env, t);
  }

  lemma VersionStays(f: Expr, args: seq<Expr>, f': Expr, args': seq<Expr>, scope: Scope, rt: Runtime, env: Env)
    requires Covers(scope, rt, env) && VersionOf(f', args', scope) == VersionOf(f, args, scope)
    requires f.Identifier? ==> f' == f
    ensures VersionOf(f', args', ScopeOf(rt, env)) == VersionOf(f, args, ScopeOf(rt, env))
  {
  }

  lemma {:induction false} FoldAllMeaning(rt: Runtime, es: seq<Expr>, scope: Scope, env: Env, t: Trace)
    requires Lawful(rt) && Covers(scope, rt, env) && AllExact(es, scope)
    ensures EvalAll(rt, FoldAll(es), env, t) == EvalAll(rt, es, env, t)
    ensures |es| > 0 && FoldAll(es)[0].Integer? ==> IsI64(FoldAll(es)[0].n)
    decreases es
  {
    if es != [] {
      FoldExprMeaning(rt, es[0], scope, env, t);
      FoldAllMeaning(rt, es[1..], scope, env, Eval(rt, es[0], env, t).t);
      assert FoldAll(es)[1..] == FoldAll(es[1..]);
    }
  }
}
