/** Where folding changes the meaning of a program, and exactly when it does not. */
module FoldLimits {
  import opened Ast
  import opened Integers
  import opened Meaning
  import opened Folder
  import opened BlockFolder
  import opened FoldTheorem

  // ---------------------------------------------------------------- lawful runtimes exist

  /** A runtime that keeps the promises `Lawful` asks for, for a program with these functions
      and types. */
  ghost function SampleRuntime(functions: set<string>, types: Types): Runtime {
    Runtime(
      v => true, name => UnitV, (op, v) => v, (op, a, b, t) => UnitV,
      (vs: seq<Value>, t) => Handle(|vs|),
      SampleMember,
      (b, p, t) => UnitV,
      SampleBuiltin,
      (f, version, args, t) => UnitV, (v, t) => [], (v, t) => [], (a, b) => true, (a, s) => a,
      (n: nat, f: (seq<Value>, Trace) -> Ev) => UnitV,
      (e, env, t) => (UnitV, []), (op, a) => UnitV, v => 0, functions, types)
  }

  ghost function SampleMember(v: Value, property: string, t: Trace): Value {
    if property != "length" then UnitV
    else if v.Handle? then NumV(v.id as real)
    else if v.StrV? then NumV(ByteLength(v.s) as real)
    else UnitV
  }

  ghost function SampleBuiltin(name: string, args: seq<Value>, t: Trace): Value {
    if |args| != 1 then UnitV
    else if name == "length" then SampleMember(args[0], "length", t)
    else if name == "to_string" then
      match args[0]
      case NumV(r) => StrV(IntText(r.Floor))
      case BoolV(b) => StrV(BoolText(b))
      case v => v
    else UnitV
  }

  lemma SampleIsLawful(functions: set<string>, types: Types)
    ensures Lawful(SampleRuntime(functions, types))
  {
  }

  // ---------------------------------------------------------------- divisions

  lemma QuotientIsExact(a: int, b: int)
    requires b != 0
    ensures a as real / b as real == TruncDiv(a, b) as real <==> TruncRem(a, b) == 0
    ensures (TruncDiv(a, b) as real).Floor == TruncDiv(a, b)
  {
    var q := TruncDiv(a, b);
    IntReal(a, b);
    IntReal(b, q);
    if a as real / b as real == q as real {
      assert a as real == b as real * q as real;
      assert a as real == (b * q) as real;
    }
  }

  /** A native division and one on floats agree exactly when there is no remainder and no
      overflow. */
  lemma DivisionsAgree(rt: Runtime, a: int, b: int, t: Trace)
    requires IsI64(a) && IsI64(b) && b != 0
    ensures var x, y := NumV(a as real), NumV(b as real);
            Operate(rt, Div, true, x, y, t) == Operate(rt, Div, false, x, y, t) <==>
            TruncRem(a, b) == 0 && IsI64(TruncDiv(a, b))
  {
    hide AsInt, TruncDiv, TruncRem, Wrap64;
    AsIntOfInteger(rt, a);
    AsIntOfInteger(rt, b);
    QuotientIsExact(a, b);
    WrapIsI64(TruncDiv(a, b));
    IntReal(b, 1);
    if !IsI64(TruncDiv(a, b)) { OverflowDiffers(a, b); }
  }

  /** The one quotient that overflows wraps to another number. */
  lemma OverflowDiffers(a: int, b: int)
    requires IsI64(a) && IsI64(b) && b != 0 && !IsI64(TruncDiv(a, b))
    ensures a as real / b as real != Wrap64(TruncDiv(a, b)) as real
  {
    var k := Abs(a) / Abs(b);
    DivMod(Abs(a), Abs(b));
    if Abs(b) >= 2 { assert Abs(b) * k >= 2 * k by { MulGrows(Abs(b) - 1, k); } }
    assert b == -1 && a == -(WORD / 2);
    assert TruncDiv(a, b) == WORD / 2 && Wrap64(WORD / 2) == -(WORD / 2);
    assert a as real / (-1.0) == -(a as real);
  }

  function Quotient(left: Expr, right: Expr): Expr { Binary(Div, left, right) }

  /** Folding a division whose folded operands are static integers keeps its meaning in a run
      exactly when the unfolded operands were static integers already, or the numbers divided
      leave no remainder (and do not overflow). */
  lemma FoldedDivisionExact(rt: Runtime, left: Expr, right: Expr, a: int, b: int, scope: Scope, env: Env, t: Trace)
    requires Lawful(rt) && Covers(scope, rt, env) && Exact(left, scope) && Exact(right, scope)
    requires StaticInt(FoldExpr(left), rt.types) && StaticInt(FoldExpr(right), rt.types)
    requires IsI64(a) && IsI64(b) && b != 0 && Eval(rt, left, env, t).v == NumV(a as real)
    requires Eval(rt, right, env, Eval(rt, left, env, t).t).v == NumV(b as real)
    ensures Eval(rt, FoldExpr(Quotient(left, right)), env, t) == Eval(rt, Quotient(left, right), env, t) <==>
              || (StaticInt(left, rt.types) && StaticInt(right, rt.types))
              || (TruncRem(a, b) == 0 && IsI64(TruncDiv(a, b)))
  {
    hide Exact, Lawful, Operate, StaticInt, Eval, FoldExpr, FoldBinary, TruncDiv, TruncRem;
    var t1 := Eval(rt, left, env, t).t;
    var t2 := Eval(rt, right, env, t1).t;
    FoldExprMeaning(rt, left, scope, env, t);
    FoldExprMeaning(rt, right, scope, env, t1);
    FoldedQuotient(rt, FoldExpr(left), FoldExpr(right), a, b, env, t);
    QuotientFolds(left, right);
    QuotientMeans(rt, left, right, env, t);
    DivisionsAgree(rt, a, b, t2);
  }

  lemma QuotientFolds(left: Expr, right: Expr)
    ensures FoldExpr(Quotient(left, right)) == FoldBinary(Div, FoldExpr(left), FoldExpr(right))
  {
    hide FoldBinary;
  }

  lemma QuotientMeans(rt: Runtime, left: Expr, right: Expr, env: Env, t: Trace)
    ensures var l := Eval(rt, left, env, t);
            var r := Eval(rt, right, env, l.t);
            Eval(rt, Quotient(left, right), env, t) ==
              Ev(Operate(rt, Div, IsNative(Div, left, right, rt.types), l.v, r.v, r.t), r.t)
  {
    hide Eval, Operate, IsNative;
    var l := Eval(rt, left, env, t);
    OperationMeans(rt, Div, left, right, l, Eval(rt, right, env, l.t), env, t);
  }

  /** A folded division of static integers is done on native integers, now or later. */
  lemma FoldedQuotient(rt: Runtime, l: Expr, r: Expr, a: int, b: int, env: Env, t: Trace)
    requires StaticInt(l, rt.types) && StaticInt(r, rt.types)
    requires IsI64(a) && IsI64(b) && b != 0 && Eval(rt, l, env, t).v == NumV(a as real)
    requires (l.Integer? ==> IsI64(l.n)) && (r.Integer? ==> IsI64(r.n))
    requires Eval(rt, r, env, Eval(rt, l, env, t).t).v == NumV(b as real)
    ensures var t2 := Eval(rt, r, env, Eval(rt, l, env, t).t).t;
            Eval(rt, FoldBinary(Div, l, r), env, t) ==
              Ev(Operate(rt, Div, true, NumV(a as real), NumV(b as real), t2), t2)
  {
    if l.Integer? && r.Integer? {
      assert (l.n as real).Floor == l.n && (a as real).Floor == a;
      assert (r.n as real).Floor == r.n && (b as real).Floor == b;
      FoldLiterals(rt, Div, true, a, b, env, t);
    }
  }

  /** So for a native variable over a literal divisor, folding is right for every value of the
      variable exactly when the divisor was a static integer already, or is 1. */
  lemma FoldedDivisorExact(rt: Runtime, name: string, right: Expr, scope: Scope, env: Env, t: Trace)
    requires Lawful(rt) && Covers(scope, rt, env) && Exact(right, scope)
    requires name in rt.types.natives && name in scope.locals
    requires FoldExpr(right).Integer? && FoldExpr(right).n != 0
    ensures (forall x {:trigger env[name := NumV(x as real)]} :: IsI64(x) ==>
               var e, here := Quotient(Identifier(name, 0), right), env[name := NumV(x as real)];
               Eval(rt, FoldExpr(e), here, t) == Eval(rt, e, here, t)) <==>
            StaticInt(right, rt.types) || FoldExpr(right).n == 1
  {
    hide Exact, Lawful, FoldExpr, Eval, TruncDiv;
    var b := FoldExpr(right).n;
    var e := Quotient(Identifier(name, 0), right);
    forall x {:trigger env[name := NumV(x as real)]} | IsI64(x)
      ensures var here := env[name := NumV(x as real)];
              Eval(rt, FoldExpr(e), here, t) == Eval(rt, e, here, t) <==>
              StaticInt(right, rt.types) || (TruncRem(x, b) == 0 && IsI64(TruncDiv(x, b)))
    {
      VariableDivision(rt, name, right, x, scope, env, t);
    }
    if b == 1 {
      forall x | IsI64(x) ensures TruncRem(x, b) == 0 && IsI64(TruncDiv(x, b)) { DividedByOne(x); }
    } else {
      DivisorWitness(b);
      var x :| IsI64(x) && !(TruncRem(x, b) == 0 && IsI64(TruncDiv(x, b)));
      var here := env[name := NumV(x as real)];
    }
  }

  lemma VariableDivision(rt: Runtime, name: string, right: Expr, x: int, scope: Scope, env: Env, t: Trace)
    requires Lawful(rt) && Covers(scope, rt, env) && Exact(right, scope) && IsI64(x)
    requires name in rt.types.natives && name in scope.locals
    requires FoldExpr(right).Integer? && FoldExpr(right).n != 0
    ensures var e, here, b := Quotient(Identifier(name, 0), right), env[name := NumV(x as real)], FoldExpr(right).n;
            Eval(rt, FoldExpr(e), here, t) == Eval(rt, e, here, t) <==>
            StaticInt(right, rt.types) || (TruncRem(x, b) == 0 && IsI64(TruncDiv(x, b)))
  {
    var here := env[name := NumV(x as real)];
    FoldExprMeaning(rt, right, scope, here, t);
    FoldedDivisionExact(rt, Identifier(name, 0), right, x, FoldExpr(right).n, scope, here, t);
  }

  lemma DividedByOne(x: int)
    ensures TruncRem(x, 1) == 0 && TruncDiv(x, 1) == x
  {
  }

  lemma DivisorWitness(b: int)
    requires b != 0 && b != 1
    ensures exists x :: IsI64(x) && !(TruncRem(x, b) == 0 && IsI64(TruncDiv(x, b)))
  {
    if b == -1 {
      var least := -(WORD / 2);
      assert IsI64(least) && TruncDiv(least, b) == WORD / 2;
    } else {
      assert Abs(1) / Abs(b) == 0;
      assert IsI64(1) && TruncDiv(1, b) == 0 && TruncRem(1, b) == 1;
    }
  }

  /** `"abcdefg".length / 2` is 3.5 and folds to 3, and with 7 in the native variable `x` so are
      `x / (3 & 2)` and what it folds to; `7 / 2` is 3 either way. */
  lemma FoldedDivisionCanLose(rt: Runtime, env: Env, t: Trace)
    requires Lawful(rt) && "x" in rt.types.natives && "x" in env && env["x"] == NumV(7.0)
    ensures var e := Quotient(Member(Str("abcdefg"), "length"), Integer(2));
            Eval(rt, FoldExpr(e), env, t).v == NumV(3.0) && Eval(rt, e, env, t).v == NumV(3.5)
    ensures var e := Quotient(Identifier("x", 0), Binary(BitAnd, Integer(3), Integer(2)));
            Eval(rt, FoldExpr(e), env, t).v == NumV(3.0) && Eval(rt, e, env, t).v == NumV(3.5)
    ensures var e := Quotient(Integer(7), Integer(2));
            Eval(rt, FoldExpr(e), env, t).v == NumV(3.0) && Eval(rt, e, env, t).v == NumV(3.0)
  {
    hide Lawful, Eval, FoldExpr, Operate, FoldBinary;
    var m, mask, x := Member(Str("abcdefg"), "length"), Binary(BitAnd, Integer(3), Integer(2)), Identifier("x", 0);
    SevenHalves(rt, t);
    LengthOfSeven(rt, env, t);
    MaskOfTwo(rt, env, t);
    SmallLiteralsMean(rt, env, t);
    QuotientFolds(m, Integer(2));
    QuotientFolds(x, mask);
    QuotientFolds(Integer(7), Integer(2));
    QuotientMeans(rt, m, Integer(2), env, t);
    QuotientMeans(rt, x, mask, env, t);
    QuotientMeans(rt, Integer(7), Integer(2), env, t);
    QuotientMeans(rt, x, Integer(2), env, t);
  }

  lemma SevenHalves(rt: Runtime, t: Trace)
    ensures Operate(rt, Div, true, NumV(7.0), NumV(2.0), t) == NumV(3.0)
    ensures Operate(rt, Div, false, NumV(7.0), NumV(2.0), t) == NumV(3.5)
    ensures FoldBinary(Div, Integer(7), Integer(2)) == Integer(3)
  {
    hide AsInt, TruncDiv;
    assert TruncDiv(7, 2) == 3 by { SevenByTwo(); }
    AsIntOfInteger(rt, 7);
    AsIntOfInteger(rt, 2);
    WrapExact(3);
  }

  lemma SevenByTwo()
    ensures TruncDiv(7, 2) == 3
  {
  }

  lemma LengthOfSeven(rt: Runtime, env: Env, t: Trace)
    requires Lawful(rt)
    ensures var m := Member(Str("abcdefg"), "length");
            Eval(rt, m, env, t) == Ev(NumV(7.0), t) && FoldExpr(m) == Integer(7)
  {
    hide Lawful, Eval, FoldExpr;
    TextLength(rt, "abcdefg", env, t);
    assert ByteLength("abcdefg") == 7;
  }

  lemma TextLength(rt: Runtime, s: string, env: Env, t: Trace)
    requires Lawful(rt)
    ensures var m := Member(Str(s), "length");
            Eval(rt, m, env, t) == Ev(NumV(ByteLength(s) as real), t) && FoldExpr(m) == Integer(ByteLength(s))
  {
    hide ByteLength;
  }

  lemma MaskOfTwo(rt: Runtime, env: Env, t: Trace)
    ensures var mask := Binary(BitAnd, Integer(3), Integer(2));
            Eval(rt, mask, env, t) == Ev(NumV(2.0), t) && FoldExpr(mask) == Integer(2)
  {
    hide BitOp;
    ThreeAndTwo();
    assert Integral(3.0) && Integral(2.0);
  }

  lemma SmallLiteralsMean(rt: Runtime, env: Env, t: Trace)
    ensures Eval(rt, Integer(7), env, t) == Ev(NumV(7.0), t) && Eval(rt, Integer(2), env, t) == Ev(NumV(2.0), t)
    ensures Eval(rt, Integer(3), env, t) == Ev(NumV(3.0), t)
    ensures "x" in env ==> Eval(rt, Identifier("x", 0), env, t) == Ev(env["x"], t)
    ensures FoldExpr(Integer(7)) == Integer(7) && FoldExpr(Integer(2)) == Integer(2)
    ensures FoldExpr(Identifier("x", 0)) == Identifier("x", 0)
    ensures FoldBinary(Div, Identifier("x", 0), Integer(2)) == Quotient(Identifier("x", 0), Integer(2))
  {
  }

  lemma ThreeAndTwo()
    ensures BitOp(BitAnd, 3, 2) == 2
  {
    ZeroBits(62);
    assert BitsOf(BitAnd, 3, 2, 64) == Bit(BitAnd, 3, 2) + 2 * (Bit(BitAnd, 1, 1) + 2 * BitsOf(BitAnd, 0, 0, 62));
  }

  lemma {:induction false} ZeroBits(width: nat)
    ensures BitsOf(BitAnd, 0, 0, width) == 0
    decreases width
  {
    if width > 0 { ZeroBits(width - 1); }
  }

  /** Folding a divisor to 0 turns a float division into a native one. */
  lemma FoldedZeroDivision(rt: Runtime, left: Expr, right: Expr, a: int, scope: Scope, env: Env, t: Trace)
    requires Lawful(rt) && Covers(scope, rt, env) && Exact(left, scope) && Exact(right, scope)
    requires FoldExpr(left) == Integer(a) && FoldExpr(right) == Integer(0)
    requires !(StaticInt(left, rt.types) && StaticInt(right, rt.types))
    ensures Eval(rt, Quotient(left, right), env, t).v == rt.binary(Div, NumV(a as real), NumV(0.0), t)
    ensures Eval(rt, FoldExpr(Quotient(left, right)), env, t).v == rt.trap(Div, a)
  {
    FoldExprMeaning(rt, left, scope, env, t);
    FoldExprMeaning(rt, right, scope, env, t);
    hide Exact, Lawful, FoldExpr, StaticInt;
    LiteralMeans(rt, a, env, t);
    LiteralMeans(rt, 0, env, t);
    QuotientFolds(left, right);
    QuotientMeans(rt, left, right, env, t);
    QuotientMeans(rt, Integer(a), Integer(0), env, t);
    ZeroDivisions(rt, a, t);
  }

  lemma LiteralMeans(rt: Runtime, n: int, env: Env, t: Trace)
    ensures Eval(rt, Integer(n), env, t) == Ev(NumV(n as real), t) && StaticInt(Integer(n), rt.types)
  {
  }

  lemma ZeroDivisions(rt: Runtime, a: int, t: Trace)
    requires IsI64(a)
    ensures Operate(rt, Div, true, NumV(a as real), NumV(0.0), t) == rt.trap(Div, a)
    ensures Operate(rt, Div, false, NumV(a as real), NumV(0.0), t) == rt.binary(Div, NumV(a as real), NumV(0.0), t)
    ensures FoldBinary(Div, Integer(a), Integer(0)) == Quotient(Integer(a), Integer(0))
  {
    AsIntOfInteger(rt, a);
    AsIntOfInteger(rt, 0);
  }

  // ---------------------------------------------------------------- specialised versions

  /** Folding the arguments of a call by name is right exactly when they still select the same
      version of the function. */
  lemma FoldedArgumentsExact(rt: Runtime, name: string, span: nat, args: seq<Expr>, scope: Scope, env: Env, t: Trace)
    requires Lawful(rt) && Covers(scope, rt, env) && AllExact(args, scope) && name in rt.functions
    requires !IsPureBuiltin(name)
    ensures var e := Call(Identifier(name, span), args);
            Eval(rt, FoldExpr(e), env, t) == Eval(rt, e, env, t) <==>
            VersionOf(e.callee, FoldAll(args), ScopeOf(rt, env)) == VersionOf(e.callee, args, ScopeOf(rt, env))
  {
    hide Exact, Lawful, VersionOf;
    FoldAllMeaning(rt, args, scope, env, t);
    var e := Call(Identifier(name, span), args);
    assert FoldExpr(e) == Call(Identifier(name, span), FoldAll(args));
    var r := EvalAll(rt, args, env, t);
    LastEvents(r.t, Called(rt.global(name), VersionOf(e.callee, FoldAll(args), ScopeOf(rt, env)), r.vs),
               Called(rt.global(name), VersionOf(e.callee, args, ScopeOf(rt, env)), r.vs));
  }

  lemma LastEvents(t: Trace, x: Event, y: Event)
    ensures t + [x] == t + [y] <==> x == y
  {
    assert (t + [x])[|t|] == x && (t + [y])[|t|] == y;
  }

  /** `f(7, "ab".length)` runs the general `f`, and folds to a call of the version for integers
      if some other call made one. */
  lemma FoldedArgumentsCanSpecialise(scope: Scope)
    requires "f" in scope.functions && ("f", [IntType, IntType]) in scope.types.variants
    requires ("f", [IntType, Unknown]) !in scope.types.variants
    ensures var f, args := Identifier("f", 0), [Integer(7), Member(Str("ab"), "length")];
            VersionOf(f, args, scope) == None && VersionOf(f, FoldAll(args), scope) == Some([IntType, IntType])
  {
    var args := [Integer(7), Member(Str("ab"), "length")];
    assert args[1..] == [args[1]] && args[1..][1..] == [];
    assert ArgTypes(args, scope.types) == [IntType, Unknown];
    assert ByteLength("ab") == 2;
    assert FoldAll(args) == [Integer(7), Integer(2)];
    var folded := [Integer(7), Integer(2)];
    assert folded[1..] == [folded[1]] && folded[1..][1..] == [];
    assert ArgTypes(folded, scope.types) == [IntType, IntType];
  }

  /** `0 to "abc".length` counts on floats, and natively once folded. */
  lemma FoldedRangeCanTurnNative(types: Types)
    ensures var end := Member(Str("abc"), "length");
            && !IsNativeRange(Integer(0), end, None, types)
            && IsNativeRange(FoldExpr(Integer(0)), FoldExpr(end), FoldOption(None), types)
  {
  }

  // ---------------------------------------------------------------- expressions that act

  /** Whatever its conditions turn out to be, evaluating `e` makes an ordinary call. */
  predicate Acts(e: Expr, scope: Scope)
    decreases e
  {
    match e
    case List(items) => SomeActs(items, scope)
    case Unary(_, operand) => Acts(operand, scope)
    case Binary(op, left, right) => Acts(left, scope) || (!op.And? && !op.Or? && Acts(right, scope))
    case Ternary(cond, thenBranch, elseBranch) =>
      Acts(cond, scope) || (Acts(thenBranch, scope) && Acts(elseBranch, scope))
    case Call(callee, args) => !CallsBuiltin(callee, scope) || SomeActs(args, scope)
    case Member(target, _) => Acts(target, scope)
    case Index(base, position) => Acts(base, scope) || Acts(position, scope)
    case _ => false
  }

  predicate SomeActs(es: seq<Expr>, scope: Scope)
    decreases es
  {
    es != [] && (Acts(es[0], scope) || SomeActs(es[1..], scope))
  }

  /** No part of `e` is evaluated on a condition, and none is left to the runtime. */
  predicate Straight(e: Expr)
    decreases e
  {
    match e
    case List(items) => AllStraight(items)
    case Unary(_, operand) => Straight(operand)
    case Binary(op, left, right) => !op.And? && !op.Or? && Straight(left) && Straight(right)
    case Call(_, args) => AllStraight(args)
    case Member(target, _) => Straight(target)
    case Index(base, position) => Straight(base) && Straight(position)
    case _ => e.Unit? || e.NoneLit? || e.Bool? || e.Integer? || e.Str? || e.Identifier? || e.Lambda?
  }

  predicate AllStraight(es: seq<Expr>)
    decreases es
  {
    es == [] || (Straight(es[0]) && AllStraight(es[1..]))
  }

  /** A straight expression either has no effect in any run or has one in every run. */
  lemma {:induction false} StraightIsDecided(e: Expr, scope: Scope)
    requires Straight(e)
    ensures Acts(e, scope) <==> !Effectless(e, scope)
    decreases e
  {
    match e
    case List(items) => AllStraightAreDecided(items, scope);
    case Unary(_, operand) => StraightIsDecided(operand, scope);
    case Binary(_, left, right) =>
      StraightIsDecided(left, scope);
      StraightIsDecided(right, scope);
    case Call(_, args) => AllStraightAreDecided(args, scope);
    case Member(target, _) => StraightIsDecided(target, scope);
    case Index(base, position) =>
      StraightIsDecided(base, scope);
      StraightIsDecided(position, scope);
    case _ =>
  }

  lemma {:induction false} AllStraightAreDecided(es: seq<Expr>, scope: Scope)
    requires AllStraight(es)
    ensures SomeActs(es, scope) <==> !AllEffectless(es, scope)
    decreases es
  {
    if es != [] {
      StraightIsDecided(es[0], scope);
      AllStraightAreDecided(es[1..], scope);
    }
  }

  lemma {:induction false} TraceGrows(rt: Runtime, e: Expr, env: Env, t: Trace)
    ensures |Eval(rt, e, env, t).t| >= |t|
    ensures Acts(e, ScopeOf(rt, env)) ==> |Eval(rt, e, env, t).t| > |t|
    decreases e
  {
    match e
    case List(items) => AllTraceGrows(rt, items, env, t);
    case Unary(_, operand) => TraceGrows(rt, operand, env, t);
    case Binary(_, left, right) =>
      TraceGrows(rt, left, env, t);
      TraceGrows(rt, right, env, Eval(rt, left, env, t).t);
    case Ternary(cond, thenBranch, elseBranch) =>
      TraceGrows(rt, cond, env, t);
      TraceGrows(rt, thenBranch, env, Eval(rt, cond, env, t).t);
      TraceGrows(rt, elseBranch, env, Eval(rt, cond, env, t).t);
    case Call(callee, args) =>
      TraceGrows(rt, callee, env, t);
      AllTraceGrows(rt, args, env, t);
      AllTraceGrows(rt, args, env, Eval(rt, callee, env, t).t);
    case Member(target, _) => TraceGrows(rt, target, env, t);
    case Index(base, position) =>
      TraceGrows(rt, base, env, t);
      TraceGrows(rt, position, env, Eval(rt, base, env, t).t);
    case _ =>
  }

  lemma {:induction false} AllTraceGrows(rt: Runtime, es: seq<Expr>, env: Env, t: Trace)
    ensures |EvalAll(rt, es, env, t).t| >= |t|
    ensures SomeActs(es, ScopeOf(rt, env)) ==> |EvalAll(rt, es, env, t).t| > |t|
    decreases es
  {
    if es != [] {
      TraceGrows(rt, es[0], env, t);
      AllTraceGrows(rt, es[1..], env, Eval(rt, es[0], env, t).t);
    }
  }

  lemma {:induction false} SomeActsAt(es: seq<Expr>, i: nat, scope: Scope)
    requires i < |es| && Acts(es[i], scope)
    ensures SomeActs(es, scope)
    decreases es
  {
    if i > 0 { SomeActsAt(es[1..], i - 1, scope); }
  }

  // ---------------------------------------------------------------- lengths

  /** `[...].length` and `length([...])`. */
  function LengthMember(items: seq<Expr>): Expr { Member(List(items), "length") }

  function LengthCall(arg: Expr, span: nat): Expr { Call(Identifier("length", span), [arg]) }

  lemma FoldedLengths(items: seq<Expr>, span: nat)
    ensures FoldExpr(LengthMember(items)) == Integer(|items|)
    ensures FoldExpr(LengthCall(List(items), span)) == Integer(|items|)
  {
    FoldAllAt(items);
    FoldAllAt([List(items)]);
    assert FoldExpr(Identifier("length", span)) == Identifier("length", span);
  }

  /** Evaluating the length of a list literal: its size, and the trace of building it, unless
      the program has its own `length`. */
  lemma LengthsMean(rt: Runtime, items: seq<Expr>, span: nat, env: Env, t: Trace)
    requires Lawful(rt)
    ensures var r := Ev(NumV(|items| as real), EvalAll(rt, items, env, t).t);
            && Eval(rt, LengthMember(items), env, t) == r
            && (!Finds(ScopeOf(rt, env), "length") ==> Eval(rt, LengthCall(List(items), span), env, t) == r)
  {
    EvalAllLength(rt, items, env, t);
    if !Finds(ScopeOf(rt, env), "length") {
      BuiltinCallOfOne(rt, Identifier("length", span), List(items), env, t);
    }
  }

  /** Folding the length of a list literal is right in every run when no item calls anything
      but a builtin, and wrong in every run in which some item's call cannot be avoided. */
  lemma FoldedLengthDecided(rt: Runtime, items: seq<Expr>, span: nat, env: Env, t: Trace)
    requires Lawful(rt)
    ensures var e, scope := LengthMember(items), ScopeOf(rt, env);
            && (AllEffectless(items, scope) ==> Eval(rt, FoldExpr(e), env, t) == Eval(rt, e, env, t))
            && (SomeActs(items, scope) ==> Eval(rt, FoldExpr(e), env, t).t != Eval(rt, e, env, t).t)
    ensures var e, scope := LengthCall(List(items), span), ScopeOf(rt, env);
            && (AllEffectless(items, scope) && !Finds(scope, "length") ==>
                  Eval(rt, FoldExpr(e), env, t) == Eval(rt, e, env, t))
            && (SomeActs(items, scope) || Finds(scope, "length") ==>
                  Eval(rt, FoldExpr(e), env, t).t != Eval(rt, e, env, t).t)
  {
    FoldedLengths(items, span);
    LengthsMean(rt, items, span, env, t);
    AllTraceGrows(rt, items, env, t);
    TraceGrows(rt, LengthCall(List(items), span), env, t);
    if AllEffectless(items, ScopeOf(rt, env)) { AllEffectlessKeepsTrace(rt, items, ScopeOf(rt, env), env, t); }
  }

  /** So for items without conditions the fold is right in a run exactly when the items' text
      has no call of anything but a builtin, and then in every run; `length(...)` must be the
      builtin's besides. */
  lemma FoldedLengthExact(rt: Runtime, items: seq<Expr>, span: nat, env: Env, t: Trace)
    requires Lawful(rt) && AllStraight(items)
    ensures var e := LengthMember(items);
            Eval(rt, FoldExpr(e), env, t) == Eval(rt, e, env, t) <==> AllEffectless(items, ScopeOf(rt, env))
    ensures var e := LengthCall(List(items), span);
            Eval(rt, FoldExpr(e), env, t) == Eval(rt, e, env, t) <==>
            AllEffectless(items, ScopeOf(rt, env)) && !Finds(ScopeOf(rt, env), "length")
  {
    FoldedLengthDecided(rt, items, span, env, t);
    AllStraightAreDecided(items, ScopeOf(rt, env));
  }

  /** In particular a call to anything but a builtin among the items is always lost. */
  lemma FoldedLengthLosesCalls(rt: Runtime, items: seq<Expr>, i: nat, env: Env, t: Trace)
    requires i < |items| && items[i].Call? && !CallsBuiltin(items[i].callee, ScopeOf(rt, env))
    ensures var e := LengthMember(items);
            Eval(rt, FoldExpr(e), env, t).t == t && |Eval(rt, e, env, t).t| > |t|
  {
    SomeActsAt(items, i, ScopeOf(rt, env));
    AllTraceGrows(rt, items, env, t);
    FoldAllAt(items);
  }

  /** Folding `length` of a text is right exactly when the program has no `length` of its own. */
  lemma FoldedTextLengthExact(rt: Runtime, s: string, span: nat, env: Env, t: Trace)
    requires Lawful(rt)
    ensures var e := LengthCall(Str(s), span);
            Eval(rt, FoldExpr(e), env, t) == Eval(rt, e, env, t) <==> !Finds(ScopeOf(rt, env), "length")
  {
    var e := LengthCall(Str(s), span);
    FoldAllAt([Str(s)]);
    assert FoldExpr(e) == Integer(ByteLength(s)) by { assert FoldAll([Str(s)]) == [Str(s)]; }
    TraceGrows(rt, e, env, t);
    if !Finds(ScopeOf(rt, env), "length") { BuiltinCallOfOne(rt, e.callee, Str(s), env, t); }
  }

  // ---------------------------------------------------------------- dropped statements

  /** Dropping a dead statement without conditions is right exactly when every builtin it
      calls is emitted or the program has nothing of its own under that name. */
  lemma DroppedExact(rt: Runtime, e: Expr, st: State, fuel: nat)
    requires IsPureDead(e) && Straight(e)
    ensures ExecStmts(rt, Live([ExprStmt(e)]), st, fuel) == ExecStmts(rt, [ExprStmt(e)], st, fuel) <==>
            forall name :: name in OpenCalls(e) ==> !Finds(ScopeOf(rt, st.env), name)
  {
    var scope := ScopeOf(rt, st.env);
    ExecOne(rt, ExprStmt(e), st, fuel);
    PureDeadIsEffectless(e, scope);
    StraightIsDecided(e, scope);
    TraceGrows(rt, e, st.env, st.t);
    if Effectless(e, scope) { EffectlessKeepsTrace(rt, e, scope, st.env, st.t); }
    assert Live([ExprStmt(e)]) == [];
  }

  /** `clamp(3)` as a statement disappears although the program defines `clamp`. */
  lemma OwnFunctionIsDropped(rt: Runtime, st: State, fuel: nat)
    requires "clamp" in rt.functions
    ensures var e := Call(Identifier("clamp", 0), [Integer(3)]);
            var block := Block([ExprStmt(e)], None);
            var call := Called(rt.global("clamp"), VersionOf(e.callee, e.args, ScopeOf(rt, st.env)), [NumV(3.0)]);
            && FoldedBlock(block) == Block([], None)
            && ExecBlock(rt, FoldedBlock(block), st, fuel).st.t == st.t
            && ExecBlock(rt, block, st, fuel).st.t == st.t + [call]
  {
    var e := Call(Identifier("clamp", 0), [Integer(3)]);
    FoldAllAt([Integer(3)]);
    assert FoldAll([Integer(3)]) == [Integer(3)];
    assert FoldExpr(e) == e;
    assert FoldedStmts([ExprStmt(e)]) == [ExprStmt(e)];
    ExecOne(rt, ExprStmt(e), st, fuel);
    EvalOne(rt, Integer(3), st.env, st.t);
  }
}
