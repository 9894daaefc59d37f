/** Lowering keeps the meaning of effect-free expressions. A source expression is given a
    meaning directly: an argument with placeholders is a function of them, and a pipeline
    passes its left value first or wherever its call mentions a placeholder. */
module LoweringMeaning {
  import opened Ast
  import Integers
  import opened Lowering
  import opened LoweringResidue

  /** The values and operations of the language, left abstract; `fun` makes a value of a
      function with a given number of parameters. */
  datatype Semantics<!V> = Semantics(
    constant: Expr -> V,
    global: string -> V,
    hole: nat -> V,
    list: seq<V> -> V,
    unary: (UnaryOp, V) -> V,
    binary: (BinaryOp, V, V) -> V,
    ternary: (V, V, V) -> V,
    call: (V, seq<V>) -> V,
    member: (V, string) -> V,
    index: (V, V) -> V,
    throwing: V -> V,
    fun: (nat, seq<V> -> V) -> V)

  /** Functions are observed only by calling them with the right number of arguments. */
  ghost predicate Extensional<V(!new)>(rt: Semantics<V>) {
    forall n: nat, f: seq<V> -> V, g: seq<V> -> V {:trigger rt.fun(n, f), rt.fun(n, g)} ::
      (forall vs: seq<V> :: |vs| == n ==> f(vs) == g(vs)) ==> rt.fun(n, f) == rt.fun(n, g)
  }

  /** What a placeholder reads: nothing, the parameters of the argument it stands in, or the
      left value of the pipeline it stands in. */
  datatype Reading<V> = Unread | Params(vs: seq<V>) | Piped(v: V)

  type Env<V> = map<string, V>

  function Bind<V>(env: Env<V>, params: seq<string>, vs: seq<V>): Env<V>
    requires |params| == |vs|
    decreases params
  {
    if params == [] then env else Bind(env[params[0] := vs[0]], params[1..], vs[1..])
  }

  // ---------------------------------------------------------------- meaning

  ghost function Den<V>(e: Expr, env: Env<V>, reading: Reading<V>, rt: Semantics<V>): V
    decreases e, 0
  {
    match e
    case Identifier(name, _) => if name in env then env[name] else rt.global(name)
    case Placeholder(index) =>
      (match reading
       case Unread => rt.hole(index)
       case Params(vs) => if Normalize(index) <= |vs| then vs[Normalize(index) - 1] else rt.hole(index)
       case Piped(v) => v)
    case List(items) => rt.list(DenAll(items, env, reading, rt))
    case Unary(op, operand) => rt.unary(op, Den(operand, env, reading, rt))
    case Binary(op, left, right) => rt.binary(op, Den(left, env, reading, rt), Den(right, env, reading, rt))
    case Ternary(cond, a, b) =>
      rt.ternary(Den(cond, env, reading, rt), Den(a, env, reading, rt), Den(b, env, reading, rt))
    case Call(callee, args) =>
      if reading.Piped? then rt.call(Den(callee, env, reading, rt), DenAll(args, env, reading, rt))
      else rt.call(Den(callee, env, Unread, rt), DenArgs(args, env, rt))
    case Member(target, property) => rt.member(Den(target, env, reading, rt), property)
    case Index(base, position) => rt.index(Den(base, env, reading, rt), Den(position, env, reading, rt))
    case Throw(thrown) => rt.throwing(Den(thrown, env, reading, rt))
    case Lambda(params, body) =>
      rt.fun(|params|, vs => if |vs| == |params| then Den(body, Bind(env, params, vs), Unread, rt) else rt.hole(0))
    case Pipeline(source, stage) =>
      var left := Den(source, env, Unread, rt);
      if stage.Call? then
        rt.call(Den(stage.callee, env, Unread, rt),
                if AnyContainsHole(stage.args) then DenAll(stage.args, env, Piped(left), rt)
                else [left] + DenArgs(stage.args, env, rt))
      else rt.call(Den(stage, env, Unread, rt), [left])
    case _ => rt.constant(e)
  }

  ghost function DenAll<V>(es: seq<Expr>, env: Env<V>, reading: Reading<V>, rt: Semantics<V>): seq<V>
    decreases es, 0
  {
    if es == [] then [] else [Den(es[0], env, reading, rt)] + DenAll(es[1..], env, reading, rt)
  }

  /** An argument that mentions placeholders is the function of them. */
  ghost function DenArg<V>(arg: Expr, env: Env<V>, rt: Semantics<V>): V
    decreases arg, 1
  {
    if DirectHoles(arg) == {} then Den(arg, env, Unread, rt)
    else
      var n := Max(DirectHoles(arg));
      rt.fun(n, vs => if |vs| == n then Den(arg, env, Params(vs), rt) else rt.hole(0))
  }

  ghost function DenArgs<V>(args: seq<Expr>, env: Env<V>, rt: Semantics<V>): seq<V>
    decreases args, 0
  {
    if args == [] then [] else [DenArg(args[0], env, rt)] + DenArgs(args[1..], env, rt)
  }

  // ---------------------------------------------------------------- names

  /** The names an expression reads from outside. */
  function Free(e: Expr): set<string>
    decreases e
  {
    match e
    case Identifier(name, _) => {name}
    case List(items) => FreeOfAll(items)
    case Unary(_, operand) => Free(operand)
    case Binary(_, left, right) => Free(left) + Free(right)
    case Ternary(cond, a, b) => Free(cond) + Free(a) + Free(b)
    case Call(callee, args) => Free(callee) + FreeOfAll(args)
    case Member(target, _) => Free(target)
    case Index(base, position) => Free(base) + Free(position)
    case Pipeline(source, stage) => Free(source) + Free(stage)
    case Throw(thrown) => Free(thrown)
    case Lambda(params, body) => set name | name in Free(body) && name !in params
    case _ => {}
  }

  function FreeOfAll(es: seq<Expr>): set<string>
    decreases es
  {
    if es == [] then {} else Free(es[0]) + FreeOfAll(es[1..])
  }

  predicate Uncaptured(arg: Expr) {
    var holes := DirectHoles(arg);
    holes == {} || forall k :: 0 <= k < Max(holes) ==> ArgName(k) !in Free(arg)
  }

  /** No argument that is wrapped in a lambda reads a name that the lambda binds. Inside the
      filled arguments of a pipeline (`piped`) nothing is wrapped. */
  predicate Hygienic(e: Expr, piped: bool)
    decreases e
  {
    match e
    case List(items) => AllHygienic(items, piped)
    case Unary(_, operand) => Hygienic(operand, piped)
    case Binary(_, left, right) => Hygienic(left, piped) && Hygienic(right, piped)
    case Ternary(cond, a, b) => Hygienic(cond, piped) && Hygienic(a, piped) && Hygienic(b, piped)
    case Call(callee, args) =>
      Hygienic(callee, piped) && AllHygienic(args, piped) && (piped || AllUncaptured(args))
    case Member(target, _) => Hygienic(target, piped)
    case Index(base, position) => Hygienic(base, piped) && Hygienic(position, piped)
    case Pipeline(source, stage) =>
      && Hygienic(source, false)
      && (stage.Call? ==>
            && Hygienic(stage.callee, false)
            && AllHygienic(stage.args, AnyContainsHole(stage.args))
            && (AnyContainsHole(stage.args) || AllUncaptured(stage.args)))
    case Throw(thrown) => Hygienic(thrown, piped)
    case Lambda(_, body) => Hygienic(body, false)
    case _ => true
  }

  predicate AllHygienic(es: seq<Expr>, piped: bool)
    decreases es
  {
    es == [] || (Hygienic(es[0], piped) && AllHygienic(es[1..], piped))
  }

  predicate AllUncaptured(es: seq<Expr>) {
    es == [] || (Uncaptured(es[0]) && AllUncaptured(es[1..]))
  }

  lemma {:induction false} DigitsDiffer(a: nat, b: nat)
    requires Integers.Digits(a) == Integers.Digits(b)
    ensures a == b
  {
    if a >= 10 && b >= 10 {
      assert Integers.Digits(a)[..|Integers.Digits(a)| - 1] == Integers.Digits(a / 10);
      assert Integers.Digits(b)[..|Integers.Digits(b)| - 1] == Integers.Digits(b / 10);
      assert Integers.Digits(a)[|Integers.Digits(a)| - 1] == ('0' as int + a % 10) as char;
      assert Integers.Digits(b)[|Integers.Digits(b)| - 1] == ('0' as int + b % 10) as char;
      DigitsDiffer(a / 10, b / 10);
    } else {
      DigitsNonempty(a);
      DigitsNonempty(b);
    }
  }

  lemma DigitsNonempty(n: nat)
    ensures |Integers.Digits(n)| >= 1
    ensures n >= 10 ==> |Integers.Digits(n)| >= 2
  {
    if n >= 10 { DigitsNonempty(n / 10); }
  }

  lemma ArgNamesDiffer(a: nat, b: nat)
    requires ArgName(a) == ArgName(b)
    ensures a == b
  {
    assert ArgName(a)[4..] == Integers.Digits(a) && ArgName(b)[4..] == Integers.Digits(b);
    DigitsDiffer(a, b);
  }

  // ---------------------------------------------------------------- environments

  predicate AgreeAt<V(==)>(x: Env<V>, y: Env<V>, name: string) {
    (name in x <==> name in y) && (name in x ==> x[name] == y[name])
  }

  lemma {:induction false} BindAgrees<V>(x: Env<V>, y: Env<V>, params: seq<string>, vs: seq<V>, name: string)
    requires |params| == |vs| && (name in params || AgreeAt(x, y, name))
    ensures AgreeAt(Bind(x, params, vs), Bind(y, params, vs), name)
    decreases params
  {
    if params != [] {
      BindAgrees(x[params[0] := vs[0]], y[params[0] := vs[0]], params[1..], vs[1..], name);
    }
  }

  lemma {:induction false} BindKeepsOthers<V>(env: Env<V>, params: seq<string>, vs: seq<V>, name: string)
    requires |params| == |vs| && name !in params
    ensures AgreeAt(env, Bind(env, params, vs), name)
    decreases params
  {
    if params != [] {
      BindKeepsOthers(env[params[0] := vs[0]], params[1..], vs[1..], name);
    }
  }

  lemma {:induction false} BindReads<V>(env: Env<V>, params: seq<string>, vs: seq<V>, k: nat)
    requires |params| == |vs| && k < |params|
    requires forall i, j :: 0 <= i < j < |params| ==> params[i] != params[j]
    ensures params[k] in Bind(env, params, vs) && Bind(env, params, vs)[params[k]] == vs[k]
    decreases params
  {
    if k == 0 {
      BindKeepsOthers(env[params[0] := vs[0]], params[1..], vs[1..], params[0]);
    } else {
      BindReads(env[params[0] := vs[0]], params[1..], vs[1..], k - 1);
    }
  }

  lemma BindReadsArg<V>(env: Env<V>, n: nat, vs: seq<V>, k: nat)
    requires |vs| == n && k < n
    ensures var b := Bind(env, ArgNames(n), vs); ArgName(k) in b && b[ArgName(k)] == vs[k]
  {
    forall i, j | 0 <= i < j < n ensures ArgNames(n)[i] != ArgNames(n)[j] {
      if ArgNames(n)[i] == ArgNames(n)[j] { ArgNamesDiffer(i, j); }
    }
    BindReads(env, ArgNames(n), vs, k);
  }

  /** The meaning of a lowered expression depends only on the names it reads. */
  lemma {:induction false} DenAgrees<V(!new)>(e: Expr, x: Env<V>, y: Env<V>, reading: Reading<V>, rt: Semantics<V>)
    requires Extensional(rt) && Normal(e) && !reading.Piped?
    requires forall name :: name in Free(e) ==> AgreeAt(x, y, name)
    ensures Den(e, x, reading, rt) == Den(e, y, reading, rt)
    decreases e, 0
  {
    match e
    case Identifier(name, _) => assert AgreeAt(x, y, name);
    case List(items) => DenAllAgrees(items, x, y, reading, rt);
    case Unary(_, operand) => DenAgrees(operand, x, y, reading, rt);
    case Binary(_, left, right) =>
      DenAgrees(left, x, y, reading, rt);
      DenAgrees(right, x, y, reading, rt);
    case Ternary(cond, a, b) =>
      DenAgrees(cond, x, y, reading, rt);
      DenAgrees(a, x, y, reading, rt);
      DenAgrees(b, x, y, reading, rt);
    case Call(callee, args) =>
      DenAgrees(callee, x, y, Unread, rt);
      DenArgsAgrees(args, x, y, rt);
    case Member(target, _) => DenAgrees(target, x, y, reading, rt);
    case Index(base, position) =>
      DenAgrees(base, x, y, reading, rt);
      DenAgrees(position, x, y, reading, rt);
    case Throw(thrown) => DenAgrees(thrown, x, y, reading, rt);
    case Lambda(params, body) => DenLambdaAgrees(params, body, x, y, rt);
    case _ =>
  }

  lemma {:induction false} DenLambdaAgrees<V(!new)>(params: seq<string>, body: Expr, x: Env<V>, y: Env<V>,
                                                    rt: Semantics<V>)
    requires Extensional(rt) && Normal(body)
    requires forall name :: name in Free(body) && name !in params ==> AgreeAt(x, y, name)
    ensures rt.fun(|params|, vs => if |vs| == |params| then Den(body, Bind(x, params, vs), Unread, rt) else rt.hole(0))
         == rt.fun(|params|, vs => if |vs| == |params| then Den(body, Bind(y, params, vs), Unread, rt) else rt.hole(0))
    decreases body, 1
  {
    hide Den, Normal, Free;
    forall vs: seq<V> | |vs| == |params|
      ensures Den(body, Bind(x, params, vs), Unread, rt) == Den(body, Bind(y, params, vs), Unread, rt)
    {
      forall name | name in Free(body) ensures AgreeAt(Bind(x, params, vs), Bind(y, params, vs), name) {
        BindAgrees(x, y, params, vs, name);
      }
      DenAgrees(body, Bind(x, params, vs), Bind(y, params, vs), Unread, rt);
    }
  }

  lemma {:induction false} DenAllAgrees<V(!new)>(es: seq<Expr>, x: Env<V>, y: Env<V>, reading: Reading<V>,
                                                 rt: Semantics<V>)
    requires Extensional(rt) && AllNormal(es) && !reading.Piped?
    requires forall name :: name in FreeOfAll(es) ==> AgreeAt(x, y, name)
    ensures DenAll(es, x, reading, rt) == DenAll(es, y, reading, rt)
    decreases es, 0
  {
    if es != [] {
      DenAgrees(es[0], x, y, reading, rt);
      DenAllAgrees(es[1..], x, y, reading, rt);
    }
  }

  lemma {:induction false} DenArgsAgrees<V(!new)>(es: seq<Expr>, x: Env<V>, y: Env<V>, rt: Semantics<V>)
    requires Extensional(rt) && AllNormal(es) && HolesOfAll(es) == {}
    requires forall name :: name in FreeOfAll(es) ==> AgreeAt(x, y, name)
    ensures DenArgs(es, x, rt) == DenArgs(es, y, rt)
    decreases es, 0
  {
    if es != [] {
      NormalHoles(es[0]);
      DenAgrees(es[0], x, y, Unread, rt);
      DenArgsAgrees(es[1..], x, y, rt);
    }
  }

  // ---------------------------------------------------------------- placeholders as parameters

  lemma {:induction false} ReplaceKeepsClosed(e: Expr)
    requires Normal(e) && AllHoles(e) == {}
    ensures ReplaceHoles(e) == e
    decreases e
  {
    match e
    case List(items) => ReplaceAllKeepsClosed(items);
    case Unary(_, operand) => ReplaceKeepsClosed(operand);
    case Binary(_, left, right) => ReplaceKeepsClosed(left); ReplaceKeepsClosed(right);
    case Ternary(cond, a, b) => ReplaceKeepsClosed(cond); ReplaceKeepsClosed(a); ReplaceKeepsClosed(b);
    case Call(callee, args) => ReplaceKeepsClosed(callee); ReplaceAllKeepsClosed(args);
    case Member(target, _) => ReplaceKeepsClosed(target);
    case Index(base, position) => ReplaceKeepsClosed(base); ReplaceKeepsClosed(position);
    case Throw(thrown) => ReplaceKeepsClosed(thrown);
    case _ =>
  }

  lemma {:induction false} ReplaceAllKeepsClosed(es: seq<Expr>)
    requires AllNormal(es) && HolesOfAll(es) == {}
    ensures ReplaceAllHoles(es) == es
    decreases es
  {
    if es != [] {
      ReplaceKeepsClosed(es[0]);
      ReplaceAllKeepsClosed(es[1..]);
    }
  }

  ghost predicate Scoped<V(!new)>(names: set<string>, holes: set<nat>, env: Env<V>, wrapped: Env<V>, vs: seq<V>) {
    && (forall k :: k in holes ==> 1 <= k <= |vs|)
    && (forall k :: 0 <= k < |vs| ==> ArgName(k) in wrapped && wrapped[ArgName(k)] == vs[k])
    && (forall name :: name in names ==> AgreeAt(wrapped, env, name))
  }

  /** The body of a wrapped argument, with `_arg0`, `_arg1`, ... bound to the arguments, means
      what the argument meant with `$1`, `$2`, ... read as them. */
  lemma {:induction false} WrappedBodyMeaning<V(!new)>(e: Expr, env: Env<V>, wrapped: Env<V>, vs: seq<V>,
                                                       rt: Semantics<V>)
    requires Extensional(rt) && Normal(e) && Scoped(Free(e), DirectHoles(e), env, wrapped, vs)
    ensures Den(ReplaceHoles(e), wrapped, Unread, rt) == Den(e, env, Params(vs), rt)
    decreases e
  {
    match e
    case Placeholder(index) => assert Normalize(index) in DirectHoles(e);
    case Identifier(name, _) => assert AgreeAt(wrapped, env, name);
    case List(items) => WrappedBodyMeaningAll(items, env, wrapped, vs, rt);
    case Unary(_, operand) => WrappedBodyMeaning(operand, env, wrapped, vs, rt);
    case Binary(_, left, right) =>
      WrappedBodyMeaning(left, env, wrapped, vs, rt);
      WrappedBodyMeaning(right, env, wrapped, vs, rt);
    case Ternary(cond, a, b) =>
      WrappedBodyMeaning(cond, env, wrapped, vs, rt);
      WrappedBodyMeaning(a, env, wrapped, vs, rt);
      WrappedBodyMeaning(b, env, wrapped, vs, rt);
    case Call(callee, args) =>
      ReplaceKeepsClosed(callee);
      ReplaceAllKeepsClosed(args);
      DenAgrees(callee, wrapped, env, Unread, rt);
      DenArgsAgrees(args, wrapped, env, rt);
    case Member(target, _) => WrappedBodyMeaning(target, env, wrapped, vs, rt);
    case Index(base, position) =>
      WrappedBodyMeaning(base, env, wrapped, vs, rt);
      WrappedBodyMeaning(position, env, wrapped, vs, rt);
    case Throw(thrown) => WrappedBodyMeaning(thrown, env, wrapped, vs, rt);
    case Lambda(params, body) => DenLambdaAgrees(params, body, wrapped, env, rt);
    case _ =>
  }

  lemma {:induction false} WrappedBodyMeaningAll<V(!new)>(es: seq<Expr>, env: Env<V>, wrapped: Env<V>,
                                                          vs: seq<V>, rt: Semantics<V>)
    requires Extensional(rt) && AllNormal(es) && Scoped(FreeOfAll(es), DirectHolesOfAll(es), env, wrapped, vs)
    ensures DenAll(ReplaceAllHoles(es), wrapped, Unread, rt) == DenAll(es, env, Params(vs), rt)
    decreases es
  {
    if es != [] {
      WrappedBodyMeaning(es[0], env, wrapped, vs, rt);
      WrappedBodyMeaningAll(es[1..], env, wrapped, vs, rt);
      assert ReplaceAllHoles(es)[1..] == ReplaceAllHoles(es[1..]);
    }
  }

  // ---------------------------------------------------------------- pipelines

  /** Filling the placeholders of an argument means reading them as the left value. */
  lemma {:induction false} FilledMeaning<V>(e: Expr, left: Expr, env: Env<V>, reading: Reading<V>, rt: Semantics<V>)
    requires Normal(left) && AllHoles(left) == {} && !reading.Piped?
    ensures Den(Fill(e, left), env, reading, rt) == Den(e, env, Piped(Den(left, env, Unread, rt)), rt)
    decreases e, 1
  {
    hide Den, Fill, Normal, AllHoles;
    match e
    case Placeholder(_) => FilledHoleMeaning(e, left, env, reading, rt);
    case List(_) => FilledListMeaning(e, left, env, reading, rt);
    case Call(_, _) => FilledListMeaning(e, left, env, reading, rt);
    case Unary(_, operand) => FilledOneMeaning(e, operand, left, env, reading, rt);
    case Member(target, _) => FilledOneMeaning(e, target, left, env, reading, rt);
    case Throw(thrown) => FilledOneMeaning(e, thrown, left, env, reading, rt);
    case Binary(_, l, r) => FilledTwoMeaning(e, l, r, left, env, reading, rt);
    case Index(base, position) => FilledTwoMeaning(e, base, position, left, env, reading, rt);
    case Ternary(_, _, _) => FilledTernaryMeaning(e, left, env, reading, rt);
    case _ =>
      FillKeepsRest(e, left);
      FilledRestMeaning(e, left, env, reading, rt);
  }

  lemma FillKeepsRest(e: Expr, left: Expr)
    requires !e.Placeholder? && !e.List? && !e.Call? && !e.Unary? && !e.Binary? && !e.Ternary?
    requires !e.Member? && !e.Index? && !e.Throw?
    ensures Fill(e, left) == e
  {
  }

  lemma FilledHoleMeaning<V>(e: Expr, left: Expr, env: Env<V>, reading: Reading<V>, rt: Semantics<V>)
    requires e.Placeholder? && Normal(left) && AllHoles(left) == {} && !reading.Piped?
    ensures Den(Fill(e, left), env, reading, rt) == Den(e, env, Piped(Den(left, env, Unread, rt)), rt)
  {
    hide Normal, AllHoles;
    NormalHoles(left);
    ReadingIrrelevant(left, env, reading, Unread, rt);
  }

  /** Lambdas and inner pipelines keep their placeholders to themselves. */
  lemma FilledRestMeaning<V>(e: Expr, left: Expr, env: Env<V>, reading: Reading<V>, rt: Semantics<V>)
    requires Fill(e, left) == e && !e.Placeholder? && !e.List? && !e.Call? && !e.Unary? && !e.Binary? && !e.Ternary?
    requires !e.Member? && !e.Index? && !e.Throw? && !reading.Piped?
    ensures Den(Fill(e, left), env, reading, rt) == Den(e, env, Piped(Den(left, env, Unread, rt)), rt)
  {
  }

  lemma {:induction false} FilledOneMeaning<V>(e: Expr, x: Expr, left: Expr, env: Env<V>, reading: Reading<V>,
                                               rt: Semantics<V>)
    requires ((e.Unary? && x == e.operand) || (e.Member? && x == e.target) || (e.Throw? && x == e.thrown))
    requires Normal(left) && AllHoles(left) == {} && !reading.Piped?
    ensures Den(Fill(e, left), env, reading, rt) == Den(e, env, Piped(Den(left, env, Unread, rt)), rt)
    decreases e, 0
  {
    hide Normal, AllHoles;
    FilledMeaning(x, left, env, reading, rt);
  }

  lemma {:induction false} FilledTwoMeaning<V>(e: Expr, x: Expr, y: Expr, left: Expr, env: Env<V>,
                                               reading: Reading<V>, rt: Semantics<V>)
    requires ((e.Binary? && x == e.left && y == e.right) || (e.Index? && x == e.base && y == e.position))
    requires Normal(left) && AllHoles(left) == {} && !reading.Piped?
    ensures Den(Fill(e, left), env, reading, rt) == Den(e, env, Piped(Den(left, env, Unread, rt)), rt)
    decreases e, 0
  {
    hide Normal, AllHoles;
    FilledMeaning(x, left, env, reading, rt);
    FilledMeaning(y, left, env, reading, rt);
  }

  lemma {:induction false} FilledTernaryMeaning<V>(e: Expr, left: Expr, env: Env<V>, reading: Reading<V>,
                                                   rt: Semantics<V>)
    requires e.Ternary? && Normal(left) && AllHoles(left) == {} && !reading.Piped?
    ensures Den(Fill(e, left), env, reading, rt) == Den(e, env, Piped(Den(left, env, Unread, rt)), rt)
    decreases e, 0
  {
    hide Normal, AllHoles;
    FilledMeaning(e.cond, left, env, reading, rt);
    FilledMeaning(e.thenBranch, left, env, reading, rt);
    FilledMeaning(e.elseBranch, left, env, reading, rt);
  }

  lemma {:induction false} FilledListMeaning<V>(e: Expr, left: Expr, env: Env<V>, reading: Reading<V>, rt: Semantics<V>)
    requires (e.List? || e.Call?) && Normal(left) && AllHoles(left) == {} && !reading.Piped?
    ensures Den(Fill(e, left), env, reading, rt) == Den(e, env, Piped(Den(left, env, Unread, rt)), rt)
    decreases e, 0
  {
    hide Normal, AllHoles, DenAll, DenArgs, FillAll;
    if e.List? {
      FilledMeaningAll(e.items, left, env, reading, rt);
    } else {
      FilledMeaning(e.callee, left, env, Unread, rt);
      FilledMeaningAll(e.args, left, env, Unread, rt);
    }
  }

  lemma {:induction false} FilledMeaningAll<V>(es: seq<Expr>, left: Expr, env: Env<V>, reading: Reading<V>,
                                               rt: Semantics<V>)
    requires Normal(left) && AllHoles(left) == {} && !reading.Piped?
    ensures DenAll(FillAll(es, left), env, reading, rt) == DenAll(es, env, Piped(Den(left, env, Unread, rt)), rt)
    ensures DenArgs(FillAll(es, left), env, rt) == DenAll(es, env, Piped(Den(left, env, Unread, rt)), rt)
    decreases es
  {
    hide Den;
    if es != [] {
      NormalHoles(left);
      FillCloses(es[0], left);
      FilledMeaning(es[0], left, env, reading, rt);
      FilledMeaning(es[0], left, env, Unread, rt);
      FilledMeaningAll(es[1..], left, env, reading, rt);
      assert FillAll(es, left)[1..] == FillAll(es[1..], left);
    }
  }

  lemma {:induction false} ReadingIrrelevant<V>(e: Expr, env: Env<V>, a: Reading<V>, b: Reading<V>, rt: Semantics<V>)
    requires DirectHoles(e) == {} && !a.Piped? && !b.Piped?
    ensures Den(e, env, a, rt) == Den(e, env, b, rt)
    decreases e
  {
    match e
    case List(items) => ReadingIrrelevantAll(items, env, a, b, rt);
    case Unary(_, operand) => ReadingIrrelevant(operand, env, a, b, rt);
    case Binary(_, l, r) => ReadingIrrelevant(l, env, a, b, rt); ReadingIrrelevant(r, env, a, b, rt);
    case Ternary(cond, x, y) =>
      ReadingIrrelevant(cond, env, a, b, rt);
      ReadingIrrelevant(x, env, a, b, rt);
      ReadingIrrelevant(y, env, a, b, rt);
    case Member(target, _) => ReadingIrrelevant(target, env, a, b, rt);
    case Index(base, position) =>
      ReadingIrrelevant(base, env, a, b, rt);
      ReadingIrrelevant(position, env, a, b, rt);
    case Throw(thrown) => ReadingIrrelevant(thrown, env, a, b, rt);
    case _ =>
  }

  lemma {:induction false} ReadingIrrelevantAll<V>(es: seq<Expr>, env: Env<V>, a: Reading<V>, b: Reading<V>,
                                                   rt: Semantics<V>)
    requires DirectHolesOfAll(es) == {} && !a.Piped? && !b.Piped?
    ensures DenAll(es, env, a, rt) == DenAll(es, env, b, rt)
    decreases es
  {
    if es != [] {
      ReadingIrrelevant(es[0], env, a, b, rt);
      ReadingIrrelevantAll(es[1..], env, a, b, rt);
    }
  }

  // ---------------------------------------------------------------- lowering keeps hygiene and names

  lemma {:induction false} NormalIsHygienic(e: Expr)
    requires Normal(e)
    ensures Hygienic(e, false)
    decreases e
  {
    match e
    case List(items) => AllNormalAreHygienic(items);
    case Unary(_, operand) => NormalIsHygienic(operand);
    case Binary(_, left, right) => NormalIsHygienic(left); NormalIsHygienic(right);
    case Ternary(cond, a, b) => NormalIsHygienic(cond); NormalIsHygienic(a); NormalIsHygienic(b);
    case Call(callee, args) =>
      NormalIsHygienic(callee);
      AllNormalAreHygienic(args);
      ClosedAreUncaptured(args);
    case Member(target, _) => NormalIsHygienic(target);
    case Index(base, position) => NormalIsHygienic(base); NormalIsHygienic(position);
    case Throw(thrown) => NormalIsHygienic(thrown);
    case Lambda(_, body) => NormalIsHygienic(body);
    case _ =>
  }

  lemma {:induction false} AllNormalAreHygienic(es: seq<Expr>)
    requires AllNormal(es)
    ensures AllHygienic(es, false)
    decreases es
  {
    if es != [] {
      NormalIsHygienic(es[0]);
      AllNormalAreHygienic(es[1..]);
    }
  }

  lemma {:induction false} ClosedAreUncaptured(es: seq<Expr>)
    requires AllNormal(es) && HolesOfAll(es) == {}
    ensures AllUncaptured(es)
    decreases es
  {
    if es != [] {
      NormalHoles(es[0]);
      ClosedAreUncaptured(es[1..]);
    }
  }

  lemma {:induction false} FillKeepsHygiene(e: Expr, left: Expr)
    requires Hygienic(e, true) && Normal(left) && AllHoles(left) == {}
    ensures Hygienic(Fill(e, left), false)
    decreases e
  {
    match e
    case Placeholder(_) => NormalIsHygienic(left);
    case List(items) => FillAllKeepsHygiene(items, left);
    case Unary(_, operand) => FillKeepsHygiene(operand, left);
    case Binary(_, l, r) => FillKeepsHygiene(l, left); FillKeepsHygiene(r, left);
    case Ternary(cond, a, b) =>
      FillKeepsHygiene(cond, left);
      FillKeepsHygiene(a, left);
      FillKeepsHygiene(b, left);
    case Call(callee, args) => FillKeepsHygiene(callee, left); FillAllKeepsHygiene(args, left);
    case Member(target, _) => FillKeepsHygiene(target, left);
    case Index(base, position) => FillKeepsHygiene(base, left); FillKeepsHygiene(position, left);
    case Throw(thrown) => FillKeepsHygiene(thrown, left);
    case _ =>
  }

  lemma {:induction false} FillAllKeepsHygiene(es: seq<Expr>, left: Expr)
    requires AllHygienic(es, true) && Normal(left) && AllHoles(left) == {}
    ensures AllHygienic(FillAll(es, left), false) && AllUncaptured(FillAll(es, left))
    decreases es
  {
    if es != [] {
      NormalHoles(left);
      FillCloses(es[0], left);
      FillKeepsHygiene(es[0], left);
      FillAllKeepsHygiene(es[1..], left);
      assert FillAll(es, left)[1..] == FillAll(es[1..], left);
    }
  }

  lemma DesugarKeepsHygiene(source: Expr, left: Expr, stage: Expr)
    requires Hygienic(Pipeline(source, stage), false) && Normal(left) && AllHoles(left) == {}
    requires Desugar(left, stage).Success?
    ensures Hygienic(Desugar(left, stage).value, false)
  {
    NormalIsHygienic(left);
    NormalHoles(left);
    if stage.Call? {
      if AnyContainsHole(stage.args) {
        FillAllKeepsHygiene(stage.args, left);
      } else {
        assert ([left] + stage.args)[1..] == stage.args;
      }
    } else {
      assert [left][1..] == [];
    }
  }

  ghost predicate Within(holes: set<nat>, n: nat) { forall k :: k in holes ==> 1 <= k <= n }

  lemma {:induction false} ReplaceNames(e: Expr, n: nat)
    requires Normal(e) && Within(DirectHoles(e), n)
    ensures forall name :: name in Free(ReplaceHoles(e)) ==> name in Free(e) || name in ArgNames(n)
    decreases e
  {
    match e
    case Placeholder(index) =>
      assert Normalize(index) in DirectHoles(e);
      assert ArgNames(n)[Normalize(index) - 1] == ArgName(Normalize(index) - 1);
    case List(items) => ReplaceAllNames(items, n);
    case Unary(_, operand) => ReplaceNames(operand, n);
    case Binary(_, left, right) => ReplaceNames(left, n); ReplaceNames(right, n);
    case Ternary(cond, a, b) => ReplaceNames(cond, n); ReplaceNames(a, n); ReplaceNames(b, n);
    case Call(callee, args) => ReplaceKeepsClosed(e);
    case Member(target, _) => ReplaceNames(target, n);
    case Index(base, position) => ReplaceNames(base, n); ReplaceNames(position, n);
    case Throw(thrown) => ReplaceNames(thrown, n);
    case _ =>
  }

  lemma {:induction false} ReplaceAllNames(es: seq<Expr>, n: nat)
    requires AllNormal(es) && Within(DirectHolesOfAll(es), n)
    ensures forall name :: name in FreeOfAll(ReplaceAllHoles(es)) ==> name in FreeOfAll(es) || name in ArgNames(n)
    decreases es
  {
    if es != [] {
      ReplaceNames(es[0], n);
      ReplaceAllNames(es[1..], n);
      assert ReplaceAllHoles(es)[1..] == ReplaceAllHoles(es[1..]);
    }
  }

  lemma {:induction false} FillNames(e: Expr, left: Expr)
    ensures Free(Fill(e, left)) <= Free(e) + Free(left)
    decreases e
  {
    match e
    case List(items) => FillAllNames(items, left);
    case Unary(_, operand) => FillNames(operand, left);
    case Binary(_, l, r) => FillNames(l, left); FillNames(r, left);
    case Ternary(cond, a, b) => FillNames(cond, left); FillNames(a, left); FillNames(b, left);
    case Call(callee, args) => FillNames(callee, left); FillAllNames(args, left);
    case Member(target, _) => FillNames(target, left);
    case Index(base, position) => FillNames(base, left); FillNames(position, left);
    case Throw(thrown) => FillNames(thrown, left);
    case _ =>
  }

  lemma {:induction false} FillAllNames(es: seq<Expr>, left: Expr)
    ensures FreeOfAll(FillAll(es, left)) <= FreeOfAll(es) + Free(left)
    decreases es
  {
    if es != [] {
      FillNames(es[0], left);
      FillAllNames(es[1..], left);
      assert FillAll(es, left)[1..] == FillAll(es[1..], left);
    }
  }

  lemma DesugarNames(left: Expr, stage: Expr)
    requires Desugar(left, stage).Success?
    ensures Free(Desugar(left, stage).value) <= Free(stage) + Free(left)
  {
    if stage.Call? {
      FillAllNames(stage.args, left);
      assert ([left] + stage.args)[1..] == stage.args;
    } else {
      assert FreeOfAll([left]) == Free(left) + FreeOfAll([left][1..]);
    }
  }

  /** Lowering makes nothing free. */
  lemma {:induction false} LowerNames(e: Expr)
    requires Lower(e).Success?
    ensures Free(Lower(e).value.expr) <= Free(e)
    decreases Pipes(e), e, 0
  {
    hide ReplaceHoles;
    match e
    case List(items) => LowerAllNames(items);
    case Unary(_, operand) => LowerNames(operand);
    case Binary(_, left, right) => LowerNames(left); LowerNames(right);
    case Ternary(cond, a, b) => LowerNames(cond); LowerNames(a); LowerNames(b);
    case Call(callee, args) => LowerNames(callee); LowerArgsNames(args);
    case Member(target, _) => LowerNames(target);
    case Index(base, position) => LowerNames(base); LowerNames(position);
    case Throw(thrown) => LowerNames(thrown);
    case Lambda(_, body) => LowerNames(body);
    case Pipeline(source, stage) =>
      var left := Lower(source).value.expr;
      LowerNames(source);
      DesugarPipes(left, stage);
      DesugarNames(left, stage);
      LowerNames(Desugar(left, stage).value);
    case _ =>
  }

  lemma {:induction false} LowerAllNames(es: seq<Expr>)
    requires LowerAll(es).Success?
    ensures FreeOfAll(LowerAll(es).value.exprs) <= FreeOfAll(es)
    decreases PipesAll(es), es, 0
  {
    if es != [] {
      LowerNames(es[0]);
      LowerAllNames(es[1..]);
      assert LowerAll(es).value.exprs[1..] == LowerAll(es[1..]).value.exprs;
    }
  }

  lemma FreeOfLambda(params: seq<string>, body: Expr)
    ensures forall name :: name in Free(Lambda(params, body)) <==> name in Free(body) && name !in params
  {
  }

  lemma {:induction false} LowerArgNames(arg: Expr)
    requires LowerArg(arg).Success?
    ensures Free(LowerArg(arg).value) <= Free(arg)
    decreases Pipes(arg), arg, 1
  {
    hide ReplaceHoles, Free, Lower, Normal, DirectHoles, FirstGap;
    var x := Lower(arg).value;
    LowerNames(arg);
    LowerIsNormal(arg);
    LowerSucceedsExactly(arg);
    NormalHoles(x.expr);
    if x.holes != {} {
      ReplaceNames(x.expr, Max(x.holes));
      FreeOfLambda(ArgNames(Max(x.holes)), ReplaceHoles(x.expr));
    }
  }

  lemma {:induction false} LowerArgsNames(args: seq<Expr>)
    requires LowerArgs(args).Success?
    ensures FreeOfAll(LowerArgs(args).value) <= FreeOfAll(args)
    decreases PipesAll(args), args, 0
  {
    if args != [] {
      LowerArgNames(args[0]);
      LowerArgsNames(args[1..]);
      assert LowerArgs(args).value[1..] == LowerArgs(args[1..]).value;
    }
  }

  // ---------------------------------------------------------------- the main theorem

  /** The lambda built for an argument with placeholders is the function of them that the
      argument stands for. */
  lemma WrapMeaning<V(!new)>(arg: Expr, env: Env<V>, rt: Semantics<V>)
    requires Extensional(rt) && Uncaptured(arg) && DirectHoles(arg) != {}
    requires LowerArg(arg).Success?
    requires forall vs: seq<V> :: Den(Lower(arg).value.expr, env, Params(vs), rt) == Den(arg, env, Params(vs), rt)
    ensures Den(LowerArg(arg).value, env, Unread, rt) == DenArg(arg, env, rt)
  {
    hide ReplaceHoles, Normal, Den, Lower, DirectHoles, Free;
    LowerSucceedsExactly(arg);
    LowerIsNormal(arg);
    LowerNames(arg);
    var x := Lower(arg).value.expr;
    NormalHoles(x);
    var n := Max(DirectHoles(arg));
    assert LowerArg(arg).value == Lambda(ArgNames(n), ReplaceHoles(x));
    forall vs: seq<V> | |vs| == n
      ensures Den(ReplaceHoles(x), Bind(env, ArgNames(n), vs), Unread, rt) == Den(arg, env, Params(vs), rt)
    {
      WrapScope(arg, x, env, n, vs);
      WrappedBodyMeaning(x, env, Bind(env, ArgNames(n), vs), vs, rt);
    }
    DenOfLambda(ArgNames(n), ReplaceHoles(x), env, rt);
    LambdasAgree(arg, ArgNames(n), ReplaceHoles(x), n, env, rt);
  }

  lemma DenOfLambda<V>(params: seq<string>, body: Expr, env: Env<V>, rt: Semantics<V>)
    ensures Den(Lambda(params, body), env, Unread, rt)
         == rt.fun(|params|,
                   vs => if |vs| == |params| then Den(body, Bind(env, params, vs), Unread, rt) else rt.hole(0))
  {
  }

  lemma LambdasAgree<V(!new)>(arg: Expr, params: seq<string>, body: Expr, n: nat, env: Env<V>, rt: Semantics<V>)
    requires Extensional(rt) && |params| == n
    requires forall vs: seq<V> :: |vs| == n ==>
               Den(body, Bind(env, params, vs), Unread, rt) == Den(arg, env, Params(vs), rt)
    ensures rt.fun(|params|,
                   vs => if |vs| == |params| then Den(body, Bind(env, params, vs), Unread, rt) else rt.hole(0))
         == rt.fun(n, vs => if |vs| == n then Den(arg, env, Params(vs), rt) else rt.hole(0))
  {
    hide Den, Bind, Normalize, Max, DirectHoles;
  }

  lemma WrapScope<V(!new)>(arg: Expr, x: Expr, env: Env<V>, n: nat, vs: seq<V>)
    requires DirectHoles(arg) != {} && n == Max(DirectHoles(arg)) && Uncaptured(arg)
    requires 0 !in DirectHoles(arg) && DirectHoles(x) == DirectHoles(arg) && Free(x) <= Free(arg) && |vs| == n
    ensures Scoped(Free(x), DirectHoles(x), env, Bind(env, ArgNames(n), vs), vs)
  {
    hide DirectHoles, Free;
    var wrapped := Bind(env, ArgNames(n), vs);
    forall k | 0 <= k < n ensures ArgName(k) in wrapped && wrapped[ArgName(k)] == vs[k] {
      BindReadsArg(env, n, vs, k);
    }
    forall name | name in Free(x) ensures AgreeAt(wrapped, env, name) {
      BindKeepsOthers(env, ArgNames(n), vs, name);
    }
  }

  /** Lowering keeps the meaning of every expression that lowers, wherever it stands. */
  lemma {:induction false} LowerKeepsMeaning<V(!new)>(e: Expr, env: Env<V>, reading: Reading<V>, rt: Semantics<V>)
    requires Extensional(rt) && Hygienic(e, false) && Lower(e).Success? && !reading.Piped?
    ensures Den(Lower(e).value.expr, env, reading, rt) == Den(e, env, reading, rt)
    decreases Pipes(e), e, 0
  {
    hide ReplaceHoles, Fill, Wrap, Desugar, Normal, DirectHoles, Uncaptured, DenAll, DenArgs, DenArg, LowerAll,
         LowerArgs;
    match e
    case List(items) => LowerAllKeepsMeaning(items, env, reading, rt);
    case Unary(_, operand) => LowerKeepsMeaning(operand, env, reading, rt);
    case Binary(_, left, right) =>
      LowerKeepsMeaning(left, env, reading, rt);
      LowerKeepsMeaning(right, env, reading, rt);
    case Ternary(cond, a, b) =>
      LowerKeepsMeaning(cond, env, reading, rt);
      LowerKeepsMeaning(a, env, reading, rt);
      LowerKeepsMeaning(b, env, reading, rt);
    case Call(callee, args) =>
      LowerKeepsMeaning(callee, env, Unread, rt);
      LowerArgsKeepsMeaning(args, env, rt);
    case Member(target, _) => LowerKeepsMeaning(target, env, reading, rt);
    case Index(base, position) =>
      LowerKeepsMeaning(base, env, reading, rt);
      LowerKeepsMeaning(position, env, reading, rt);
    case Throw(thrown) => LowerKeepsMeaning(thrown, env, reading, rt);
    case Lambda(params, body) => LowerLambdaKeepsMeaning(e, env, reading, rt);
    case Pipeline(source, stage) => LowerPipelineKeepsMeaning(e, env, reading, rt);
    case _ =>
  }

  lemma {:induction false} LowerLambdaKeepsMeaning<V(!new)>(e: Expr, env: Env<V>, reading: Reading<V>, rt: Semantics<V>)
    requires e.Lambda? && Extensional(rt) && Hygienic(e, false) && Lower(e).Success? && !reading.Piped?
    ensures Den(Lower(e).value.expr, env, reading, rt) == Den(e, env, reading, rt)
    decreases Pipes(e), e, 0, 0
  {
    forall vs: seq<V> | |vs| == |e.params|
      ensures Den(Lower(e.body).value.expr, Bind(env, e.params, vs), Unread, rt) ==
                Den(e.body, Bind(env, e.params, vs), Unread, rt)
    {
      LowerKeepsMeaning(e.body, Bind(env, e.params, vs), Unread, rt);
    }
  }

  lemma {:induction false} LowerPipelineKeepsMeaning<V(!new)>(e: Expr, env: Env<V>, reading: Reading<V>,
                                                              rt: Semantics<V>)
    requires e.Pipeline? && Extensional(rt) && Hygienic(e, false) && Lower(e).Success? && !reading.Piped?
    ensures Den(Lower(e).value.expr, env, reading, rt) == Den(e, env, reading, rt)
    decreases Pipes(e), e, 0, 0
  {
    hide Den, Hygienic, Normal, Desugar;
    var source, stage := e.source, e.stage;
    var left := Lower(source).value.expr;
    assert Hygienic(source, false) by { PipelineHygiene(source, stage); }
    LowerIsNormal(source);
    LowerKeepsMeaning(source, env, Unread, rt);
    DesugarPipes(left, stage);
    DesugarKeepsHygiene(source, left, stage);
    LowerKeepsMeaning(Desugar(left, stage).value, env, reading, rt);
    DesugarMeaning(source, left, stage, env, reading, rt);
  }

  lemma PipelineHygiene(source: Expr, stage: Expr)
    requires Hygienic(Pipeline(source, stage), false)
    ensures Hygienic(source, false)
  {
  }

  /** A pipeline means the call it becomes. */
  lemma DesugarMeaning<V>(source: Expr, left: Expr, stage: Expr, env: Env<V>, reading: Reading<V>, rt: Semantics<V>)
    requires Normal(left) && AllHoles(left) == {} && Desugar(left, stage).Success? && !reading.Piped?
    requires Den(left, env, Unread, rt) == Den(source, env, Unread, rt)
    ensures Den(Desugar(left, stage).value, env, reading, rt) == Den(Pipeline(source, stage), env, reading, rt)
  {
    hide Den, DenAll, DenArgs, DenArg, Normal, AllHoles, FillAll;
    NormalHoles(left);
    var value := Den(left, env, Unread, rt);
    DenOfPipeline(source, stage, env, reading, rt);
    DenArgsNext(left, if stage.Call? then stage.args else [], env, rt);
    if stage.Call? {
      FilledMeaningAll(stage.args, left, env, Unread, rt);
      DenOfCall(stage.callee, Desugar(left, stage).value.args, env, reading, rt);
    } else {
      assert [left] + [] == [left];
      assert [value] + DenArgs([], env, rt) == [value] by { DenArgsOfNone(env, rt); }
      DenOfCall(stage, [left], env, reading, rt);
    }
  }

  lemma DenOfCall<V>(callee: Expr, args: seq<Expr>, env: Env<V>, reading: Reading<V>, rt: Semantics<V>)
    requires !reading.Piped?
    ensures Den(Call(callee, args), env, reading, rt) == rt.call(Den(callee, env, Unread, rt), DenArgs(args, env, rt))
  {
  }

  lemma DenOfPipeline<V>(source: Expr, stage: Expr, env: Env<V>, reading: Reading<V>, rt: Semantics<V>)
    ensures var left := Den(source, env, Unread, rt);
            Den(Pipeline(source, stage), env, reading, rt) ==
            if stage.Call? then
              rt.call(Den(stage.callee, env, Unread, rt),
                      if AnyContainsHole(stage.args) then DenAll(stage.args, env, Piped(left), rt)
                      else [left] + DenArgs(stage.args, env, rt))
            else rt.call(Den(stage, env, Unread, rt), [left])
  {
  }

  lemma DenArgsNext<V>(left: Expr, rest: seq<Expr>, env: Env<V>, rt: Semantics<V>)
    requires DirectHoles(left) == {}
    ensures DenArgs([left] + rest, env, rt) == [Den(left, env, Unread, rt)] + DenArgs(rest, env, rt)
  {
    hide Den;
    assert ([left] + rest)[1..] == rest;
  }

  lemma DenArgsOfNone<V>(env: Env<V>, rt: Semantics<V>)
    ensures DenArgs([], env, rt) == []
  {
  }

  lemma {:induction false} LowerAllKeepsMeaning<V(!new)>(es: seq<Expr>, env: Env<V>, reading: Reading<V>,
                                                         rt: Semantics<V>)
    requires Extensional(rt) && AllHygienic(es, false) && LowerAll(es).Success? && !reading.Piped?
    ensures DenAll(LowerAll(es).value.exprs, env, reading, rt) == DenAll(es, env, reading, rt)
    decreases PipesAll(es), es, 0
  {
    hide Den;
    if es != [] {
      LowerKeepsMeaning(es[0], env, reading, rt);
      LowerAllKeepsMeaning(es[1..], env, reading, rt);
      assert LowerAll(es).value.exprs[1..] == LowerAll(es[1..]).value.exprs;
    }
  }

  lemma {:induction false} LowerArgKeepsMeaning<V(!new)>(arg: Expr, env: Env<V>, rt: Semantics<V>)
    requires Extensional(rt) && Hygienic(arg, false) && Uncaptured(arg) && LowerArg(arg).Success?
    ensures DenArg(LowerArg(arg).value, env, rt) == DenArg(arg, env, rt)
    decreases Pipes(arg), arg, 1
  {
    hide Den, Lower, Wrap;
    LowerSucceedsExactly(arg);
    LowerArgIsNormal(arg);
    NormalHoles(LowerArg(arg).value);
    if DirectHoles(arg) == {} {
      LowerKeepsMeaning(arg, env, Unread, rt);
    } else {
      forall vs: seq<V>
        ensures Den(Lower(arg).value.expr, env, Params(vs), rt) == Den(arg, env, Params(vs), rt)
      {
        LowerKeepsMeaning(arg, env, Params(vs), rt);
      }
      WrapMeaning(arg, env, rt);
    }
  }

  lemma {:induction false} LowerArgsKeepsMeaning<V(!new)>(args: seq<Expr>, env: Env<V>, rt: Semantics<V>)
    requires Extensional(rt) && AllHygienic(args, false) && AllUncaptured(args) && LowerArgs(args).Success?
    ensures DenArgs(LowerArgs(args).value, env, rt) == DenArgs(args, env, rt)
    decreases PipesAll(args), args, 0
  {
    hide Den, LowerArg, DenArg;
    if args != [] {
      LowerArgKeepsMeaning(args[0], env, rt);
      LowerArgsKeepsMeaning(args[1..], env, rt);
      assert LowerArgs(args).value[1..] == LowerArgs(args[1..]).value;
    }
  }

  // ---------------------------------------------------------------- capture

  /** Numbers, where a call gives its first argument and a function is known by its value at 0. */
  function SampleSemantics(): Semantics<int> {
    Semantics(e => 0, name => 0, k => 0, xs => 0, (op, x) => 0, (op, x, y) => x + y, (x, y, z) => 0,
              (f, xs: seq<int>) => if |xs| == 1 then xs[0] else 0, (x, name) => 0, (x, y) => 0, x => 0,
              (n, f: seq<int> -> int) => if n == 1 then f([0]) else 0)
  }

  function SampleArgument(): Expr { Binary(Add, Placeholder(0), Identifier("_arg0", 0)) }

  function SampleBody(): Expr { Binary(Add, Identifier("_arg0", 0), Identifier("_arg0", 0)) }

  lemma SampleLowers()
    ensures DirectHoles(SampleArgument()) == {1} && !Uncaptured(SampleArgument())
    ensures LowerArg(SampleArgument()) == Success(Lambda(["_arg0"], SampleBody()))
  {
    var arg := SampleArgument();
    assert {1} + {} == {1};
    assert Lower(arg) == Success(Lowered(arg, {1}));
    assert Integers.Digits(0) == "0" && ArgName(0) == "_arg0";
    assert Max({1}) == 1;
    assert ArgNames(1) == ["_arg0"];
    assert FirstGap({1}, 1, 1) == FirstGap({1}, 2, 1);
    assert ReplaceHoles(arg) == SampleBody();
    assert ArgName(0) in Free(arg);
  }

  lemma SampleMeanings(env: Env<int>)
    requires env == map["_arg0" := 5]
    ensures DenArg(SampleArgument(), env, SampleSemantics()) == 5
    ensures DenArg(Lambda(["_arg0"], SampleBody()), env, SampleSemantics()) == 0
  {
    SampleLowers();
    assert Max({1}) == 1;
    assert Den(SampleArgument(), env, Params([0]), SampleSemantics()) == 5;
    assert Bind(env, ["_arg0"], [0])["_arg0"] == 0;
  }

  /** A call of `f` with one argument, before and after lowering. */
  lemma SampleCall(arg: Expr, lowered: Expr, env: Env<int>)
    requires LowerArg(arg) == Success(lowered)
    ensures var f := Identifier("f", 0);
            && Lower(Call(f, [arg])) == Success(Lowered(Call(f, [lowered]), {}))
            && (Hygienic(Call(f, [arg]), false) ==> Uncaptured(arg))
            && Den(Call(f, [arg]), env, Unread, SampleSemantics()) == DenArg(arg, env, SampleSemantics())
  {
    hide LowerArg, DenArg, Uncaptured, Fill, ReplaceHoles, Wrap;
    assert [arg][1..] == [];
    assert LowerArgs([arg][1..]) == Success([]);
    assert LowerArgs([arg]) == Success([lowered] + []);
    assert [lowered] + [] == [lowered];
    assert DenArgs([arg], env, SampleSemantics()) == [DenArg(arg, env, SampleSemantics())];
  }

  lemma SampleIsExtensional()
    ensures Extensional(SampleSemantics())
  {
  }

  /** `f($ + _arg0)` captures the user's `_arg0`: where it is 5, the call means 5 and the lowered
      call means 0. */
  lemma CaptureChangesMeaning(env: Env<int>)
    requires env == map["_arg0" := 5]
    ensures var e := Call(Identifier("f", 0), [SampleArgument()]);
            && !Hygienic(e, false) && Lower(e).Success? && Extensional(SampleSemantics())
            && Den(e, env, Unread, SampleSemantics()) == 5
            && Den(Lower(e).value.expr, env, Unread, SampleSemantics()) == 0
  {
    hide LowerArg, Lower, Den, DenArg, Hygienic, Free, SampleArgument, SampleBody, Uncaptured, Extensional,
         SampleSemantics;
    var lowered := Lambda(["_arg0"], SampleBody());
    SampleIsExtensional();
    SampleLowers();
    SampleMeanings(env);
    SampleCall(SampleArgument(), lowered, env);
    assert LowerArg(lowered) == Success(lowered) by {
      LowerArgIsNormal(SampleArgument());
      LowerKeepsClosedArg(lowered);
    }
    SampleCall(lowered, lowered, env);
  }

  lemma LowerKeepsClosedArg(arg: Expr)
    requires Normal(arg) && AllHoles(arg) == {}
    ensures LowerArg(arg) == Success(arg)
  {
    LowerKeepsNormal(arg);
  }
}
