/** What a lowered block of Coral statements means: an evaluator over an environment and a
    trace of effects. Everything the constant folder does not decide for itself (calls,
    lists, members, operators on mixed types, iteration) is an arbitrary `Runtime`, so a
    theorem about every runtime is a theorem about every behaviour of those parts.
    The heap is a function of the trace: runtime operations see the effects so far. */
module Meaning {
  import opened Ast
  import opened Integers

  datatype Value = UnitV | NoneV | BoolV(b: bool) | NumV(r: real) | StrV(s: string) | Handle(id: nat)

  /** What type inference knows of an expression. */
  datatype Static = IntType | BoolType | OtherType(id: nat) | Unknown

  /** What code generation knows about a body: the variables it keeps as native integers, the
      inferred types of other variables and of functions' results, and the argument types for
      which functions have specialised versions. */
  datatype Types = Types(
    natives: set<string>,
    variables: map<string, Static>,
    captured: map<string, Static>,   // the same names inside lambdas
    results: map<string, Static>,
    variants: set<(string, seq<Static>)>)

  /** The specialised version of a function that is called, if any. */
  type Version = Option<seq<Static>>

  datatype Event =
    | Called(callee: Value, version: Version, args: seq<Value>)
    | FieldSet(target: Value, field: string, value: Value)

  type Env = map<string, Value>
  type Trace = seq<Event>

  datatype Ev = Ev(v: Value, t: Trace)
  datatype Evs = Evs(vs: seq<Value>, t: Trace)

  datatype Runtime = Runtime(
    truthy: Value -> bool,
    global: string -> Value,
    unary: (UnaryOp, Value) -> Value,
    binary: (BinaryOp, Value, Value, Trace) -> Value,
    list: (seq<Value>, Trace) -> Value,
    member: (Value, string, Trace) -> Value,
    index: (Value, Value, Trace) -> Value,
    builtin: (string, seq<Value>, Trace) -> Value,
    call: (Value, Version, seq<Value>, Trace) -> Value,
    items: (Value, Trace) -> seq<Value>,
    entries: (Value, Trace) -> seq<(Value, Value)>,
    rangeDone: (Value, Value) -> bool,
    rangeNext: (Value, Option<Value>) -> Value,
    closure: (nat, (seq<Value>, Trace) -> Ev) -> Value,
    other: (Expr, Env, Trace) -> (Value, seq<Event>),
    trap: (BinaryOp, int) -> Value,   // native division by zero
    unbox: Value -> int,              // the native integer read from a value that is no number
    functions: set<string>,           // the functions the program defines
    types: Types)

  datatype State = State(env: Env, t: Trace)

  /** How a statement ends. `OutOfFuel` marks a run cut off after `fuel` loop iterations. */
  datatype Control = Normal | Broke | Continued | Returned(v: Value) | OutOfFuel

  datatype Outcome = Outcome(st: State, control: Control, value: Value)
  datatype Step = Step(st: State, control: Control)

  // ---------------------------------------------------------------- numbers and text

  predicate IsBitOp(op: BinaryOp) { op.BitAnd? || op.BitOr? || op.BitXor? }

  /** One bit of a bitwise operator. */
  function Bit(op: BinaryOp, a: nat, b: nat): nat {
    if (match op case BitAnd => a % 2 == 1 && b % 2 == 1
                 case BitOr => a % 2 == 1 || b % 2 == 1
                 case _ => a % 2 != b % 2) then 1 else 0
  }

  function BitsOf(op: BinaryOp, a: nat, b: nat, width: nat): nat {
    if width == 0 then 0 else Bit(op, a, b) + 2 * BitsOf(op, a / 2, b / 2, width - 1)
  }

  /** `&`, `|` and `^` on the two's-complement patterns of 64-bit integers. */
  function BitOp(op: BinaryOp, a: int, b: int): int
    requires IsBitOp(op)
  {
    Wrap64(BitsOf(op, a % WORD, b % WORD, 64))
  }

  function Utf8Width(c: char): nat {
    var code := c as int;
    if code < 0x80 then 1 else if code < 0x800 then 2 else if code < 0x1_0000 then 3 else 4
  }

  /** The length of a string in UTF-8 bytes. */
  function ByteLength(s: string): nat {
    if s == [] then 0 else Utf8Width(s[0]) + ByteLength(s[1..])
  }

  function IntText(n: int): string { if n < 0 then "-" + Digits(-n) else Digits(n) }

  function BoolText(b: bool): string { if b then "true" else "false" }

  // ---------------------------------------------------------------- expressions

  predicate IsPureBuiltin(name: string) {
    name in {"sqrt", "abs", "floor", "ceil", "round", "sin", "cos", "tan", "asin", "acos",
             "atan", "atan2", "exp", "ln", "log2", "log10", "pow", "min", "max", "clamp"}
    || name in {"is_number", "is_string", "is_bool", "is_list", "is_map", "is_none", "is_err", "is_some"}
    || name in {"length", "to_string", "number_to_string", "char_at", "char_code", "from_char_code"}
  }

  predicate CallsPureBuiltin(callee: Expr) { callee.Identifier? && IsPureBuiltin(callee.name) }

  /** The pure builtins that code generation emits itself, whatever the program defines
      (src/codegen/builtins.rs). Any other name is looked up among the program's functions
      and then among the local variables. */
  predicate IsEmitted(name: string) {
    name in {"sqrt", "abs", "floor", "ceil", "round", "sin", "cos", "tan", "asin", "acos",
             "atan", "atan2", "exp", "ln", "log10", "pow", "min", "max"}
    || name in {"is_err", "to_string", "number_to_string", "char_at"}
  }

  /** The names a call can find before the builtins that are not emitted. */
  datatype Scope = Scope(functions: set<string>, locals: set<string>, types: Types)

  predicate Finds(scope: Scope, name: string) { name in scope.functions || name in scope.locals }

  /** A call that reaches a pure builtin. */
  predicate CallsBuiltin(callee: Expr, scope: Scope) {
    CallsPureBuiltin(callee) && (IsEmitted(callee.name) || !Finds(scope, callee.name))
  }

  function ScopeOf(rt: Runtime, env: Env): Scope { Scope(rt.functions, env.Keys, rt.types) }

  /** What an ordinary call calls: a function of the program comes before a variable. */
  function Target(rt: Runtime, callee: Expr, v: Value): Value {
    if callee.Identifier? && callee.name in rt.functions then rt.global(callee.name) else v
  }

  // ---------------------------------------------------------------- static integers

  predicate IsArithmetic(op: BinaryOp) { op.Add? || op.Sub? || op.Mul? || op.Div? || op.Mod? }

  predicate IsComparison(op: BinaryOp) {
    op.Equals? || op.NotEquals? || op.Less? || op.LessEq? || op.Greater? || op.GreaterEq?
  }

  function LookUp(types: map<string, Static>, name: string): Static {
    if name in types then types[name] else Unknown
  }

  /** Whether code generation knows from the text that `e` is an integer. */
  predicate StaticInt(e: Expr, types: Types)
    decreases e
  {
    match e
    case Integer(_) => true
    case Identifier(name, _) => name in types.natives
    case Binary(op, left, right) => IsArithmetic(op) && StaticInt(left, types) && StaticInt(right, types)
    case Unary(op, operand) => op.Neg? && StaticInt(operand, types)
    case Call(callee, _) => callee.Identifier? && LookUp(types.results, callee.name).IntType?
    case _ => false
  }

  /** An operation that is done on native 64-bit integers. */
  predicate IsNative(op: BinaryOp, left: Expr, right: Expr, types: Types) {
    (IsArithmetic(op) || IsComparison(op)) && StaticInt(left, types) && StaticInt(right, types)
  }

  /** The type by which an argument selects a specialised version. */
  function ArgType(e: Expr, types: Types): Static {
    match e
    case Integer(_) => IntType
    case Bool(_) => BoolType
    case Identifier(name, _) => if name in types.natives then IntType else LookUp(types.variables, name)
    case Call(callee, _) => if callee.Identifier? then LookUp(types.results, callee.name) else Unknown
    case _ => if StaticInt(e, types) then IntType else Unknown
  }

  function ArgTypes(es: seq<Expr>, types: Types): seq<Static>
    decreases es
  {
    if es == [] then [] else [ArgType(es[0], types)] + ArgTypes(es[1..], types)
  }

  /** The version of a program's function that a call by name runs. */
  function VersionOf(callee: Expr, args: seq<Expr>, scope: Scope): Version {
    if callee.Identifier? && callee.name in scope.functions
       && (callee.name, ArgTypes(args, scope.types)) in scope.types.variants
    then Some(ArgTypes(args, scope.types)) else None
  }

  /** A range loop that counts on native integers. */
  predicate IsNativeRange(start: Expr, end: Expr, step: Option<Expr>, types: Types) {
    StaticInt(start, types) && StaticInt(end, types) && (step.Some? ==> StaticInt(step.value, types))
  }

  predicate Integral(r: real) { r.Floor as real == r }

  /** Toward zero. */
  function Truncate(r: real): int { if r < 0.0 then -((-r).Floor) else r.Floor }

  /** The native integer read from a value. */
  ghost function AsInt(rt: Runtime, v: Value): int { if v.NumV? then Wrap64(Truncate(v.r)) else rt.unbox(v) }

  ghost function ApplyNative(rt: Runtime, op: BinaryOp, a: int, b: int, t: Trace): Value {
    match op
    case Add => NumV(Wrap64(a + b) as real)
    case Sub => NumV(Wrap64(a - b) as real)
    case Mul => NumV(Wrap64(a * b) as real)
    case Div => if b == 0 then rt.trap(op, a) else NumV(Wrap64(TruncDiv(a, b)) as real)
    case Mod => if b == 0 then rt.trap(op, a) else NumV(TruncRem(a, b) as real)
    case Equals => BoolV(a == b)
    case NotEquals => BoolV(a != b)
    case Less => BoolV(a < b)
    case LessEq => BoolV(a <= b)
    case Greater => BoolV(a > b)
    case GreaterEq => BoolV(a >= b)
    case _ => rt.binary(op, NumV(a as real), NumV(b as real), t)
  }

  // ---------------------------------------------------------------- operators

  ghost predicate Truthy(rt: Runtime, v: Value) { if v.BoolV? then v.b else rt.truthy(v) }

  ghost function ApplyUnary(rt: Runtime, op: UnaryOp, v: Value): Value {
    match op
    case Neg => if v.NumV? then NumV(-v.r) else rt.unary(op, v)
    case Not => BoolV(!Truthy(rt, v))
    case BitNot => if v.NumV? && Integral(v.r) then NumV((-v.r.Floor - 1) as real) else rt.unary(op, v)
  }

  ghost function ApplyNumbers(rt: Runtime, op: BinaryOp, a: real, b: real, t: Trace): Value {
    match op
    case Add => NumV(a + b)
    case Sub => NumV(a - b)
    case Mul => NumV(a * b)
    case Div => if b == 0.0 then rt.binary(op, NumV(a), NumV(b), t) else NumV(a / b)
    case Mod =>
      if Integral(a) && Integral(b) && b.Floor != 0 then NumV(TruncRem(a.Floor, b.Floor) as real)
      else rt.binary(op, NumV(a), NumV(b), t)
    case Equals => BoolV(a == b)
    case NotEquals => BoolV(a != b)
    case Less => BoolV(a < b)
    case LessEq => BoolV(a <= b)
    case Greater => BoolV(a > b)
    case GreaterEq => BoolV(a >= b)
    case _ =>
      if IsBitOp(op) && Integral(a) && Integral(b) then NumV(BitOp(op, a.Floor, b.Floor) as real)
      else rt.binary(op, NumV(a), NumV(b), t)
  }

  ghost function ApplyBinary(rt: Runtime, op: BinaryOp, a: Value, b: Value, t: Trace): Value {
    if a.NumV? && b.NumV? then ApplyNumbers(rt, op, a.r, b.r, t)
    else if a.BoolV? && b.BoolV? && op.Equals? then BoolV(a.b == b.b)
    else if a.StrV? && b.StrV? && op.Add? then StrV(a.s + b.s)
    else rt.binary(op, a, b, t)
  }

  function Bind(env: Env, params: seq<string>, vs: seq<Value>): (bound: Env)
    requires |params| == |vs|
    ensures bound.Keys == env.Keys + (set x | x in params)
    decreases params
  {
    if params == [] then env else Bind(env[params[0] := vs[0]], params[1..], vs[1..])
  }

  /** The code of a lambda keeps no variable as a native integer. */
  function Boxed(types: Types): Types { types.(natives := {}, variables := types.captured) }

  function InLambda(rt: Runtime): Runtime { rt.(types := Boxed(rt.types)) }

  /** A closure does, for arguments of the right number, what its body does with its parameters
      bound to them where it was made. */
  ghost function Closure(rt: Runtime, params: seq<string>, body: Expr, env: Env): (f: (seq<Value>, Trace) -> Ev)
    decreases body, 1
  {
    (vs, t) => if |vs| == |params| then Eval(InLambda(rt), body, Bind(env, params, vs), t) else Ev(UnitV, t)
  }

  ghost function Operate(rt: Runtime, op: BinaryOp, native: bool, a: Value, b: Value, t: Trace): Value {
    if native then ApplyNative(rt, op, AsInt(rt, a), AsInt(rt, b), t) else ApplyBinary(rt, op, a, b, t)
  }

  ghost function Eval(rt: Runtime, e: Expr, env: Env, t: Trace): Ev
    decreases e, 0
  {
    match e
    case Unit => Ev(UnitV, t)
    case NoneLit => Ev(NoneV, t)
    case Bool(b) => Ev(BoolV(b), t)
    case Integer(n) => Ev(NumV(n as real), t)
    case Str(s) => Ev(StrV(s), t)
    case Identifier(name, _) => Ev(if name in env then env[name] else rt.global(name), t)
    case List(items) =>
      var r := EvalAll(rt, items, env, t);
      Ev(rt.list(r.vs, r.t), r.t)
    case Unary(op, operand) =>
      var r := Eval(rt, operand, env, t);
      Ev(ApplyUnary(rt, op, r.v), r.t)
    case Binary(op, left, right) =>
      var l := Eval(rt, left, env, t);
      if op.And? && !Truthy(rt, l.v) then Ev(BoolV(false), l.t)
      else if op.Or? && Truthy(rt, l.v) then Ev(BoolV(true), l.t)
      else
        var r := Eval(rt, right, env, l.t);
        Ev(if op.And? || op.Or? then BoolV(Truthy(rt, r.v))
           else Operate(rt, op, IsNative(op, left, right, rt.types), l.v, r.v, r.t), r.t)
    case Ternary(cond, thenBranch, elseBranch) =>
      var c := Eval(rt, cond, env, t);
      if Truthy(rt, c.v) then Eval(rt, thenBranch, env, c.t) else Eval(rt, elseBranch, env, c.t)
    case Call(callee, args) =>
      if CallsBuiltin(callee, ScopeOf(rt, env)) then
        var r := EvalAll(rt, args, env, t);
        Ev(rt.builtin(callee.name, r.vs, r.t), r.t)
      else
        var f := Eval(rt, callee, env, t);
        var r := EvalAll(rt, args, env, f.t);
        var target, version := Target(rt, callee, f.v), VersionOf(callee, args, ScopeOf(rt, env));
        Ev(rt.call(target, version, r.vs, r.t), r.t + [Called(target, version, r.vs)])
    case Member(target, property) =>
      var r := Eval(rt, target, env, t);
      Ev(rt.member(r.v, property, r.t), r.t)
    case Index(base, position) =>
      var b := Eval(rt, base, env, t);
      var p := Eval(rt, position, env, b.t);
      Ev(rt.index(b.v, p.v, p.t), p.t)
    case Lambda(params, body) => Ev(rt.closure(|params|, Closure(rt, params, body, env)), t)
    case _ =>
      var r := rt.other(e, env, t);
      Ev(r.0, t + r.1)
  }

  ghost function EvalAll(rt: Runtime, es: seq<Expr>, env: Env, t: Trace): Evs
    decreases es, 0
  {
    if es == [] then Evs([], t)
    else
      var head := Eval(rt, es[0], env, t);
      var tail := EvalAll(rt, es[1..], env, head.t);
      Evs([head.v] + tail.vs, tail.t)
  }

  /** Closures are told apart only by what they do with the right number of arguments. */
  ghost predicate Extensional(rt: Runtime) {
    forall n: nat, f: (seq<Value>, Trace) -> Ev, g: (seq<Value>, Trace) -> Ev
      {:trigger rt.closure(n, f), rt.closure(n, g)} ::
      (forall vs: seq<Value>, t: Trace :: |vs| == n ==> f(vs, t) == g(vs, t)) ==>
      rt.closure(n, f) == rt.closure(n, g)
  }

  /** What the runtime's own `length` and `to_string` promise on values the folder knows, and
      that closures do what they do. */
  ghost predicate Lawful(rt: Runtime) {
    && Extensional(rt)
    && (forall vs, t :: rt.member(rt.list(vs, t), "length", t) == NumV(|vs| as real))
    && (forall vs, t :: rt.builtin("length", [rt.list(vs, t)], t) == NumV(|vs| as real))
    && (forall s, t :: rt.member(StrV(s), "length", t) == NumV(ByteLength(s) as real))
    && (forall s, t :: rt.builtin("length", [StrV(s)], t) == NumV(ByteLength(s) as real))
    && (forall n: int, t {:trigger rt.builtin("to_string", [NumV(n as real)], t)} ::
          InRange(n) ==> rt.builtin("to_string", [NumV(n as real)], t) == StrV(IntText(n)))
    && (forall b, t :: rt.builtin("to_string", [BoolV(b)], t) == StrV(BoolText(b)))
    && (forall s, t :: rt.builtin("to_string", [StrV(s)], t) == StrV(s))
  }

  // ---------------------------------------------------------------- statements

  datatype Selected = Selected(k: nat, t: Trace)

  /** The first `elif` whose condition holds (or their number), and the trace of testing them. */
  ghost function Select(rt: Runtime, elifs: seq<Branch>, env: Env, t: Trace): (r: Selected)
    ensures r.k <= |elifs|
  {
    if elifs == [] then Selected(0, t)
    else
      var c := Eval(rt, elifs[0].cond, env, t);
      if Truthy(rt, c.v) then Selected(0, c.t)
      else
        var rest := Select(rt, elifs[1..], env, c.t);
        Selected(rest.k + 1, rest.t)
  }

  ghost function ExecBlock(rt: Runtime, b: Block, st: State, fuel: nat): Outcome
    decreases fuel, b, 0
  {
    var s := ExecStmts(rt, b.stmts, st, fuel);
    if s.control.Normal? && b.value.Some? then
      var r := Eval(rt, b.value.value, s.st.env, s.st.t);
      Outcome(State(s.st.env, r.t), Normal, r.v)
    else Outcome(s.st, s.control, UnitV)
  }

  ghost function ExecBody(rt: Runtime, b: Block, st: State, fuel: nat): Step
    decreases fuel, b, 1
  {
    var o := ExecBlock(rt, b, st, fuel);
    Step(o.st, o.control)
  }

  ghost function ExecStmts(rt: Runtime, stmts: seq<Stmt>, st: State, fuel: nat): Step
    decreases fuel, stmts, 0
  {
    if stmts == [] then Step(st, Normal)
    else
      var s := ExecStmt(rt, stmts[0], st, fuel);
      if s.control.Normal? then ExecStmts(rt, stmts[1..], s.st, fuel) else s
  }

  ghost function ExecStmt(rt: Runtime, s: Stmt, st: State, fuel: nat): Step
    decreases fuel, s, 2
  {
    match s
    case Binding(name, value) =>
      var r := Eval(rt, value, st.env, st.t);
      Step(State(st.env[name := Stored(rt, name in rt.types.natives, r.v)], r.t), Normal)
    case ExprStmt(expr) =>
      Step(State(st.env, Eval(rt, expr, st.env, st.t).t), Normal)
    case Return(result) =>
      var r := Eval(rt, result, st.env, st.t);
      Step(State(st.env, r.t), Returned(r.v))
    case If(cond, body, elifs, orelse) =>
      var c := Eval(rt, cond, st.env, st.t);
      if Truthy(rt, c.v) then ExecBody(rt, body, State(st.env, c.t), fuel)
      else
        var chosen := Select(rt, elifs, st.env, c.t);
        if chosen.k < |elifs| then ExecBody(rt, elifs[chosen.k].body, State(st.env, chosen.t), fuel)
        else if orelse.Some? then ExecBody(rt, orelse.value, State(st.env, chosen.t), fuel)
        else Step(State(st.env, chosen.t), Normal)
    case While(cond, body) => ExecWhile(rt, cond, body, st, fuel)
    case For(variable, iterable, body) =>
      var r := Eval(rt, iterable, st.env, st.t);
      ExecFor(rt, variable, rt.items(r.v, r.t), body, State(st.env, r.t), fuel)
    case ForKV(keyVar, valueVar, iterable, body) =>
      var r := Eval(rt, iterable, st.env, st.t);
      ExecForKV(rt, keyVar, valueVar, rt.entries(r.v, r.t), body, State(st.env, r.t), fuel)
    case ForRange(variable, start, end, step, body) =>
      var a := Eval(rt, start, st.env, st.t);
      var z := Eval(rt, end, st.env, a.t);
      var native := IsNativeRange(start, end, step, rt.types);
      var first := Stored(rt, native, a.v);
      if step.None? then ExecRange(rt, native, variable, first, z.v, None, body, State(st.env, z.t), fuel)
      else
        var d := Eval(rt, step.value, st.env, z.t);
        ExecRange(rt, native, variable, first, z.v, Some(d.v), body, State(st.env, d.t), fuel)
    case FieldAssign(target, field, value) =>
      var o := Eval(rt, target, st.env, st.t);
      var r := Eval(rt, value, st.env, o.t);
      Step(State(st.env, r.t + [FieldSet(o.v, field, r.v)]), Normal)
    case Break => Step(st, Broke)
    case Continue => Step(st, Continued)
  }

  ghost function ExecWhile(rt: Runtime, cond: Expr, body: Block, st: State, fuel: nat): Step
    decreases fuel, body, 2
  {
    var c := Eval(rt, cond, st.env, st.t);
    if !Truthy(rt, c.v) then Step(State(st.env, c.t), Normal)
    else if fuel == 0 then Step(State(st.env, c.t), OutOfFuel)
    else
      var s := ExecBody(rt, body, State(st.env, c.t), fuel - 1);
      if s.control.Normal? || s.control.Continued? then ExecWhile(rt, cond, body, s.st, fuel - 1)
      else AfterLoop(s)
  }

  ghost function ExecFor(rt: Runtime, variable: string, items: seq<Value>, body: Block, st: State, fuel: nat): Step
    decreases fuel, body, 2
  {
    if items == [] then Step(st, Normal)
    else if fuel == 0 then Step(st, OutOfFuel)
    else
      var s := ExecBody(rt, body, State(st.env[variable := items[0]], st.t), fuel - 1);
      if s.control.Normal? || s.control.Continued? then ExecFor(rt, variable, items[1..], body, s.st, fuel - 1)
      else AfterLoop(s)
  }

  ghost function ExecForKV(rt: Runtime, keyVar: string, valueVar: string, entries: seq<(Value, Value)>, body: Block,
                           st: State, fuel: nat): Step
    decreases fuel, body, 2
  {
    if entries == [] then Step(st, Normal)
    else if fuel == 0 then Step(st, OutOfFuel)
    else
      var env := st.env[keyVar := entries[0].0][valueVar := entries[0].1];
      var s := ExecBody(rt, body, State(env, st.t), fuel - 1);
      if s.control.Normal? || s.control.Continued? then
        ExecForKV(rt, keyVar, valueVar, entries[1..], body, s.st, fuel - 1)
      else AfterLoop(s)
  }

  ghost function ExecRange(rt: Runtime, native: bool, variable: string, current: Value, end: Value,
                           step: Option<Value>, body: Block, st: State, fuel: nat): Step
    decreases fuel, body, 2
  {
    if RangeDone(rt, native, current, end) then Step(st, Normal)
    else if fuel == 0 then Step(st, OutOfFuel)
    else
      var s := ExecBody(rt, body, State(st.env[variable := current], st.t), fuel - 1);
      if s.control.Normal? || s.control.Continued? then
        ExecRange(rt, native, variable, RangeNext(rt, native, current, step), end, step, body, s.st, fuel - 1)
      else AfterLoop(s)
  }

  /** A native variable holds an integer. */
  ghost function Stored(rt: Runtime, native: bool, v: Value): Value {
    if native then NumV(AsInt(rt, v) as real) else v
  }

  ghost predicate RangeDone(rt: Runtime, native: bool, current: Value, end: Value) {
    if native then AsInt(rt, current) >= AsInt(rt, end) else rt.rangeDone(current, end)
  }

  ghost function RangeNext(rt: Runtime, native: bool, current: Value, step: Option<Value>): Value {
    if native then NumV(Wrap64(AsInt(rt, current) + if step.None? then 1 else AsInt(rt, step.value)) as real)
    else rt.rangeNext(current, step)
  }

  /** A break ends the loop normally; a return or a cut-off run passes through. */
  function AfterLoop(s: Step): Step { if s.control.Broke? then Step(s.st, Normal) else s }
}
