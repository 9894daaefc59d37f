/** The grammar of expressions as concrete trees: every way to write an expression, with the
    tokens it is written in. The parser is measured against these trees in both directions. */
module Forms {
  import opened Ast
  import opened Grammar
  import opened Printer

  /** An item of a list or of arguments, and the comma behind it. */
  datatype Item = Item(form: Form, comma: Token)

  datatype Form =
    | Leaf(token: Token)
    | Group(open: Token, inner: Form, close: Token)
    | Items(open: Token, items: seq<Item>, trailing: bool, close: Token)
    | Prefix(sign: Token, operand: Form)
    | Infix(left: Form, op: Token, right: Form)
    | Choice(cond: Form, question: Token, a: Form, bang: Token, b: Form)
    | Apply(callee: Form, open: Token, args: seq<Item>, close: Token)
    | Access(target: Form, dot: Token, name: Token)
    | Subscript(base: Form, open: Token, position: Form, close: Token)

  // ---------------------------------------------------------------- which trees there are

  /** The level of the ladder that builds a form. */
  function Rank(f: Form): (k: nat)
    ensures k <= PRIMARY
  {
    match f
    case Choice(_, _, _, _, _) => TERNARY
    case Infix(_, op, _) => JoinLevel(op.kind)
    case Prefix(_, _) => UNARY
    case Apply(_, _, _, _) => CALL
    case Access(_, _, _) => CALL
    case Subscript(_, _, _, _) => CALL
    case _ => PRIMARY
  }

  predicate IsLeaf(kind: Kind) {
    || kind.Number? || kind.Text? || kind.KwTrue? || kind.KwFalse? || kind.KwNone? || kind.Dollar? || kind.Word?
    || kind == Op(Equals) || kind == Op(NotEquals)
  }

  predicate IsMapLeaf(f: Form) { f.Leaf? && f.token.kind == Word("map") }

  /** In parentheses a list has two items, or one and a comma; nothing is the unit. */
  predicate WellBracketed(open: Token, count: nat, trailing: bool, close: Token) {
    || (open.kind.LParen? && close.kind.RParen? && (if count == 0 then !trailing else count > 1 || trailing))
    || (open.kind.LBracket? && close.kind.RBracket? && !trailing)
  }

  predicate WellFormed(f: Form)
    decreases f, 0
  {
    match f
    case Leaf(token) => IsLeaf(token.kind)
    case Group(open, inner, close) => open.kind.LParen? && WellFormed(inner) && close.kind.RParen?
    case Items(open, items, trailing, close) => WellBracketed(open, |items|, trailing, close) && AllWellFormed(items)
    case Prefix(sign, operand) =>
      (sign.kind == Op(Sub) || sign.kind.Bang?) && WellFormed(operand) && Rank(operand) >= UNARY
    case Infix(left, op, right) =>
      var k := JoinLevel(op.kind);
      k > TERNARY && WellFormed(left) && Rank(left) >= k && WellFormed(right) && Rank(right) > k
    case Choice(cond, question, a, bang, b) =>
      && question.kind.Question? && bang.kind.Bang?
      && WellFormed(cond) && Rank(cond) >= PIPELINE && WellFormed(a) && Rank(a) >= PIPELINE && WellFormed(b)
    case Apply(callee, open, args, close) =>
      && open.kind.LParen? && close.kind.RParen?
      && WellFormed(callee) && Rank(callee) >= CALL && !IsMapLeaf(callee) && AllWellFormed(args)
    case Access(target, dot, name) =>
      dot.kind.Dot? && WellFormed(target) && Rank(target) >= CALL && PropertyName(name.kind).Some?
    case Subscript(base, open, position, close) =>
      && open.kind.LBracket? && close.kind.RBracket?
      && WellFormed(base) && Rank(base) >= CALL && WellFormed(position)
  }

  predicate AllWellFormed(items: seq<Item>)
    decreases items, 0
  {
    items == [] || (WellFormedItem(items[0]) && AllWellFormed(items[1..]))
  }

  predicate WellFormedItem(item: Item)
    decreases item, 0
  {
    WellFormed(item.form) && item.comma.kind.Comma?
  }

  // ---------------------------------------------------------------- what they are written in, and what they mean

  function Tokens(f: Form): (ts: seq<Token>)
    ensures |ts| > 0
    decreases f, 0
  {
    match f
    case Leaf(token) => [token]
    case Group(open, inner, close) => [open] + (Tokens(inner) + [close])
    case Items(open, items, trailing, close) => [open] + ItemTokens(items, trailing, close)
    case Prefix(sign, operand) => [sign] + Tokens(operand)
    case Infix(left, op, right) => Tokens(left) + ([op] + Tokens(right))
    case Choice(cond, question, a, bang, b) => Tokens(cond) + ([question] + (Tokens(a) + ([bang] + Tokens(b))))
    case Apply(callee, open, args, close) => Tokens(callee) + ([open] + ItemTokens(args, false, close))
    case Access(target, dot, name) => Tokens(target) + ([dot] + [name])
    case Subscript(base, open, position, close) => Tokens(base) + ([open] + (Tokens(position) + [close]))
  }

  /** Items with commas between them, one more behind the last if `trailing`, and the end. */
  function ItemTokens(items: seq<Item>, trailing: bool, close: Token): (ts: seq<Token>)
    ensures |ts| > 0
    decreases items, 0
  {
    if items == [] then [close]
    else if |items| == 1 && !trailing then OneItem(items[0]) + [close]
    else OneItem(items[0]) + ([items[0].comma] + ItemTokens(items[1..], trailing, close))
  }

  lemma ItemTokensAre(items: seq<Item>, trailing: bool, close: Token)
    requires items != []
    ensures ItemTokens(items, trailing, close) ==
            if |items| == 1 && !trailing then Tokens(items[0].form) + [close]
            else Tokens(items[0].form) + ([items[0].comma] + ItemTokens(items[1..], trailing, close))
  {
    assert OneItem(items[0]) == Tokens(items[0].form);
  }

  function OneItem(item: Item): (ts: seq<Token>)
    ensures |ts| > 0
    decreases item, 0
  {
    Tokens(item.form)
  }

  function LeafTree(token: Token): Expr {
    match token.kind
    case Number(n) => Integer(n)
    case Text(s) => Str(s)
    case KwTrue => Bool(true)
    case KwFalse => Bool(false)
    case Dollar(index) => Placeholder(index)
    case Word(name) => Identifier(name, token.span)
    case Op(op) => Identifier(if op.Equals? then "is" else "isnt", token.span)
    case _ => NoneLit
  }

  function Tree(f: Form): Expr
    decreases f, 0
  {
    match f
    case Leaf(token) => LeafTree(token)
    case Group(_, inner, _) => Tree(inner)
    case Items(open, items, _, _) => if open.kind.LParen? && items == [] then Unit else List(Trees(items))
    case Prefix(sign, operand) => Unary(if sign.kind.Bang? then Not else Neg, Tree(operand))
    case Infix(left, op, right) =>
      if op.kind.Op? then Binary(op.kind.op, Tree(left), Tree(right)) else Pipeline(Tree(left), Tree(right))
    case Choice(cond, _, a, _, b) => Ternary(Tree(cond), Tree(a), Tree(b))
    case Apply(callee, _, args, _) => Call(Tree(callee), Trees(args))
    case Access(target, _, name) =>
      Member(Tree(target), if PropertyName(name.kind).Some? then PropertyName(name.kind).value else "")
    case Subscript(base, _, position, _) => Index(Tree(base), Tree(position))
  }

  function Trees(items: seq<Item>): (es: seq<Expr>)
    ensures |es| == |items|
    decreases items, 0
  {
    if items == [] then [] else [ItemTree(items[0])] + Trees(items[1..])
  }

  function ItemTree(item: Item): Expr
    decreases item, 0
  {
    Tree(item.form)
  }

  // ---------------------------------------------------------------- what the printer writes

  function Mark(kind: Kind): Token { Token(kind, 0) }

  /** The form in which the printer writes a tree where level `k` is expected. */
  function FormOf(e: Expr, k: nat): Form
    requires Renderable(e)
    decreases e, Pending(e, k)
  {
    if k > Level(e) then Group(Mark(LParen), FormOf(e, TERNARY), Mark(RParen))
    else
      match e
      case Unit => Items(Mark(LParen), [], false, Mark(RParen))
      case NoneLit => Leaf(Mark(KwNone))
      case Bool(b) => Leaf(Mark(if b then KwTrue else KwFalse))
      case Integer(n) => Leaf(Mark(Number(n)))
      case Str(s) => Leaf(Mark(Text(s)))
      case Identifier(name, span) => Leaf(Token(Word(name), span))
      case Placeholder(index) => Leaf(Mark(Dollar(index)))
      case List(items) => Items(Mark(LBracket), FormsOf(items), false, Mark(RBracket))
      case Unary(op, operand) => Prefix(Mark(if op.Not? then Bang else Op(Sub)), FormOf(operand, UNARY))
      case Binary(op, left, right) => Infix(FormOf(left, OpLevel(op)), Mark(Op(op)), FormOf(right, OpLevel(op) + 1))
      case Pipeline(source, stage) => Infix(FormOf(source, PIPELINE), Mark(Tilde), FormOf(stage, PIPELINE + 1))
      case Ternary(cond, a, b) =>
        Choice(FormOf(cond, PIPELINE), Mark(Question), FormOf(a, PIPELINE), Mark(Bang), FormOf(b, TERNARY))
      case Call(callee, args) => Apply(FormOf(callee, CalleeLevel(callee)), Mark(LParen), FormsOf(args), Mark(RParen))
      case Member(target, property) => Access(FormOf(target, CALL), Mark(Dot), Mark(Word(property)))
      case Index(base, position) =>
        Subscript(FormOf(base, CALL), Mark(LBracket), FormOf(position, TERNARY), Mark(RBracket))
      case _ => Leaf(Mark(Eof))
  }

  function FormsOf(es: seq<Expr>): (items: seq<Item>)
    requires AllRenderable(es)
    ensures |items| == |es|
    decreases es, 0
  {
    if es == [] then [] else [Item(FormOf(es[0], TERNARY), Mark(Comma))] + FormsOf(es[1..])
  }

  function Capped(k: nat): nat { if k > PRIMARY then PRIMARY else k }

  /** `f` is a form of `e` for level `k`, in the tokens the printer writes. */
  ghost predicate Shows(f: Form, e: Expr, k: nat)
    requires Renderable(e)
  {
    && WellFormed(f) && Rank(f) >= Capped(k) && Tree(f) == e && Tokens(f) == Render(e, k)
    && (IsMapLeaf(f) ==> IsMapName(e) && k <= PRIMARY)
  }

  lemma {:induction false} FormOfRenders(e: Expr, k: nat)
    requires Renderable(e)
    ensures Shows(FormOf(e, k), e, k)
    decreases e, Pending(e, k), 1
  {
    if k > Level(e) {
      FormOfRenders(e, TERNARY);
    } else {
      hide Render, FormOf, Shows;
      match e
      case Binary(_, _, _) => BinaryRenders(e, k);
      case Pipeline(_, _) => PipelineRenders(e, k);
      case Ternary(_, _, _) => TernaryRenders(e, k);
      case Call(_, _) => CallRenders(e, k);
      case Member(_, _) => MemberRenders(e, k);
      case Index(_, _) => IndexRenders(e, k);
      case Unary(_, _) => UnaryRenders(e, k);
      case List(_) => ListRenders(e, k);
      case _ => LeafRenders(e, k);
    }
  }

  lemma {:induction false} BinaryRenders(e: Expr, k: nat)
    requires Renderable(e) && k <= Level(e) && e.Binary?
    ensures Shows(FormOf(e, k), e, k)
    decreases e, 0, 0
  {
    var m := OpLevel(e.op);
    FormOfRenders(e.left, m);
    FormOfRenders(e.right, m + 1);
    BinaryForm(e.op, e.left, e.right, k);
    OperatorJoins(e.op);
    hide FormOf, Render, OpLevel, JoinLevel;
    InfixShows(FormOf(e.left, m), Mark(Op(e.op)), FormOf(e.right, m + 1));
  }

  lemma BinaryForm(op: BinaryOp, left: Expr, right: Expr, k: nat)
    requires Renderable(Binary(op, left, right)) && k <= OpLevel(op)
    ensures var e, m := Binary(op, left, right), OpLevel(op);
            && FormOf(e, k) == Infix(FormOf(left, m), Mark(Op(op)), FormOf(right, m + 1))
            && Render(e, k) == Render(left, m) + (Tok(Op(op)) + Render(right, m + 1))
  {
    hide OpLevel;
  }

  lemma InfixShows(left: Form, op: Token, right: Form)
    requires JoinLevel(op.kind) > TERNARY && op.kind.Op? && WellFormed(left) && WellFormed(right)
    requires Rank(left) >= JoinLevel(op.kind) && Rank(right) > JoinLevel(op.kind)
    ensures var f := Infix(left, op, right);
            && WellFormed(f) && Rank(f) == JoinLevel(op.kind)
            && Tree(f) == Binary(op.kind.op, Tree(left), Tree(right))
            && Tokens(f) == Tokens(left) + ([op] + Tokens(right))
  {
    hide JoinLevel;
  }

  lemma {:induction false} PipelineRenders(e: Expr, k: nat)
    requires Renderable(e) && k <= Level(e) && e.Pipeline?
    ensures Shows(FormOf(e, k), e, k)
    decreases e, 0, 0
  {
    hide JoinLevel, OpLevel, PropertyName;
    FormOfRenders(e.source, PIPELINE);
    FormOfRenders(e.stage, PIPELINE + 1);
    TildeJoins();
  }

  lemma {:induction false} TernaryRenders(e: Expr, k: nat)
    requires Renderable(e) && k <= Level(e) && e.Ternary?
    ensures Shows(FormOf(e, k), e, k)
    decreases e, 0, 0
  {
    hide JoinLevel, OpLevel, PropertyName;
    FormOfRenders(e.cond, PIPELINE);
    FormOfRenders(e.thenBranch, PIPELINE);
    FormOfRenders(e.elseBranch, TERNARY);
  }

  lemma {:induction false} CallRenders(e: Expr, k: nat)
    requires Renderable(e) && k <= Level(e) && e.Call?
    ensures Shows(FormOf(e, k), e, k)
    decreases e, 0, 0
  {
    hide JoinLevel, OpLevel, PropertyName;
    FormOfRenders(e.callee, CalleeLevel(e.callee));
    FormsOfRender(e.args, RParen);
  }

  lemma {:induction false} MemberRenders(e: Expr, k: nat)
    requires Renderable(e) && k <= Level(e) && e.Member?
    ensures Shows(FormOf(e, k), e, k)
    decreases e, 0, 0
  {
    hide JoinLevel, OpLevel;
    FormOfRenders(e.target, CALL);
  }

  lemma {:induction false} IndexRenders(e: Expr, k: nat)
    requires Renderable(e) && k <= Level(e) && e.Index?
    ensures Shows(FormOf(e, k), e, k)
    decreases e, 0, 0
  {
    hide JoinLevel, OpLevel, PropertyName;
    FormOfRenders(e.base, CALL);
    FormOfRenders(e.position, TERNARY);
  }

  lemma {:induction false} UnaryRenders(e: Expr, k: nat)
    requires Renderable(e) && k <= Level(e) && e.Unary?
    ensures Shows(FormOf(e, k), e, k)
    decreases e, 0, 0
  {
    hide JoinLevel, OpLevel, PropertyName;
    FormOfRenders(e.operand, UNARY);
  }

  lemma {:induction false} ListRenders(e: Expr, k: nat)
    requires Renderable(e) && k <= Level(e) && e.List?
    ensures Shows(FormOf(e, k), e, k)
    decreases e, 0, 0
  {
    hide JoinLevel, OpLevel, PropertyName;
    FormsOfRender(e.items, RBracket);
  }

  lemma {:induction false} LeafRenders(e: Expr, k: nat)
    requires Renderable(e) && k <= Level(e) && !e.Binary? && !e.Pipeline? && !e.Ternary? && !e.Call?
    requires !e.Member? && !e.Index? && !e.Unary? && !e.List?
    ensures Shows(FormOf(e, k), e, k)
    decreases e, 0, 0
  {
    hide JoinLevel, OpLevel, PropertyName;
  }

  lemma OperatorJoins(op: BinaryOp)
    ensures JoinLevel(Op(op)) == OpLevel(op)
  {
  }

  lemma TildeJoins()
    ensures JoinLevel(Tilde) == PIPELINE
  {
  }

  lemma {:induction false} FormsOfRender(es: seq<Expr>, close: Kind)
    requires AllRenderable(es)
    ensures AllWellFormed(FormsOf(es)) && Trees(FormsOf(es)) == es
    ensures ItemTokens(FormsOf(es), false, Mark(close)) == RenderItems(es, close)
    decreases es, 0
  {
    hide JoinLevel, OpLevel;
    if es != [] {
      FormOfRenders(es[0], TERNARY);
      FormsOfRender(es[1..], close);
      assert FormsOf(es)[1..] == FormsOf(es[1..]);
    }
  }
}
