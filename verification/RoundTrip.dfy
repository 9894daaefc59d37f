/** The parser reads every form of the grammar as its tree; so it undoes the printer. */
module RoundTrip {
  import opened Ast
  import opened Grammar
  import opened Printer
  import opened Forms

  // ---------------------------------------------------------------- tokens in place

  ghost predicate At(ts: seq<Token>, i: nat, s: seq<Token>) {
    i + |s| <= |ts| && ts[i..i + |s|] == s
  }

  lemma AtPiece(ts: seq<Token>, i: nat, s: seq<Token>, from: nat, to: nat)
    requires At(ts, i, s) && from <= to <= |s|
    ensures At(ts, i + from, s[from..to])
  {
    var piece := ts[i + from..i + to];
    forall n | 0 <= n < to - from ensures piece[n] == s[from + n] {
      assert piece[n] == ts[i + from + n] == ts[i..i + |s|][from + n];
    }
    assert piece == s[from..to];
  }

  lemma AtTok(ts: seq<Token>, i: nat, token: Token)
    requires At(ts, i, [token])
    ensures i < |ts| && ts[i] == token && KindAt(ts, i) == token.kind
  {
    assert ts[i..i + 1][0] == ts[i];
  }

  /** One token and then more. */
  lemma AtCons(ts: seq<Token>, i: nat, token: Token, right: seq<Token>)
    requires At(ts, i, [token] + right)
    ensures i < |ts| && KindAt(ts, i) == token.kind && At(ts, i + 1, right)
    ensures |[token] + right| == 1 + |right|
  {
    var s := [token] + right;
    AtPiece(ts, i, s, 1, |s|);
    assert s[1..] == right;
    assert ts[i..i + |s|][0] == s[0];
  }

  lemma AtConcat(ts: seq<Token>, i: nat, left: seq<Token>, right: seq<Token>)
    requires At(ts, i, left + right)
    ensures At(ts, i, left) && At(ts, i + |left|, right)
    ensures |left + right| == |left| + |right|
  {
    var s, n := left + right, |left|;
    AtPiece(ts, i, s, 0, n);
    AtPiece(ts, i, s, n, |s|);
    assert s[..n] == left && s[n..] == right;
  }

  /** Tokens on either side of one. */
  lemma AtAround(ts: seq<Token>, i: nat, left: seq<Token>, token: Token, right: seq<Token>)
    requires At(ts, i, left + ([token] + right))
    ensures At(ts, i, left) && KindAt(ts, i + |left|) == token.kind && At(ts, i + |left| + 1, right)
    ensures |left + ([token] + right)| == |left| + 1 + |right|
  {
    AtConcat(ts, i, left, [token] + right);
    AtCons(ts, i + |left|, token, right);
  }

  /** The tokens from `i` on are those of a form. */
  ghost predicate Stands(ts: seq<Token>, i: nat, f: Form) { At(ts, i, Tokens(f)) }

  /** Where they end. */
  ghost function End(i: nat, f: Form): nat { i + |Tokens(f)| }

  ghost predicate ItemsStand(ts: seq<Token>, i: nat, items: seq<Item>, trailing: bool, close: Token) {
    At(ts, i, ItemTokens(items, trailing, close))
  }

  ghost function ItemsEnd(i: nat, items: seq<Item>, trailing: bool, close: Token): nat {
    i + |ItemTokens(items, trailing, close)|
  }

  // ---------------------------------------------------------------- the parts of a form

  lemma GroupParts(ts: seq<Token>, i: nat, f: Form)
    requires f.Group? && Stands(ts, i, f)
    ensures KindAt(ts, i) == f.open.kind && Stands(ts, i + 1, f.inner)
    ensures KindAt(ts, End(i + 1, f.inner)) == f.close.kind && End(i, f) == End(i + 1, f.inner) + 1 <= |ts|
  {
    AtCons(ts, i, f.open, Tokens(f.inner) + [f.close]);
    AtConcat(ts, i + 1, Tokens(f.inner), [f.close]);
    AtTok(ts, End(i + 1, f.inner), f.close);
  }

  lemma ChoiceParts(ts: seq<Token>, i: nat, f: Form)
    requires f.Choice? && Stands(ts, i, f)
    ensures var j := End(i, f.cond); var m := End(j + 1, f.a);
            && Stands(ts, i, f.cond) && KindAt(ts, j) == f.question.kind
            && Stands(ts, j + 1, f.a) && KindAt(ts, m) == f.bang.kind && Stands(ts, m + 1, f.b)
            && End(i, f) == End(m + 1, f.b)
  {
    var x, y, z := Tokens(f.cond), Tokens(f.a), Tokens(f.b);
    AtAround(ts, i, x, f.question, y + ([f.bang] + z));
    AtAround(ts, i + |x| + 1, y, f.bang, z);
  }

  lemma InfixParts(ts: seq<Token>, i: nat, f: Form)
    requires f.Infix? && Stands(ts, i, f)
    ensures var j := End(i, f.left);
            && Stands(ts, i, f.left) && KindAt(ts, j) == f.op.kind && Stands(ts, j + 1, f.right)
            && End(i, f) == End(j + 1, f.right)
  {
    AtAround(ts, i, Tokens(f.left), f.op, Tokens(f.right));
  }

  lemma PrefixParts(ts: seq<Token>, i: nat, f: Form)
    requires f.Prefix? && Stands(ts, i, f)
    ensures KindAt(ts, i) == f.sign.kind && Stands(ts, i + 1, f.operand) && End(i, f) == End(i + 1, f.operand)
  {
    AtCons(ts, i, f.sign, Tokens(f.operand));
  }

  lemma ApplyParts(ts: seq<Token>, i: nat, f: Form)
    requires f.Apply? && Stands(ts, i, f)
    ensures var j := End(i, f.callee);
            && Stands(ts, i, f.callee) && KindAt(ts, j) == f.open.kind
            && ItemsStand(ts, j + 1, f.args, false, f.close) && End(i, f) == ItemsEnd(j + 1, f.args, false, f.close)
  {
    AtAround(ts, i, Tokens(f.callee), f.open, ItemTokens(f.args, false, f.close));
  }

  lemma AccessParts(ts: seq<Token>, i: nat, f: Form)
    requires f.Access? && Stands(ts, i, f)
    ensures var j := End(i, f.target);
            && Stands(ts, i, f.target) && KindAt(ts, j) == f.dot.kind && KindAt(ts, j + 1) == f.name.kind
            && End(i, f) == j + 2 <= |ts|
  {
    AtAround(ts, i, Tokens(f.target), f.dot, [f.name]);
    AtTok(ts, End(i, f.target) + 1, f.name);
  }

  lemma SubscriptParts(ts: seq<Token>, i: nat, f: Form)
    requires f.Subscript? && Stands(ts, i, f)
    ensures var j := End(i, f.base); var m := End(j + 1, f.position);
            && Stands(ts, i, f.base) && KindAt(ts, j) == f.open.kind && Stands(ts, j + 1, f.position)
            && KindAt(ts, m) == f.close.kind && End(i, f) == m + 1 <= |ts|
  {
    var b, p := Tokens(f.base), Tokens(f.position);
    AtAround(ts, i, b, f.open, p + [f.close]);
    AtConcat(ts, i + |b| + 1, p, [f.close]);
    AtTok(ts, i + |b| + 1 + |p|, f.close);
  }

  lemma ItemsParts(ts: seq<Token>, i: nat, f: Form)
    requires f.Items? && Stands(ts, i, f)
    ensures KindAt(ts, i) == f.open.kind && ItemsStand(ts, i + 1, f.items, f.trailing, f.close)
    ensures End(i, f) == ItemsEnd(i + 1, f.items, f.trailing, f.close)
  {
    AtCons(ts, i, f.open, ItemTokens(f.items, f.trailing, f.close));
  }

  lemma LeafParts(ts: seq<Token>, i: nat, f: Form)
    requires f.Leaf? && Stands(ts, i, f)
    ensures i < |ts| && ts[i] == f.token && End(i, f) == i + 1
  {
    AtTok(ts, i, f.token);
  }

  lemma NoItems(ts: seq<Token>, i: nat, trailing: bool, close: Token)
    requires ItemsStand(ts, i, [], trailing, close)
    ensures KindAt(ts, i) == close.kind && ItemsEnd(i, [], trailing, close) == i + 1 <= |ts|
  {
    AtTok(ts, i, close);
  }

  lemma LastItem(ts: seq<Token>, i: nat, items: seq<Item>, close: Token)
    requires |items| == 1 && ItemsStand(ts, i, items, false, close)
    ensures var f := items[0].form; var j := End(i, f);
            && Stands(ts, i, f) && KindAt(ts, j) == close.kind && ItemsEnd(i, items, false, close) == j + 1 <= |ts|
  {
    hide ItemTokens, Tokens;
    ItemTokensAre(items, false, close);
    AtConcat(ts, i, Tokens(items[0].form), [close]);
    AtTok(ts, End(i, items[0].form), close);
  }

  lemma FirstItem(ts: seq<Token>, i: nat, items: seq<Item>, trailing: bool, close: Token)
    requires items != [] && (|items| > 1 || trailing) && ItemsStand(ts, i, items, trailing, close)
    ensures var f := items[0].form; var j := End(i, f);
            && Stands(ts, i, f) && KindAt(ts, j) == items[0].comma.kind
            && ItemsStand(ts, j + 1, items[1..], trailing, close)
            && ItemsEnd(i, items, trailing, close) == ItemsEnd(j + 1, items[1..], trailing, close)
  {
    hide ItemTokens, Tokens;
    ItemTokensAre(items, trailing, close);
    AtAround(ts, i, Tokens(items[0].form), items[0].comma, ItemTokens(items[1..], trailing, close));
  }

  /** The token at `i` cannot extend an expression for level `k`. */
  ghost predicate Stops(ts: seq<Token>, i: nat, k: nat) {
    var kind := KindAt(ts, i);
    && !kind.LParen? && !kind.Dot? && !kind.LBracket?
    && (k <= JoinLevel(kind) ==> JoinLevel(kind) == TERNARY)
    && (k == TERNARY ==> (kind.Question? ==> StartsGuard(KindAt(ts, i + 1)))
                         && !(kind.Bang? && KindAt(ts, i + 1).KwReturn?))
  }

  // ---------------------------------------------------------------- one step of the parser

  lemma TernaryStep(ts: seq<Token>, i: nat, c: Parsed, a: Parsed, b: Parsed)
    requires i <= |ts| && c == ParseLadder(ts, i, PIPELINE) && c.Ok?
    requires KindAt(ts, c.next).Question? && !StartsGuard(KindAt(ts, c.next + 1))
    requires a == ParseLadder(ts, c.next + 1, PIPELINE) && a.Ok? && KindAt(ts, a.next).Bang?
    requires b == ParseExpression(ts, a.next + 1) && b.Ok?
    ensures ParseExpression(ts, i) == Ok(Ternary(c.e, a.e, b.e), b.next)
  {
  }

  lemma PlainStep(ts: seq<Token>, i: nat, c: Parsed)
    requires i <= |ts| && c == ParseLadder(ts, i, PIPELINE) && c.Ok? && Stops(ts, c.next, TERNARY)
    ensures ParseExpression(ts, i) == c
  {
  }

  lemma JoinStep(ts: seq<Token>, i: nat, k: nat, left: Expr, j: nat, right: Parsed)
    requires i <= |ts| && j < |ts| && PIPELINE <= k < UNARY
    requires ParseLadder(ts, i, k) == ParseRest(ts, left, j, k) && JoinLevel(KindAt(ts, j)) == k
    requires right == ParseLadder(ts, j + 1, k + 1) && right.Ok?
    ensures ParseLadder(ts, i, k) == ParseRest(ts, Join(KindAt(ts, j), left, right.e), right.next, k)
  {
  }

  lemma LadderStep(ts: seq<Token>, i: nat, k: nat, first: Parsed)
    requires i <= |ts| && PIPELINE <= k < UNARY && first == ParseLadder(ts, i, k + 1) && first.Ok?
    ensures ParseLadder(ts, i, k) == ParseRest(ts, first.e, first.next, k)
  {
  }

  lemma CallStep(ts: seq<Token>, acc: Expr, j: nat, args: ParsedAll)
    requires j < |ts| && KindAt(ts, j).LParen? && args == ParseArguments(ts, j + 1) && args.OkAll?
    ensures ParsePostfix(ts, acc, j) == ParsePostfix(ts, Call(acc, args.es), args.next)
  {
  }

  lemma PrimaryStep(ts: seq<Token>, i: nat, p: Parsed)
    requires i <= |ts| && p == ParsePrimary(ts, i) && p.Ok?
    ensures ParseCall(ts, i) == ParsePostfix(ts, p.e, p.next)
  {
  }

  lemma MemberStep(ts: seq<Token>, acc: Expr, j: nat, name: string)
    requires j + 1 < |ts| && KindAt(ts, j).Dot? && PropertyName(KindAt(ts, j + 1)) == Some(name)
    ensures ParsePostfix(ts, acc, j) == ParsePostfix(ts, Member(acc, name), j + 2)
  {
  }

  lemma IndexStep(ts: seq<Token>, acc: Expr, j: nat, index: Parsed)
    requires j < |ts| && KindAt(ts, j).LBracket? && index == ParseExpression(ts, j + 1) && index.Ok?
    requires KindAt(ts, index.next).RBracket?
    ensures ParsePostfix(ts, acc, j) == ParsePostfix(ts, Index(acc, index.e), index.next + 1)
  {
  }

  lemma GroupStep(ts: seq<Token>, i: nat, inner: Parsed)
    requires i < |ts| && KindAt(ts, i).LParen? && !KindAt(ts, i + 1).RParen?
    requires inner == ParseExpression(ts, i + 1) && inner.Ok? && KindAt(ts, inner.next).RParen?
    ensures ParsePrimary(ts, i) == Ok(inner.e, inner.next + 1)
  {
  }

  lemma UnaryStep(ts: seq<Token>, i: nat, inner: Parsed)
    requires i < |ts| && (KindAt(ts, i) == Op(Sub) || KindAt(ts, i).Bang?)
    requires inner == ParseUnary(ts, i + 1) && inner.Ok?
    ensures ParseUnary(ts, i) == Ok(Unary(if KindAt(ts, i).Bang? then Not else Neg, inner.e), inner.next)
  {
  }

  lemma ConsStep(ts: seq<Token>, i: nat, close: Kind, head: Parsed, tail: ParsedAll)
    requires i <= |ts| && (close.RParen? || close.RBracket?)
    requires KindAt(ts, i).Word? ==> !KindAt(ts, i + 1).Colon?
    requires head == ParseExpression(ts, i) && head.Ok? && KindAt(ts, head.next).Comma?
    requires tail == ParseItems(ts, head.next + 1, close) && tail.OkAll?
    ensures ParseItems(ts, i, close) == OkAll([head.e] + tail.es, tail.next)
  {
  }

  lemma LastStep(ts: seq<Token>, i: nat, close: Kind, head: Parsed)
    requires i <= |ts| && (close.RParen? || close.RBracket?)
    requires KindAt(ts, i).Word? ==> !KindAt(ts, i + 1).Colon?
    requires head == ParseExpression(ts, i) && head.Ok? && KindAt(ts, head.next) == close
    ensures ParseItems(ts, i, close) == OkAll([head.e], head.next + 1)
  {
  }

  lemma TupleConsStep(ts: seq<Token>, i: nat, head: Parsed, tail: ParsedAll)
    requires i <= |ts| && !KindAt(ts, i).RParen?
    requires head == ParseExpression(ts, i) && head.Ok? && KindAt(ts, head.next).Comma?
    requires tail == ParseTuple(ts, head.next + 1) && tail.OkAll?
    ensures ParseTuple(ts, i) == OkAll([head.e] + tail.es, tail.next)
  {
    hide ParseExpression;
  }

  lemma TupleLastStep(ts: seq<Token>, i: nat, head: Parsed)
    requires i <= |ts| && !KindAt(ts, i).RParen?
    requires head == ParseExpression(ts, i) && head.Ok? && KindAt(ts, head.next).RParen?
    ensures ParseTuple(ts, i) == OkAll([head.e], head.next + 1)
  {
    hide ParseExpression;
  }

  lemma TupleEndStep(ts: seq<Token>, i: nat)
    requires i < |ts| && KindAt(ts, i).RParen?
    ensures ParseTuple(ts, i) == OkAll([], i + 1)
  {
  }

  lemma ParenListStep(ts: seq<Token>, i: nat, first: Parsed, rest: ParsedAll)
    requires i < |ts| && KindAt(ts, i).LParen? && !KindAt(ts, i + 1).RParen?
    requires first == ParseExpression(ts, i + 1) && first.Ok? && KindAt(ts, first.next).Comma?
    requires rest == ParseTuple(ts, first.next + 1) && rest.OkAll?
    ensures ParsePrimary(ts, i) == Ok(List([first.e] + rest.es), rest.next)
  {
  }

  // ---------------------------------------------------------------- first tokens

  predicate CanStart(kind: Kind) {
    !StartsGuard(kind) && !kind.RParen? && !kind.RBracket? && !kind.Comma? && !kind.Colon? && !kind.Eof?
  }

  /** How a form starts; a first word is not followed by a colon. */
  lemma {:induction false} FormStarts(ts: seq<Token>, i: nat, f: Form)
    requires WellFormed(f) && Stands(ts, i, f) && !KindAt(ts, End(i, f)).Colon?
    ensures CanStart(KindAt(ts, i))
    ensures Rank(f) >= CALL ==> KindAt(ts, i) != Op(Sub) && !KindAt(ts, i).Bang?
    ensures KindAt(ts, i).Word? ==> !KindAt(ts, i + 1).Colon?
    decreases f
  {
    hide Tokens, JoinLevel;
    match f
    case Leaf(_) => LeafParts(ts, i, f);
    case Group(_, _, _) => GroupParts(ts, i, f);
    case Items(_, _, _, _) => ItemsParts(ts, i, f);
    case Prefix(_, _) => PrefixParts(ts, i, f);
    case Infix(left, op, _) =>
      InfixParts(ts, i, f);
      JoinsAreNoColons(op.kind);
      FormStarts(ts, i, left);
    case Choice(cond, _, _, _, _) => ChoiceParts(ts, i, f); FormStarts(ts, i, cond);
    case Apply(callee, _, _, _) => ApplyParts(ts, i, f); FormStarts(ts, i, callee);
    case Access(target, _, _) => AccessParts(ts, i, f); FormStarts(ts, i, target);
    case Subscript(base, _, _, _) => SubscriptParts(ts, i, f); FormStarts(ts, i, base);
  }

  lemma JoinsAreNoColons(kind: Kind)
    requires JoinLevel(kind) > TERNARY
    ensures !kind.Colon? && (kind.Op? || kind.Tilde?) && PIPELINE <= JoinLevel(kind) < UNARY
  {
  }

  // ---------------------------------------------------------------- the parser reads every form

  /** Parsing the tokens of a form at its level, or below, returns its tree and stops right
      after them, before any token that cannot extend it. */
  lemma {:induction false} ParseForm(ts: seq<Token>, i: nat, f: Form, k: nat)
    requires WellFormed(f) && i <= |ts| && k <= Rank(f) && Stands(ts, i, f)
    requires Stops(ts, End(i, f), k) && !KindAt(ts, End(i, f)).Colon?
    ensures End(i, f) <= |ts| && ParseAt(ts, i, k) == Ok(Tree(f), End(i, f))
    decreases f, 100 - 5 * k
  {
    hide ParseExpression, ParseUnary, ParseCall, ParsePrimary, Tokens, Tree;
    if k == TERNARY {
      if f.Choice? {
        ChoiceTrip(ts, i, f);
      } else {
        assert Rank(f) >= PIPELINE by { OnlyChoices(f); }
        ParseForm(ts, i, f, PIPELINE);
        PlainStep(ts, i, ParseLadder(ts, i, PIPELINE));
      }
    } else if k < UNARY {
      LadderReaches(ts, i, f, k);
    } else if k == UNARY {
      PrefixTrip(ts, i, f);
    } else if k == CALL {
      CallReaches(ts, i, f);
    } else {
      PrimaryTrip(ts, i, f);
    }
  }

  lemma OnlyChoices(f: Form)
    requires WellFormed(f) && !f.Choice?
    ensures Rank(f) >= PIPELINE
  {
    hide JoinLevel;
    if f.Infix? { JoinsAreNoColons(f.op.kind); }
  }

  lemma {:induction false} ChoiceTrip(ts: seq<Token>, i: nat, f: Form)
    requires f.Choice? && WellFormed(f) && i <= |ts| && Stands(ts, i, f)
    requires Stops(ts, End(i, f), TERNARY) && !KindAt(ts, End(i, f)).Colon?
    ensures End(i, f) <= |ts| && ParseExpression(ts, i) == Ok(Tree(f), End(i, f))
    decreases f, 99
  {
    hide ParseExpression, ParseLadder, Tokens;
    ChoiceParts(ts, i, f);
    var j := End(i, f.cond);
    var m := End(j + 1, f.a);
    FormStarts(ts, j + 1, f.a);
    ParseForm(ts, i, f.cond, PIPELINE);
    ParseForm(ts, j + 1, f.a, PIPELINE);
    ParseForm(ts, m + 1, f.b, TERNARY);
    TernaryStep(ts, i, ParseLadder(ts, i, PIPELINE), ParseLadder(ts, j + 1, PIPELINE), ParseExpression(ts, m + 1));
  }

  /** A ladder level reaches its loop with everything of its form already built. */
  lemma {:induction false} LadderReaches(ts: seq<Token>, i: nat, f: Form, k: nat)
    requires WellFormed(f) && i <= |ts| && PIPELINE <= k < UNARY && k <= Rank(f) && Stands(ts, i, f)
    requires Stops(ts, End(i, f), k + 1) && !KindAt(ts, End(i, f)).Colon?
    ensures End(i, f) <= |ts| && ParseLadder(ts, i, k) == ParseRest(ts, Tree(f), End(i, f), k)
    decreases f, 99 - 5 * k
  {
    hide ParseLadder, ParseRest, Tokens, JoinLevel;
    if Rank(f) == k {
      assert f.Infix?;
      InfixParts(ts, i, f);
      var j := End(i, f.left);
      JoinsAreNoColons(f.op.kind);
      StopsHere(ts, j, k);
      LadderReaches(ts, i, f.left, k);
      ParseForm(ts, j + 1, f.right, k + 1);
      JoinStep(ts, i, k, Tree(f.left), j, ParseLadder(ts, j + 1, k + 1));
    } else {
      ParseForm(ts, i, f, k + 1);
      LadderStep(ts, i, k, ParseLadder(ts, i, k + 1));
    }
  }

  /** An operator stops what binds tighter. */
  lemma StopsHere(ts: seq<Token>, j: nat, k: nat)
    requires JoinLevel(KindAt(ts, j)) == k && PIPELINE <= k
    ensures Stops(ts, j, k + 1)
  {
  }

  lemma ClosersStop(ts: seq<Token>, j: nat)
    requires var kind := KindAt(ts, j); kind.RParen? || kind.RBracket? || kind.Comma?
    ensures Stops(ts, j, TERNARY)
  {
  }

  lemma {:induction false} PrefixTrip(ts: seq<Token>, i: nat, f: Form)
    requires WellFormed(f) && i <= |ts| && Rank(f) >= UNARY && Stands(ts, i, f)
    requires Stops(ts, End(i, f), UNARY) && !KindAt(ts, End(i, f)).Colon?
    ensures End(i, f) <= |ts| && ParseUnary(ts, i) == Ok(Tree(f), End(i, f))
    decreases f, 39
  {
    hide ParseCall, ParsePrimary, Tokens, JoinLevel;
    if f.Prefix? {
      PrefixParts(ts, i, f);
      PrefixTrip(ts, i + 1, f.operand);
      UnaryStep(ts, i, ParseUnary(ts, i + 1));
    } else {
      assert Rank(f) >= CALL by { JoinsStayBelow(f); }
      ParseForm(ts, i, f, CALL);
      FormStarts(ts, i, f);
    }
  }

  lemma JoinsStayBelow(f: Form)
    requires WellFormed(f) && Rank(f) >= UNARY && !f.Prefix?
    ensures Rank(f) >= CALL && !f.Infix?
  {
  }

  /** The postfix loop is reached with everything of the form already built. */
  lemma {:induction false} CallReaches(ts: seq<Token>, i: nat, f: Form)
    requires WellFormed(f) && i <= |ts| && Rank(f) >= CALL && Stands(ts, i, f) && !KindAt(ts, End(i, f)).Colon?
    requires IsMapLeaf(f) ==> !KindAt(ts, End(i, f)).LParen?
    ensures End(i, f) <= |ts| && ParseCall(ts, i) == ParsePostfix(ts, Tree(f), End(i, f))
    decreases f, 33
  {
    hide ParseCall, ParsePrimary, Tokens, JoinLevel;
    if f.Apply? || f.Access? || f.Subscript? {
      PostfixReaches(ts, i, f);
    } else {
      PrimaryTrip(ts, i, f);
      PrimaryStep(ts, i, ParsePrimary(ts, i));
    }
  }

  lemma {:induction false} PostfixReaches(ts: seq<Token>, i: nat, f: Form)
    requires WellFormed(f) && i <= |ts| && Stands(ts, i, f) && (f.Apply? || f.Access? || f.Subscript?)
    ensures End(i, f) <= |ts| && ParseCall(ts, i) == ParsePostfix(ts, Tree(f), End(i, f))
    decreases f, 32
  {
    hide ParseCall, ParsePrimary, ParsePostfix, ParseExpression, ParseArguments, Tokens, JoinLevel;
    match f
    case Apply(callee, _, args, close) =>
      ApplyParts(ts, i, f);
      var j := End(i, callee);
      CallReaches(ts, i, callee);
      ArgumentsTrip(ts, j + 1, args, close);
      CallStep(ts, Tree(callee), j, ParseArguments(ts, j + 1));
    case Access(target, _, name) =>
      AccessParts(ts, i, f);
      CallReaches(ts, i, target);
      MemberStep(ts, Tree(target), End(i, target), PropertyName(name.kind).value);
    case Subscript(base, _, position, _) =>
      SubscriptParts(ts, i, f);
      var j := End(i, base);
      CallReaches(ts, i, base);
      ClosersStop(ts, End(j + 1, position));
      ParseForm(ts, j + 1, position, TERNARY);
      IndexStep(ts, Tree(base), j, ParseExpression(ts, j + 1));
  }

  lemma {:induction false} PrimaryTrip(ts: seq<Token>, i: nat, f: Form)
    requires WellFormed(f) && i <= |ts| && Rank(f) == PRIMARY && Stands(ts, i, f)
    requires IsMapLeaf(f) ==> !KindAt(ts, End(i, f)).LParen?
    ensures End(i, f) <= |ts| && ParsePrimary(ts, i) == Ok(Tree(f), End(i, f))
    decreases f, 29
  {
    hide ParseExpression, Tokens, JoinLevel;
    assert f.Leaf? || f.Group? || f.Items? by { OnlyPrimaries(f); }
    match f
    case Group(_, inner, _) =>
      GroupParts(ts, i, f);
      FormStarts(ts, i + 1, inner);
      ClosersStop(ts, End(i + 1, inner));
      ParseForm(ts, i + 1, inner, TERNARY);
      GroupStep(ts, i, ParseExpression(ts, i + 1));
    case Items(_, _, _, _) => ItemsFormTrip(ts, i, f);
    case _ => LeafParts(ts, i, f);
  }

  lemma OnlyPrimaries(f: Form)
    requires Rank(f) == PRIMARY
    ensures f.Leaf? || f.Group? || f.Items?
  {
  }

  lemma {:induction false} ItemsFormTrip(ts: seq<Token>, i: nat, f: Form)
    requires f.Items? && WellFormed(f) && i <= |ts| && Stands(ts, i, f)
    ensures End(i, f) <= |ts| && ParsePrimary(ts, i) == Ok(Tree(f), End(i, f))
    decreases f, 28
  {
    hide ParseExpression, ParseItems, ParseTuple, ParsePrimary, ItemTokens, Tokens, JoinLevel, ParseLadder;
    ItemsParts(ts, i, f);
    var items := f.items;
    if items == [] {
      NoItems(ts, i + 1, f.trailing, f.close);
      EmptyStep(ts, i);
    } else if f.open.kind.LBracket? {
      ItemsTrip(ts, i + 1, items, f.close);
      BracketStep(ts, i, ParseItems(ts, i + 1, RBracket));
    } else {
      var item, rest := items[0], items[1..];
      assert WellFormedItem(item) && AllWellFormed(rest);
      assert Tree(f) == List([ItemTree(item)] + Trees(rest));
      FirstItem(ts, i + 1, items, f.trailing, f.close);
      var j := End(i + 1, item.form);
      FormStarts(ts, i + 1, item.form);
      ClosersStop(ts, j);
      ItemTrip(ts, i + 1, item);
      TupleTrip(ts, j + 1, rest, f.trailing, f.close);
      ParenListStep(ts, i, ParseExpression(ts, i + 1), ParseTuple(ts, j + 1));
    }
  }

  lemma EmptyStep(ts: seq<Token>, i: nat)
    requires i < |ts|
    ensures KindAt(ts, i).LParen? && KindAt(ts, i + 1).RParen? ==> ParsePrimary(ts, i) == Ok(Unit, i + 2)
    ensures KindAt(ts, i).LBracket? && KindAt(ts, i + 1).RBracket? ==> ParsePrimary(ts, i) == Ok(List([]), i + 2)
  {
  }

  lemma BracketStep(ts: seq<Token>, i: nat, items: ParsedAll)
    requires i < |ts| && KindAt(ts, i).LBracket? && !KindAt(ts, i + 1).RBracket?
    requires items == ParseItems(ts, i + 1, RBracket) && items.OkAll?
    ensures ParsePrimary(ts, i) == Ok(List(items.es), items.next)
  {
  }

  lemma {:induction false} ArgumentsTrip(ts: seq<Token>, i: nat, items: seq<Item>, close: Token)
    requires AllWellFormed(items) && close.kind.RParen? && i <= |ts| && ItemsStand(ts, i, items, false, close)
    ensures ItemsEnd(i, items, false, close) <= |ts|
    ensures ParseArguments(ts, i) == OkAll(Trees(items), ItemsEnd(i, items, false, close))
    decreases items, 2
  {
    hide ParseItems, ItemTokens;
    if items == [] { NoItems(ts, i, false, close); } else { ItemsTrip(ts, i, items, close); }
  }

  lemma {:induction false} ItemsTrip(ts: seq<Token>, i: nat, items: seq<Item>, close: Token)
    requires items != [] && AllWellFormed(items) && (close.kind.RParen? || close.kind.RBracket?)
    requires i <= |ts| && ItemsStand(ts, i, items, false, close)
    ensures ItemsEnd(i, items, false, close) <= |ts|
    ensures ParseItems(ts, i, close.kind) == OkAll(Trees(items), ItemsEnd(i, items, false, close))
    ensures CanStart(KindAt(ts, i))
    decreases items, 1
  {
    hide ParseItems, ParseExpression, Tokens, ItemTokens;
    var f := items[0].form;
    var j := End(i, f);
    if |items| == 1 {
      LastItem(ts, i, items, close);
      FormStarts(ts, i, f);
      ItemTrip(ts, i, items[0]);
      LastStep(ts, i, close.kind, ParseExpression(ts, i));
      assert items[1..] == [];
    } else {
      FirstItem(ts, i, items, false, close);
      FormStarts(ts, i, f);
      ItemTrip(ts, i, items[0]);
      ItemsTrip(ts, j + 1, items[1..], close);
      ConsStep(ts, i, close.kind, ParseExpression(ts, i), ParseItems(ts, j + 1, close.kind));
    }
  }

  lemma {:induction false} TupleTrip(ts: seq<Token>, i: nat, items: seq<Item>, trailing: bool, close: Token)
    requires AllWellFormed(items) && close.kind.RParen? && (items == [] ==> trailing)
    requires i <= |ts| && ItemsStand(ts, i, items, trailing, close)
    ensures ItemsEnd(i, items, trailing, close) <= |ts|
    ensures ParseTuple(ts, i) == OkAll(Trees(items), ItemsEnd(i, items, trailing, close))
    decreases items, 1
  {
    hide ParseExpression, ParseTuple, Tokens, ItemTokens;
    if items == [] {
      NoItems(ts, i, trailing, close);
      TupleEndStep(ts, i);
    } else if |items| == 1 && !trailing {
      LastItem(ts, i, items, close);
      FormStarts(ts, i, items[0].form);
      ItemTrip(ts, i, items[0]);
      TupleLastStep(ts, i, ParseExpression(ts, i));
      assert items[1..] == [];
    } else {
      FirstItem(ts, i, items, trailing, close);
      var j := End(i, items[0].form);
      FormStarts(ts, i, items[0].form);
      ItemTrip(ts, i, items[0]);
      TupleTrip(ts, j + 1, items[1..], trailing, close);
      TupleConsStep(ts, i, ParseExpression(ts, i), ParseTuple(ts, j + 1));
    }
  }

  lemma {:induction false} ItemTrip(ts: seq<Token>, i: nat, item: Item)
    requires WellFormedItem(item) && i <= |ts| && Stands(ts, i, item.form)
    requires Stops(ts, End(i, item.form), TERNARY) && !KindAt(ts, End(i, item.form)).Colon?
    ensures End(i, item.form) <= |ts| && ParseExpression(ts, i) == Ok(ItemTree(item), End(i, item.form))
    decreases item, 0
  {
    ParseForm(ts, i, item.form, TERNARY);
  }

  /** A whole form parses to its tree, with no tokens left. */
  lemma FormsParse(f: Form)
    requires WellFormed(f)
    ensures ParseExpression(Tokens(f), 0) == Ok(Tree(f), |Tokens(f)|)
  {
    hide ParseExpression, Tokens, WellFormed;
    var ts := Tokens(f);
    assert ts[0..|ts|] == ts;
    ParseForm(ts, 0, f, TERNARY);
  }

  // ---------------------------------------------------------------- the round trip

  /** The tokens from `i` on are `e` as rendered for level `k`. */
  ghost predicate Spelled(ts: seq<Token>, i: nat, e: Expr, k: nat)
    requires Renderable(e)
  {
    At(ts, i, Render(e, k))
  }

  /** Parsing the tokens of a tree rendered for a level returns the tree and stops right
      after them. */
  lemma ParseSpelled(ts: seq<Token>, i: nat, e: Expr, k: nat)
    requires Renderable(e) && i <= |ts| && k <= PRIMARY && Spelled(ts, i, e, k)
    requires Stops(ts, i + |Render(e, k)|, k) && !KindAt(ts, i + |Render(e, k)|).Colon?
    ensures i + |Render(e, k)| <= |ts| && ParseAt(ts, i, k) == Ok(e, i + |Render(e, k)|)
  {
    hide Render, Tokens, FormOf, ParseAt, WellFormed;
    FormOfRenders(e, k);
    ParseForm(ts, i, FormOf(e, k), k);
  }

  /** Parsing a rendered expression returns exactly that expression and no tokens are left. */
  lemma ParseUndoesRender(e: Expr)
    requires Renderable(e)
    ensures ParseExpression(Render(e, TERNARY), 0) == Ok(e, |Render(e, TERNARY)|)
  {
    hide ParseExpression, Render, Tokens, FormOf, WellFormed;
    FormOfRenders(e, TERNARY);
    FormsParse(FormOf(e, TERNARY));
  }

  /** So two trees never render alike. */
  lemma RenderIsInjective(a: Expr, b: Expr)
    requires Renderable(a) && Renderable(b) && Render(a, TERNARY) == Render(b, TERNARY)
    ensures a == b
  {
    hide ParseExpression, Render;
    ParseUndoesRender(a);
    ParseUndoesRender(b);
  }

  lemma TernaryTokens(c: Expr, a: Expr, b: Expr)
    requires Renderable(Ternary(c, a, b))
    ensures Render(Ternary(c, a, b), TERNARY) ==
            Render(c, PIPELINE) + (Tok(Question) + (Render(a, PIPELINE) + (Tok(Bang) + Render(b, TERNARY))))
  {
  }

  // ---------------------------------------------------------------- calls of `map`

  /** A call written without parentheses around the name that is called. */
  function BareCall(name: string, span: nat, args: seq<Expr>): seq<Token>
    requires AllRenderable(args)
  {
    [Token(Word(name), span)] + (Tok(LParen) + RenderItems(args, RParen))
  }

  /** What the first primary fails with, the whole ladder fails with. */
  lemma {:induction false} LadderFails(ts: seq<Token>, i: nat, k: nat)
    requires i <= |ts| && PIPELINE <= k <= UNARY && ParsePrimary(ts, i).Err?
    requires KindAt(ts, i) != Op(Sub) && !KindAt(ts, i).Bang?
    ensures ParseLadder(ts, i, k) == ParsePrimary(ts, i)
    decreases UNARY - k
  {
    hide ParsePrimary, ParseExpression;
    if k < UNARY {
      LadderFails(ts, i, k + 1);
    } else {
      assert ParseCall(ts, i) == ParsePrimary(ts, i);
      assert ParseUnary(ts, i) == ParseCall(ts, i);
    }
  }

  /** A call written this way parses to the call exactly when the name is not `map`, which would
      start a map literal; the printer's parentheses around `map` are needed. */
  lemma BareCallsParse(name: string, span: nat, args: seq<Expr>)
    requires AllRenderable(args)
    ensures var call, ts := Call(Identifier(name, span), args), BareCall(name, span, args);
            && (ParseExpression(ts, 0) == Ok(call, |ts|) <==> name != "map")
            && ParseExpression(Render(call, TERNARY), 0) == Ok(call, |Render(call, TERNARY)|)
  {
    var call, ts := Call(Identifier(name, span), args), BareCall(name, span, args);
    ParseUndoesRender(call);
    if name == "map" {
      assert ts[0].kind == Word("map") && ts[1].kind == LParen;
      assert ParsePrimary(ts, 0) == Err(Unmodelled);
      LadderFails(ts, 0, PIPELINE);
      hide Render, RenderItems, ParsePrimary, ParseLadder;
      assert ParseExpression(ts, 0).Err?;
    } else {
      CallsRender(name, span, args);
    }
  }

  lemma CallsRender(name: string, span: nat, args: seq<Expr>)
    requires AllRenderable(args) && name != "map"
    ensures Render(Call(Identifier(name, span), args), TERNARY) == BareCall(name, span, args)
  {
  }
}
