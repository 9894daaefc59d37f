/** Whatever the parser accepts is written in a form of the grammar: together with the other
    direction, the parser reads exactly the forms, each as its tree, and no text has two. */
module Derivations {
  import opened Ast
  import opened Grammar
  import opened Forms
  import opened RoundTrip

  // ---------------------------------------------------------------- putting pieces together

  lemma Glue(ts: seq<Token>, i: nat, a: seq<Token>, b: seq<Token>)
    requires At(ts, i, a) && At(ts, i + |a|, b)
    ensures At(ts, i, a + b)
  {
    assert ts[i..i + |a + b|] == ts[i..i + |a|] + ts[i + |a|..i + |a| + |b|];
  }

  lemma One(ts: seq<Token>, i: nat)
    requires i < |ts|
    ensures At(ts, i, [ts[i]])
  {
  }

  lemma GlueAround(ts: seq<Token>, i: nat, a: seq<Token>, b: seq<Token>)
    requires At(ts, i, a) && i + |a| < |ts| && At(ts, i + |a| + 1, b)
    ensures At(ts, i, a + ([ts[i + |a|]] + b))
  {
    var token := ts[i + |a|];
    One(ts, i + |a|);
    Glue(ts, i + |a|, [token], b);
    Glue(ts, i, a, [token] + b);
  }

  lemma GlueFirst(ts: seq<Token>, i: nat, b: seq<Token>)
    requires i < |ts| && At(ts, i + 1, b)
    ensures At(ts, i, [ts[i]] + b)
  {
    One(ts, i);
    Glue(ts, i, [ts[i]], b);
  }

  /** What is parsed from `start` up to `next` is written as this form, for level `k`. */
  ghost predicate Derives(f: Form, ts: seq<Token>, start: nat, e: Expr, next: nat, k: nat) {
    WellFormed(f) && Rank(f) >= k && Tree(f) == e && Stands(ts, start, f) && End(start, f) == next
  }

  ghost predicate ItemsDerive(items: seq<Item>, trailing: bool, close: Token, ts: seq<Token>, start: nat,
                              r: ParsedAll)
    requires r.OkAll?
  {
    && AllWellFormed(items) && Trees(items) == r.es
    && ItemsStand(ts, start, items, trailing, close) && ItemsEnd(start, items, trailing, close) == r.next
  }

  // ---------------------------------------------------------------- building forms

  lemma BuildChoice(ts: seq<Token>, i: nat, c: Form, a: Form, b: Form, j: nat, m: nat, n: nat)
    requires Derives(c, ts, i, Tree(c), j, PIPELINE) && j < |ts| && ts[j].kind.Question?
    requires Derives(a, ts, j + 1, Tree(a), m, PIPELINE) && m < |ts| && ts[m].kind.Bang?
    requires Derives(b, ts, m + 1, Tree(b), n, TERNARY)
    ensures Derives(Choice(c, ts[j], a, ts[m], b), ts, i, Ternary(Tree(c), Tree(a), Tree(b)), n, TERNARY)
  {
    hide WellFormed, Rank, Tokens, Tree;
    GlueAround(ts, j + 1, Tokens(a), Tokens(b));
    GlueAround(ts, i, Tokens(c), Tokens(a) + ([ts[m]] + Tokens(b)));
    ChoiceIsWellFormed(c, ts[j], a, ts[m], b);
  }

  lemma ChoiceIsWellFormed(c: Form, question: Token, a: Form, bang: Token, b: Form)
    requires WellFormed(c) && Rank(c) >= PIPELINE && WellFormed(a) && Rank(a) >= PIPELINE && WellFormed(b)
    requires question.kind.Question? && bang.kind.Bang?
    ensures var f := Choice(c, question, a, bang, b);
            && WellFormed(f) && Rank(f) == TERNARY && Tree(f) == Ternary(Tree(c), Tree(a), Tree(b))
            && Tokens(f) == Tokens(c) + ([question] + (Tokens(a) + ([bang] + Tokens(b))))
  {
    hide JoinLevel;
  }

  lemma BuildInfix(ts: seq<Token>, i: nat, l: Form, r: Form, j: nat, n: nat, k: nat)
    requires j < |ts| && JoinLevel(ts[j].kind) == k && PIPELINE <= k < UNARY
    requires Derives(l, ts, i, Tree(l), j, k) && Derives(r, ts, j + 1, Tree(r), n, k + 1)
    ensures Derives(Infix(l, ts[j], r), ts, i, Join(ts[j].kind, Tree(l), Tree(r)), n, k)
  {
    hide JoinLevel, WellFormed, Rank, Tokens, Tree;
    GlueAround(ts, i, Tokens(l), Tokens(r));
    InfixIsWellFormed(l, ts[j], r);
  }

  lemma InfixIsWellFormed(l: Form, op: Token, r: Form)
    requires JoinLevel(op.kind) > TERNARY && WellFormed(l) && Rank(l) >= JoinLevel(op.kind)
    requires WellFormed(r) && Rank(r) > JoinLevel(op.kind)
    ensures var f := Infix(l, op, r);
            && WellFormed(f) && Rank(f) == JoinLevel(op.kind) && Tree(f) == Join(op.kind, Tree(l), Tree(r))
            && Tokens(f) == Tokens(l) + ([op] + Tokens(r))
  {
    JoinsAreNoColons(op.kind);
    hide JoinLevel;
  }

  lemma BuildPrefix(ts: seq<Token>, i: nat, f: Form, n: nat)
    requires i < |ts| && (ts[i].kind == Op(Sub) || ts[i].kind.Bang?) && Derives(f, ts, i + 1, Tree(f), n, UNARY)
    ensures Derives(Prefix(ts[i], f), ts, i, Unary(if ts[i].kind.Bang? then Not else Neg, Tree(f)), n, UNARY)
  {
    hide WellFormed, Rank, Tokens, Tree;
    GlueFirst(ts, i, Tokens(f));
    PrefixIsWellFormed(ts[i], f);
  }

  lemma PrefixIsWellFormed(sign: Token, f: Form)
    requires (sign.kind == Op(Sub) || sign.kind.Bang?) && WellFormed(f) && Rank(f) >= UNARY
    ensures var g := Prefix(sign, f);
            && WellFormed(g) && Rank(g) == UNARY && Tokens(g) == [sign] + Tokens(f)
            && Tree(g) == Unary(if sign.kind.Bang? then Not else Neg, Tree(f))
  {
    hide JoinLevel;
  }

  lemma BuildGroup(ts: seq<Token>, i: nat, f: Form, n: nat)
    requires i < |ts| && ts[i].kind.LParen? && n < |ts| && ts[n].kind.RParen?
    requires Derives(f, ts, i + 1, Tree(f), n, TERNARY)
    ensures Derives(Group(ts[i], f, ts[n]), ts, i, Tree(f), n + 1, PRIMARY)
  {
    hide WellFormed, Rank, Tokens, Tree;
    One(ts, n);
    Glue(ts, i + 1, Tokens(f), [ts[n]]);
    GlueFirst(ts, i, Tokens(f) + [ts[n]]);
    GroupIsWellFormed(ts[i], f, ts[n]);
  }

  lemma GroupIsWellFormed(open: Token, f: Form, close: Token)
    requires open.kind.LParen? && WellFormed(f) && close.kind.RParen?
    ensures var g := Group(open, f, close);
            && WellFormed(g) && Rank(g) == PRIMARY && Tree(g) == Tree(f)
            && Tokens(g) == [open] + (Tokens(f) + [close])
  {
    hide JoinLevel;
  }

  lemma BuildApply(ts: seq<Token>, i: nat, f: Form, j: nat, items: seq<Item>, close: Token, args: ParsedAll)
    requires j < |ts| && ts[j].kind.LParen? && close.kind.RParen? && Derives(f, ts, i, Tree(f), j, CALL)
    requires !IsMapLeaf(f) && args.OkAll? && ItemsDerive(items, false, close, ts, j + 1, args)
    ensures Derives(Apply(f, ts[j], items, close), ts, i, Call(Tree(f), args.es), args.next, CALL)
  {
    hide WellFormed, Rank, Tokens, Tree, ItemTokens, AllWellFormed, Trees, IsMapLeaf;
    GlueAround(ts, i, Tokens(f), ItemTokens(items, false, close));
    ApplyIsWellFormed(f, ts[j], items, close);
  }

  lemma ApplyIsWellFormed(f: Form, open: Token, items: seq<Item>, close: Token)
    requires WellFormed(f) && Rank(f) >= CALL && !IsMapLeaf(f) && open.kind.LParen? && close.kind.RParen?
    requires AllWellFormed(items)
    ensures var g := Apply(f, open, items, close);
            && WellFormed(g) && Rank(g) == CALL && Tree(g) == Call(Tree(f), Trees(items))
            && Tokens(g) == Tokens(f) + ([open] + ItemTokens(items, false, close))
  {
    hide JoinLevel, AllWellFormed, Trees, ItemTokens;
  }

  lemma BuildAccess(ts: seq<Token>, i: nat, f: Form, j: nat)
    requires j + 1 < |ts| && ts[j].kind.Dot? && PropertyName(ts[j + 1].kind).Some?
    requires Derives(f, ts, i, Tree(f), j, CALL)
    ensures var property := PropertyName(ts[j + 1].kind).value;
            Derives(Access(f, ts[j], ts[j + 1]), ts, i, Member(Tree(f), property), j + 2, CALL)
  {
    hide PropertyName, WellFormed, Rank, Tokens, Tree;
    One(ts, j + 1);
    GlueAround(ts, i, Tokens(f), [ts[j + 1]]);
    AccessIsWellFormed(f, ts[j], ts[j + 1]);
  }

  lemma AccessIsWellFormed(f: Form, dot: Token, name: Token)
    requires WellFormed(f) && Rank(f) >= CALL && dot.kind.Dot? && PropertyName(name.kind).Some?
    ensures var g := Access(f, dot, name);
            && WellFormed(g) && Rank(g) == CALL && Tree(g) == Member(Tree(f), PropertyName(name.kind).value)
            && Tokens(g) == Tokens(f) + ([dot] + [name])
  {
    hide JoinLevel, PropertyName;
  }

  lemma BuildSubscript(ts: seq<Token>, i: nat, f: Form, j: nat, p: Form, n: nat)
    requires j < |ts| && ts[j].kind.LBracket? && n < |ts| && ts[n].kind.RBracket?
    requires Derives(f, ts, i, Tree(f), j, CALL) && Derives(p, ts, j + 1, Tree(p), n, TERNARY)
    ensures Derives(Subscript(f, ts[j], p, ts[n]), ts, i, Index(Tree(f), Tree(p)), n + 1, CALL)
  {
    hide WellFormed, Rank, Tokens, Tree;
    One(ts, n);
    Glue(ts, j + 1, Tokens(p), [ts[n]]);
    GlueAround(ts, i, Tokens(f), Tokens(p) + [ts[n]]);
    SubscriptIsWellFormed(f, ts[j], p, ts[n]);
  }

  lemma SubscriptIsWellFormed(f: Form, open: Token, p: Form, close: Token)
    requires WellFormed(f) && Rank(f) >= CALL && open.kind.LBracket? && WellFormed(p) && close.kind.RBracket?
    ensures var g := Subscript(f, open, p, close);
            && WellFormed(g) && Rank(g) == CALL && Tree(g) == Index(Tree(f), Tree(p))
            && Tokens(g) == Tokens(f) + ([open] + (Tokens(p) + [close]))
  {
    hide JoinLevel;
  }

  lemma BuildItems(ts: seq<Token>, i: nat, items: seq<Item>, trailing: bool, close: Token, r: ParsedAll)
    requires i < |ts| && r.OkAll? && ItemsDerive(items, trailing, close, ts, i + 1, r)
    requires WellBracketed(ts[i], |items|, trailing, close)
    ensures Derives(Items(ts[i], items, trailing, close), ts, i,
                    if ts[i].kind.LParen? && items == [] then Unit else List(r.es), r.next, PRIMARY)
  {
    hide WellFormed, Rank, Tokens, Tree, ItemTokens, AllWellFormed, Trees, WellBracketed;
    GlueFirst(ts, i, ItemTokens(items, trailing, close));
    ItemsAreWellFormed(ts[i], items, trailing, close);
  }

  lemma ItemsAreWellFormed(open: Token, items: seq<Item>, trailing: bool, close: Token)
    requires WellBracketed(open, |items|, trailing, close) && AllWellFormed(items)
    ensures var g := Items(open, items, trailing, close);
            && WellFormed(g) && Rank(g) == PRIMARY && Tokens(g) == [open] + ItemTokens(items, trailing, close)
            && Tree(g) == if open.kind.LParen? && items == [] then Unit else List(Trees(items))
  {
    hide JoinLevel, AllWellFormed, Trees, ItemTokens, WellBracketed;
  }

  lemma NoMore(ts: seq<Token>, i: nat, trailing: bool)
    requires i < |ts|
    ensures ItemsDerive([], trailing, ts[i], ts, i, OkAll([], i + 1))
  {
    One(ts, i);
  }

  lemma ConsAre(item: Item, items: seq<Item>)
    ensures var all := [item] + items;
            && (AllWellFormed(all) <==> WellFormed(item.form) && item.comma.kind.Comma? && AllWellFormed(items))
            && Trees(all) == [Tree(item.form)] + Trees(items)
    ensures AllWellFormed([]) && Trees([]) == []
  {
    hide Tree, WellFormed;
    assert ([item] + items)[1..] == items;
    assert ItemTree(item) == Tree(item.form);
    assert WellFormedItem(item) <==> WellFormed(item.form) && item.comma.kind.Comma?;
  }

  lemma BuildLast(ts: seq<Token>, i: nat, f: Form, n: nat)
    requires n < |ts| && Derives(f, ts, i, Tree(f), n, TERNARY)
    ensures ItemsDerive([Item(f, Mark(Comma))], false, ts[n], ts, i, OkAll([Tree(f)], n + 1))
  {
    hide Tokens, Tree, WellFormed, ItemTokens, AllWellFormed, Trees;
    var items := [Item(f, Mark(Comma))];
    assert items[1..] == [];
    ItemTokensAre(items, false, ts[n]);
    One(ts, n);
    Glue(ts, i, Tokens(f), [ts[n]]);
    ConsAre(items[0], []);
    assert items == [items[0]] + [];
  }

  lemma BuildCons(ts: seq<Token>, i: nat, f: Form, n: nat, items: seq<Item>, trailing: bool, close: Token,
                  rest: ParsedAll)
    requires n < |ts| && ts[n].kind.Comma? && Derives(f, ts, i, Tree(f), n, TERNARY)
    requires rest.OkAll? && ItemsDerive(items, trailing, close, ts, n + 1, rest) && (items == [] ==> trailing)
    ensures ItemsDerive([Item(f, ts[n])] + items, trailing, close, ts, i, OkAll([Tree(f)] + rest.es, rest.next))
  {
    hide Tokens, Tree, WellFormed, ItemTokens, AllWellFormed, Trees;
    var all := [Item(f, ts[n])] + items;
    assert all[1..] == items;
    ItemTokensAre(all, trailing, close);
    GlueAround(ts, i, Tokens(f), ItemTokens(items, trailing, close));
    ConsAre(Item(f, ts[n]), items);
  }

  // ---------------------------------------------------------------- the parser reads only forms

  lemma {:induction false} ExpressionDerives(ts: seq<Token>, i: nat) returns (f: Form)
    requires i <= |ts| && ParseExpression(ts, i).Ok?
    ensures var r := ParseExpression(ts, i); Derives(f, ts, i, r.e, r.next, TERNARY)
    decreases |ts| - i, 20
  {
    hide ParseLadder, Derives;
    var c := ParseLadder(ts, i, PIPELINE);
    f := LadderDerives(ts, i, PIPELINE);
    LowerRank(f, ts, i, c.e, c.next, PIPELINE, TERNARY);
    if KindAt(ts, c.next).Question? && !StartsGuard(KindAt(ts, c.next + 1)) {
      var a := ParseLadder(ts, c.next + 1, PIPELINE);
      var g := LadderDerives(ts, c.next + 1, PIPELINE);
      var b := ParseExpression(ts, a.next + 1);
      var h := ExpressionDerives(ts, a.next + 1);
      TreesAre(f, ts, i, c.e, c.next, PIPELINE);
      TreesAre(g, ts, c.next + 1, a.e, a.next, PIPELINE);
      TreesAre(h, ts, a.next + 1, b.e, b.next, TERNARY);
      BuildChoice(ts, i, f, g, h, c.next, a.next, b.next);
      f := Choice(f, ts[c.next], g, ts[a.next], h);
    }
  }

  lemma TreesAre(f: Form, ts: seq<Token>, i: nat, e: Expr, next: nat, k: nat)
    requires Derives(f, ts, i, e, next, k)
    ensures Tree(f) == e && Derives(f, ts, i, Tree(f), next, k)
  {
  }

  lemma LowerRank(f: Form, ts: seq<Token>, i: nat, e: Expr, next: nat, k: nat, m: nat)
    requires Derives(f, ts, i, e, next, k) && m <= k
    ensures Derives(f, ts, i, e, next, m)
  {
  }

  lemma {:induction false} LadderDerives(ts: seq<Token>, i: nat, k: nat) returns (f: Form)
    requires i <= |ts| && PIPELINE <= k <= UNARY && ParseLadder(ts, i, k).Ok?
    ensures var r := ParseLadder(ts, i, k); Derives(f, ts, i, r.e, r.next, k)
    decreases |ts| - i, 19 - k
  {
    hide ParseUnary, Derives;
    if k == UNARY {
      f := UnaryDerives(ts, i);
    } else {
      var first := ParseLadder(ts, i, k + 1);
      f := LadderDerives(ts, i, k + 1);
      LowerRank(f, ts, i, first.e, first.next, k + 1, k);
      f := RestDerives(ts, first.e, first.next, k, i, f);
    }
  }

  lemma {:induction false} RestDerives(ts: seq<Token>, acc: Expr, i: nat, k: nat, start: nat, g: Form) returns (f: Form)
    requires i <= |ts| && PIPELINE <= k < UNARY && Derives(g, ts, start, acc, i, k) && ParseRest(ts, acc, i, k).Ok?
    ensures var r := ParseRest(ts, acc, i, k); Derives(f, ts, start, r.e, r.next, k)
    decreases |ts| - i, 21
  {
    hide ParseLadder, Derives, Join;
    f := g;
    if JoinLevel(KindAt(ts, i)) == k {
      var rhs := ParseLadder(ts, i + 1, k + 1);
      var h := LadderDerives(ts, i + 1, k + 1);
      TreesAre(g, ts, start, acc, i, k);
      TreesAre(h, ts, i + 1, rhs.e, rhs.next, k + 1);
      BuildInfix(ts, start, g, h, i, rhs.next, k);
      f := RestDerives(ts, Join(KindAt(ts, i), acc, rhs.e), rhs.next, k, start, Infix(g, ts[i], h));
    }
  }

  lemma {:induction false} UnaryDerives(ts: seq<Token>, i: nat) returns (f: Form)
    requires i <= |ts| && ParseUnary(ts, i).Ok?
    ensures var r := ParseUnary(ts, i); Derives(f, ts, i, r.e, r.next, UNARY)
    decreases |ts| - i, 6
  {
    hide ParseCall, Derives;
    var kind := KindAt(ts, i);
    if kind == Op(Sub) || kind.Bang? {
      var r := ParseUnary(ts, i + 1);
      f := UnaryDerives(ts, i + 1);
      TreesAre(f, ts, i + 1, r.e, r.next, UNARY);
      BuildPrefix(ts, i, f, r.next);
      f := Prefix(ts[i], f);
    } else {
      var r := ParseCall(ts, i);
      f := CallDerives(ts, i);
      LowerRank(f, ts, i, r.e, r.next, CALL, UNARY);
    }
  }

  lemma {:induction false} CallDerives(ts: seq<Token>, i: nat) returns (f: Form)
    requires i <= |ts| && ParseCall(ts, i).Ok?
    ensures var r := ParseCall(ts, i); Derives(f, ts, i, r.e, r.next, CALL)
    decreases |ts| - i, 5
  {
    hide ParsePrimary, ParsePostfix, Derives;
    var p := ParsePrimary(ts, i);
    f := PrimaryDerives(ts, i);
    LowerRank(f, ts, i, p.e, p.next, PRIMARY, CALL);
    f := PostfixDerives(ts, p.e, p.next, i, f);
  }

  /** A bare word `map` is never followed by an opening parenthesis. */
  ghost predicate MapGuard(f: Form, ts: seq<Token>, i: nat) { IsMapLeaf(f) ==> !KindAt(ts, i).LParen? }

  lemma {:induction false} PostfixDerives(ts: seq<Token>, acc: Expr, i: nat, start: nat, g: Form) returns (f: Form)
    requires i <= |ts| && Derives(g, ts, start, acc, i, CALL) && MapGuard(g, ts, i) && ParsePostfix(ts, acc, i).Ok?
    ensures var r := ParsePostfix(ts, acc, i); Derives(f, ts, start, r.e, r.next, CALL)
    decreases |ts| - i, 21
  {
    hide ParseArguments, ParseExpression, PropertyName, Derives;
    f := g;
    match KindAt(ts, i)
    case LParen =>
      var args := ParseArguments(ts, i + 1);
      var items, close := ArgumentsDerive(ts, i + 1);
      TreesAre(g, ts, start, acc, i, CALL);
      BuildApply(ts, start, g, i, items, close, args);
      f := PostfixDerives(ts, Call(acc, args.es), args.next, start, Apply(g, ts[i], items, close));
    case Dot =>
      NamesAreTokens(ts, i + 1);
      TreesAre(g, ts, start, acc, i, CALL);
      BuildAccess(ts, start, g, i);
      var property := PropertyName(KindAt(ts, i + 1)).value;
      f := PostfixDerives(ts, Member(acc, property), i + 2, start, Access(g, ts[i], ts[i + 1]));
    case LBracket =>
      var index := ParseExpression(ts, i + 1);
      var p := ExpressionDerives(ts, i + 1);
      TreesAre(g, ts, start, acc, i, CALL);
      TreesAre(p, ts, i + 1, index.e, index.next, TERNARY);
      BuildSubscript(ts, start, g, i, p, index.next);
      f := PostfixDerives(ts, Index(acc, index.e), index.next + 1, start, Subscript(g, ts[i], p, ts[index.next]));
    case _ =>
  }

  lemma NamesAreTokens(ts: seq<Token>, i: nat)
    ensures PropertyName(KindAt(ts, i)).Some? ==> i < |ts|
  {
  }

  lemma {:induction false} ArgumentsDerive(ts: seq<Token>, i: nat) returns (items: seq<Item>, close: Token)
    requires i <= |ts| && ParseArguments(ts, i).OkAll?
    ensures close.kind.RParen? && ItemsDerive(items, false, close, ts, i, ParseArguments(ts, i))
    decreases |ts| - i, 22
  {
    hide ParseItems, ItemsDerive;
    if KindAt(ts, i).RParen? {
      items, close := [], ts[i];
      NoMore(ts, i, false);
    } else {
      items, close := ParsedItemsDerive(ts, i, RParen);
    }
  }

  lemma {:induction false} ParsedItemsDerive(ts: seq<Token>, i: nat, end: Kind) returns (items: seq<Item>, close: Token)
    requires i <= |ts| && (end.RParen? || end.RBracket?) && ParseItems(ts, i, end).OkAll?
    ensures items != [] && close.kind == end && ItemsDerive(items, false, close, ts, i, ParseItems(ts, i, end))
    decreases |ts| - i, 21
  {
    hide ParseExpression, ItemsDerive, Derives;
    var head := ParseExpression(ts, i);
    var f := ExpressionDerives(ts, i);
    TreesAre(f, ts, i, head.e, head.next, TERNARY);
    if KindAt(ts, head.next).Comma? {
      var rest;
      rest, close := ParsedItemsDerive(ts, head.next + 1, end);
      BuildCons(ts, i, f, head.next, rest, false, close, ParseItems(ts, head.next + 1, end));
      items := [Item(f, ts[head.next])] + rest;
    } else {
      close := ts[head.next];
      BuildLast(ts, i, f, head.next);
      items := [Item(f, Mark(Comma))];
    }
  }

  lemma {:induction false} TupleDerives(ts: seq<Token>, i: nat)
    returns (items: seq<Item>, trailing: bool, close: Token)
    requires i <= |ts| && ParseTuple(ts, i).OkAll?
    ensures close.kind.RParen? && (items == [] ==> trailing)
    ensures ItemsDerive(items, trailing, close, ts, i, ParseTuple(ts, i))
    decreases |ts| - i, 21
  {
    hide ParseExpression, ItemsDerive, Derives;
    if KindAt(ts, i).RParen? {
      items, trailing, close := [], true, ts[i];
      NoMore(ts, i, true);
    } else {
      var head := ParseExpression(ts, i);
      var f := ExpressionDerives(ts, i);
      TreesAre(f, ts, i, head.e, head.next, TERNARY);
      if KindAt(ts, head.next).Comma? {
        var rest;
        rest, trailing, close := TupleDerives(ts, head.next + 1);
        BuildCons(ts, i, f, head.next, rest, trailing, close, ParseTuple(ts, head.next + 1));
        items := [Item(f, ts[head.next])] + rest;
      } else {
        trailing, close := false, ts[head.next];
        BuildLast(ts, i, f, head.next);
        items := [Item(f, Mark(Comma))];
      }
    }
  }

  lemma {:induction false} PrimaryDerives(ts: seq<Token>, i: nat) returns (f: Form)
    requires i <= |ts| && ParsePrimary(ts, i).Ok?
    ensures var r := ParsePrimary(ts, i); Derives(f, ts, i, r.e, r.next, PRIMARY) && MapGuard(f, ts, r.next)
    decreases |ts| - i, 4
  {
    hide ParseParens, ParseItems, JoinLevel;
    match KindAt(ts, i)
    case LParen => f := ParensDerive(ts, i);
    case LBracket =>
      if KindAt(ts, i + 1).RBracket? {
        NoMore(ts, i + 1, false);
        BuildItems(ts, i, [], false, ts[i + 1], OkAll([], i + 2));
        f := Items(ts[i], [], false, ts[i + 1]);
      } else {
        var items, close := ParsedItemsDerive(ts, i + 1, RBracket);
        BuildItems(ts, i, items, false, close, ParseItems(ts, i + 1, RBracket));
        f := Items(ts[i], items, false, close);
      }
    case _ => f := LeafDerives(ts, i);
  }

  lemma LeafDerives(ts: seq<Token>, i: nat) returns (f: Form)
    requires i <= |ts| && ParsePrimary(ts, i).Ok? && !KindAt(ts, i).LParen? && !KindAt(ts, i).LBracket?
    ensures var r := ParsePrimary(ts, i); Derives(f, ts, i, r.e, r.next, PRIMARY) && MapGuard(f, ts, r.next)
  {
    One(ts, i);
    f := Leaf(ts[i]);
  }

  lemma {:induction false} ParensDerive(ts: seq<Token>, i: nat) returns (f: Form)
    requires i < |ts| && ts[i].kind.LParen? && ParseParens(ts, i + 1).Ok?
    ensures var r := ParseParens(ts, i + 1); Derives(f, ts, i, r.e, r.next, PRIMARY) && !f.Leaf?
    decreases |ts| - i, 3
  {
    hide ParseExpression, ParseTuple, ItemsDerive, Derives;
    if KindAt(ts, i + 1).RParen? {
      NoMore(ts, i + 1, false);
      BuildItems(ts, i, [], false, ts[i + 1], OkAll([], i + 2));
      f := Items(ts[i], [], false, ts[i + 1]);
    } else {
      var first := ParseExpression(ts, i + 1);
      var g := ExpressionDerives(ts, i + 1);
      TreesAre(g, ts, i + 1, first.e, first.next, TERNARY);
      if KindAt(ts, first.next).Comma? {
        var rest := ParseTuple(ts, first.next + 1);
        var items, trailing, close := TupleDerives(ts, first.next + 1);
        BuildCons(ts, i + 1, g, first.next, items, trailing, close, rest);
        var all := [Item(g, ts[first.next])] + items;
        BuildItems(ts, i, all, trailing, close, OkAll([first.e] + rest.es, rest.next));
        f := Items(ts[i], all, trailing, close);
      } else {
        BuildGroup(ts, i, g, first.next);
        f := Group(ts[i], g, ts[first.next]);
      }
    }
  }

  // ---------------------------------------------------------------- exactly the grammar

  ghost predicate Writes(f: Form, ts: seq<Token>, e: Expr) { WellFormed(f) && Tokens(f) == ts && Tree(f) == e }

  /** The parser reads a token sequence completely as a tree exactly when some form of the grammar
      writes the tree in these tokens. */
  lemma ParsesExactly(ts: seq<Token>, e: Expr)
    ensures ParseExpression(ts, 0) == Ok(e, |ts|) <==> exists f: Form :: Writes(f, ts, e)
  {
    hide ParseExpression, WellFormed, Tokens, Tree;
    if ParseExpression(ts, 0) == Ok(e, |ts|) {
      var f := ExpressionDerives(ts, 0);
      assert ts[0..|ts|] == ts;
      assert Writes(f, ts, e);
    }
    if exists f: Form :: Writes(f, ts, e) {
      var f: Form :| Writes(f, ts, e);
      FormsParse(f);
    }
  }

  // ---------------------------------------------------------------- how far the parser reads

  lemma {:induction false} ExpressionStops(ts: seq<Token>, i: nat)
    requires i <= |ts| && ParseExpression(ts, i).Ok?
    ensures Stops(ts, ParseExpression(ts, i).next, TERNARY)
    decreases |ts| - i
  {
    hide ParseLadder;
    LadderStops(ts, i, PIPELINE);
    var c := ParseLadder(ts, i, PIPELINE);
    if KindAt(ts, c.next).Question? && !StartsGuard(KindAt(ts, c.next + 1)) {
      ExpressionStops(ts, ParseLadder(ts, c.next + 1, PIPELINE).next + 1);
    }
  }

  lemma {:induction false} LadderStops(ts: seq<Token>, i: nat, k: nat)
    requires i <= |ts| && PIPELINE <= k <= UNARY && ParseLadder(ts, i, k).Ok?
    ensures Stops(ts, ParseLadder(ts, i, k).next, k)
    decreases |ts| - i, 19 - k
  {
    hide ParseUnary, Stops;
    if k == UNARY {
      UnaryStops(ts, i);
    } else {
      LadderStops(ts, i, k + 1);
      var first := ParseLadder(ts, i, k + 1);
      RestStops(ts, first.e, first.next, k);
    }
  }

  lemma {:induction false} RestStops(ts: seq<Token>, acc: Expr, i: nat, k: nat)
    requires i <= |ts| && PIPELINE <= k < UNARY && Stops(ts, i, k + 1) && ParseRest(ts, acc, i, k).Ok?
    ensures Stops(ts, ParseRest(ts, acc, i, k).next, k)
    decreases |ts| - i, 21
  {
    hide ParseLadder, Join;
    if JoinLevel(KindAt(ts, i)) == k {
      LadderStops(ts, i + 1, k + 1);
      var rhs := ParseLadder(ts, i + 1, k + 1);
      RestStops(ts, Join(KindAt(ts, i), acc, rhs.e), rhs.next, k);
    }
  }

  lemma {:induction false} UnaryStops(ts: seq<Token>, i: nat)
    requires i <= |ts| && ParseUnary(ts, i).Ok?
    ensures Stops(ts, ParseUnary(ts, i).next, UNARY)
    decreases |ts| - i, 6
  {
    hide ParsePrimary, ParsePostfix;
    var kind := KindAt(ts, i);
    if kind == Op(Sub) || kind.Bang? {
      UnaryStops(ts, i + 1);
    } else {
      var p := ParsePrimary(ts, i);
      PostfixStops(ts, p.e, p.next);
    }
  }

  lemma {:induction false} PostfixStops(ts: seq<Token>, acc: Expr, i: nat)
    requires i <= |ts| && ParsePostfix(ts, acc, i).Ok?
    ensures Stops(ts, ParsePostfix(ts, acc, i).next, UNARY)
    decreases |ts| - i
  {
    hide ParseArguments, ParseExpression, PropertyName;
    match KindAt(ts, i)
    case LParen =>
      var args := ParseArguments(ts, i + 1);
      PostfixStops(ts, Call(acc, args.es), args.next);
    case Dot => PostfixStops(ts, Member(acc, PropertyName(KindAt(ts, i + 1)).value), i + 2);
    case LBracket =>
      var index := ParseExpression(ts, i + 1);
      PostfixStops(ts, Index(acc, index.e), index.next + 1);
    case _ =>
  }

  /** The parser reads a tree up to a token exactly when some form writes the tree in the tokens
      before it and the token cannot continue it. A colon is told apart by what encloses it. */
  lemma ParsesUpTo(ts: seq<Token>, e: Expr, n: nat)
    requires n <= |ts| && !KindAt(ts, n).Colon?
    ensures ParseExpression(ts, 0) == Ok(e, n)
            <==> Stops(ts, n, TERNARY) && exists f: Form :: Writes(f, ts[..n], e)
  {
    hide ParseExpression, WellFormed, Tokens, Tree, Stops;
    assert ts[0..n] == ts[..n];
    if ParseExpression(ts, 0) == Ok(e, n) {
      ExpressionStops(ts, 0);
      var f := ExpressionDerives(ts, 0);
      assert Writes(f, ts[..n], e);
    }
    if Stops(ts, n, TERNARY) && exists f: Form :: Writes(f, ts[..n], e) {
      var f: Form :| Writes(f, ts[..n], e);
      ParseForm(ts, 0, f, TERNARY);
    }
  }

  /** No token sequence is written by forms of two trees. */
  lemma GrammarIsUnambiguous(f: Form, g: Form)
    requires WellFormed(f) && WellFormed(g) && Tokens(f) == Tokens(g)
    ensures Tree(f) == Tree(g)
  {
    hide ParseExpression, WellFormed, Tokens, Tree;
    FormsParse(f);
    FormsParse(g);
  }

  /** Parentheses around an expression, needed or not, change nothing; around items with commas
      they make a list, for one item with a comma behind it. */
  lemma ParenthesesParse(open: Token, f: Form, items: seq<Item>, trailing: bool, close: Token)
    requires open.kind.LParen? && close.kind.RParen? && WellFormed(f) && AllWellFormed(items)
    requires if |items| == 1 then trailing else items != []
    ensures var ts := [open] + (Tokens(f) + [close]); ParseExpression(ts, 0) == Ok(Tree(f), |ts|)
    ensures var ts := [open] + ItemTokens(items, trailing, close);
            ParseExpression(ts, 0) == Ok(List(Trees(items)), |ts|)
  {
    hide ParseExpression, AllWellFormed, ItemTokens, Trees;
    FormsParse(Group(open, f, close));
    FormsParse(Items(open, items, trailing, close));
  }

  // ---------------------------------------------------------------- the order of the operators

  /** The operators, from the loosest to the tightest. */
  const LADDER: seq<set<BinaryOp>> :=
    [{Or}, {And}, {BitOr}, {BitXor}, {BitAnd}, {Equals, NotEquals}, {Greater, GreaterEq, Less, LessEq},
     {ShiftLeft, ShiftRight}, {Add, Sub}, {Mul, Div, Mod}]

  predicate StandsOn(op: BinaryOp, rung: nat) { rung < |LADDER| && op in LADDER[rung] }

  lemma RungsAreLevels(op: BinaryOp, rung: nat)
    requires StandsOn(op, rung)
    ensures OpLevel(op) == rung + 2
  {
  }

  /** Every operator stands on one rung. */
  lemma EveryOperatorStands(op: BinaryOp)
    ensures exists rung :: StandsOn(op, rung)
  {
    var rung := OpLevel(op) - 2;
    assert StandsOn(op, rung);
  }

  /** Of two operators in a row the tighter one takes the operand between them, and of two on the
      same rung the left one. */
  lemma TwoOperatorsParse(a: Form, p: Token, b: Form, q: Token, c: Form, i: nat, j: nat)
    requires WellFormed(a) && Rank(a) >= UNARY && WellFormed(b) && Rank(b) >= UNARY && WellFormed(c) && Rank(c) >= UNARY
    requires p.kind.Op? && q.kind.Op? && StandsOn(p.kind.op, i) && StandsOn(q.kind.op, j)
    ensures var ts := Tokens(a) + ([p] + (Tokens(b) + ([q] + Tokens(c))));
            ParseExpression(ts, 0) ==
            Ok(if i < j then Binary(p.kind.op, Tree(a), Binary(q.kind.op, Tree(b), Tree(c)))
               else Binary(q.kind.op, Binary(p.kind.op, Tree(a), Tree(b)), Tree(c)), |ts|)
  {
    RungsAreLevels(p.kind.op, i);
    RungsAreLevels(q.kind.op, j);
    OperatorJoins(p.kind.op);
    OperatorJoins(q.kind.op);
    hide ParseExpression, WellFormed, Tokens, Tree, Rank, OpLevel, JoinLevel, StandsOn;
    if i < j { RightParses(a, p, b, q, c); } else { LeftParses(a, p, b, q, c); }
  }

  lemma RightParses(a: Form, p: Token, b: Form, q: Token, c: Form)
    requires WellFormed(a) && Rank(a) >= UNARY && WellFormed(b) && Rank(b) >= UNARY && WellFormed(c) && Rank(c) >= UNARY
    requires p.kind.Op? && q.kind.Op? && TERNARY < JoinLevel(p.kind) < JoinLevel(q.kind)
    ensures var ts := Tokens(a) + ([p] + (Tokens(b) + ([q] + Tokens(c))));
            ParseExpression(ts, 0) == Ok(Binary(p.kind.op, Tree(a), Binary(q.kind.op, Tree(b), Tree(c))), |ts|)
  {
    hide ParseExpression, WellFormed, Tokens, Tree, Rank, JoinLevel;
    InfixIsWellFormed(b, q, c);
    InfixIsWellFormed(a, p, Infix(b, q, c));
    FormsParse(Infix(a, p, Infix(b, q, c)));
  }

  lemma LeftParses(a: Form, p: Token, b: Form, q: Token, c: Form)
    requires WellFormed(a) && Rank(a) >= UNARY && WellFormed(b) && Rank(b) >= UNARY && WellFormed(c) && Rank(c) >= UNARY
    requires p.kind.Op? && q.kind.Op? && JoinLevel(p.kind) >= JoinLevel(q.kind) > TERNARY
    ensures var ts := Tokens(a) + ([p] + (Tokens(b) + ([q] + Tokens(c))));
            ParseExpression(ts, 0) == Ok(Binary(q.kind.op, Binary(p.kind.op, Tree(a), Tree(b)), Tree(c)), |ts|)
  {
    hide ParseExpression, WellFormed, Tokens, Tree, Rank, JoinLevel;
    InfixIsWellFormed(a, p, b);
    InfixIsWellFormed(Infix(a, p, b), q, c);
    FormsParse(Infix(Infix(a, p, b), q, c));
    Regroup(Tokens(a), p, Tokens(b), q, Tokens(c));
  }

  lemma Regroup(x: seq<Token>, p: Token, y: seq<Token>, q: Token, z: seq<Token>)
    ensures (x + ([p] + y)) + ([q] + z) == x + ([p] + (y + ([q] + z)))
  {
  }
}
