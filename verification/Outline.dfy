/** Where the layout tokens stand: every token lies as deep as its line has enclosing lines, and
    blocks open and close where lines begin. */
module Outline {
  import opened Ast
  import opened Scanner
  import opened Lexer
  import opened LayoutTheorem
  import LexTiling

  datatype Placed = Placed(token: Token, depth: int)

  /** The tokens that are not layout, with the blocks open around each. */
  function Outlined(ts: seq<Token>, depth: int): seq<Placed> {
    if ts == [] then []
    else if ts[0].kind.Indent? then Outlined(ts[1..], depth + 1)
    else if ts[0].kind.Dedent? then Outlined(ts[1..], depth - 1)
    else [Placed(ts[0], depth)] + Outlined(ts[1..], depth)
  }

  /** How many lines enclose what stands behind these lines. */
  function Nesting(lines: seq<Level>): int { if Follow(lines).Some? then |Follow(lines).value| - 1 else 0 }

  /** The tokens of the source, as deep as their lines. */
  function Expected(items: seq<Item>, before: seq<Level>): seq<Placed> {
    if items == [] then []
    else
      match items[0]
      case Tok(token) => [Placed(token, Nesting(before))] + Expected(items[1..], before)
      case Line(width, style, _, _) => Expected(items[1..], before + [Level(width, style)])
  }

  /** The last line is ended: by a newline, with no block opened or closed behind it. */
  predicate LineEnded(items: seq<Item>, before: seq<Level>, ended: bool) {
    if items == [] then ended
    else
      match items[0]
      case Tok(token) => LineEnded(items[1..], before, token.kind.Newline?)
      case Line(width, style, _, _) =>
        var lines := before + [Level(width, style)];
        LineEnded(items[1..], lines, ended && Nesting(lines) == Nesting(before))
  }

  predicate AllPlain(items: seq<Item>) {
    forall i :: 0 <= i < |items| && items[i].Tok? ==> LexTiling.Plain(items[i].token.kind)
  }

  lemma {:induction false} OutlinedConcat(a: seq<Token>, b: seq<Token>, depth: int, n: nat, at: nat)
    requires a == Repeat(Dedent, n, at)
    ensures Outlined(a + b, depth) == Outlined(b, depth - n)
    decreases n
  {
    if n == 0 {
      assert a + b == b;
    } else {
      var c := a + b;
      assert c[0] == a[0] == Token(Dedent, at, at) && c[1..] == Repeat(Dedent, n - 1, at) + b;
      assert Outlined(c, depth) == Outlined(c[1..], depth - 1);
      OutlinedConcat(Repeat(Dedent, n - 1, at), b, depth - 1, n - 1, at);
    }
  }

  lemma OutlinedCons(t: Token, b: seq<Token>, depth: int)
    ensures t.kind.Indent? ==> Outlined([t] + b, depth) == Outlined(b, depth + 1)
    ensures LexTiling.Plain(t.kind) || t.kind.Eof? ==>
              Outlined([t] + b, depth) == [Placed(t, depth)] + Outlined(b, depth)
  {
    assert ([t] + b)[1..] == b;
  }

  /** What stands behind the last token of the source. */
  function Closing(ended: bool, depth: int, len: nat): seq<Placed> {
    (if ended then [] else [Placed(Token(Newline, len, len), depth)]) + [Placed(Token(Eof, len, len), 0)]
  }

  lemma FollowNext(before: seq<Level>, stack: Stack, x: Level)
    requires Follow(before) == Some(stack)
    ensures var move := Step(stack, x.width, x.style);
            && (move.Open? ==> Follow(before + [x]) == Some(move.inner) && Nesting(before + [x]) == |stack|)
            && (move.Close? ==> Follow(before + [x]) == Some(move.outer)
                                && Nesting(before + [x]) == |stack| - 1 - move.n)
  {
    assert (before + [x])[..|before|] == before;
    LexTiling.StepDepth(stack, x.width, x.style);
  }

  lemma {:induction false} ArrangeOutlines(raw: Raw, stack: Stack, ended: bool, len: nat, before: seq<Level>)
    requires Follow(before) == Some(stack) && AllPlain(raw.items) && Arrange(raw, stack, ended, len).Success?
    ensures Outlined(Arrange(raw, stack, ended, len).value, |stack| - 1)
         == Expected(raw.items, before)
            + Closing(LineEnded(raw.items, before, ended), Nesting(before + Lines(raw.items)), len)
    decreases |raw.items|
  {
    hide Step, Deeper, Follow, Nesting, Outlined, Closing;
    assert Nesting(before) == |stack| - 1 by { NestingIs(before, stack); }
    if raw.items == [] {
      assert before + Lines(raw.items) == before;
      ClosingOutlines(|stack| - 1, ended, len);
    } else {
      var rest := Raw(raw.items[1..], raw.error);
      match raw.items[0]
      case Tok(t) =>
        ArrangeOutlines(rest, stack, t.kind.Newline?, len, before);
        OutlinedCons(t, Arrange(rest, stack, t.kind.Newline?, len).value, |stack| - 1);
      case Line(width, style, start, _) =>
        var x := Level(width, style);
        FollowNext(before, stack, x);
        LexTiling.StepDepth(stack, width, style);
        assert before + Lines(raw.items) == before + [x] + Lines(rest.items);
        match Step(stack, width, style)
        case Open(inner) =>
          ArrangeOutlines(rest, inner, false, len, before + [x]);
          OutlinedCons(Token(Indent, start, start), Arrange(rest, inner, false, len).value, |stack| - 1);
        case Close(outer, n) =>
          ArrangeOutlines(rest, outer, ended && n == 0, len, before + [x]);
          var tail := Arrange(rest, outer, ended && n == 0, len).value;
          OutlinedConcat(Repeat(Dedent, n, start), tail, |stack| - 1, n, start);
        case Refuse(_) =>
    }
  }

  lemma NestingIs(before: seq<Level>, stack: Stack)
    requires Follow(before) == Some(stack)
    ensures Nesting(before) == |stack| - 1
  {
  }

  lemma ClosingOutlines(depth: nat, ended: bool, len: nat)
    ensures Outlined((if ended then [] else [Token(Newline, len, len)])
                     + Repeat(Dedent, depth, len) + [Token(Eof, len, len)], depth) == [] + Closing(ended, depth, len)
  {
    var eof := [Token(Eof, len, len)];
    var tail := Repeat(Dedent, depth, len) + eof;
    OutlinedConcat(Repeat(Dedent, depth, len), eof, depth, depth, len);
    OutlinedCons(eof[0], [], 0);
    assert eof + [] == eof;
    if ended {
      assert [] + Repeat(Dedent, depth, len) + eof == tail;
    } else {
      assert [Token(Newline, len, len)] + Repeat(Dedent, depth, len) + eof == [Token(Newline, len, len)] + tail;
      OutlinedCons(Token(Newline, len, len), tail, depth);
    }
  }

  /** In a lexed source every token lies in as many blocks as its line has enclosing lines; behind
      them come a newline, if the last line is not ended, and the end of the file. */
  lemma LexIsOutlined(s: string)
    requires Lex(s).Success?
    ensures var items := Read(s, 0, true).items;
            Outlined(Lex(s).value, 0) ==
            Expected(items, []) + Closing(LineEnded(items, [], false), Nesting(Lines(items)), |s|)
  {
    hide Read, Arrange, Outlined, Expected, Closing, LineEnded, Nesting, Scan, LexTiling.ItemsTile;
    var raw := Read(s, 0, true);
    LexTiling.ArrangeNeedsNoError(raw, [Level(0, None)], false, |s|);
    LexTiling.ReadTiles(s, 0, true);
    TiledItemsArePlain(s, 0, raw.items);
    ArrangeOutlines(raw, [Level(0, None)], false, |s|, []);
    assert [] + Lines(raw.items) == Lines(raw.items);
  }

  lemma {:induction false} TiledItemsArePlain(s: string, from: nat, items: seq<Item>)
    requires from <= |s| && LexTiling.ItemsTile(s, from, items)
    ensures AllPlain(items)
    decreases |items|
  {
    hide Scan, LexTiling.Trivia, LexTiling.Genuine, LexTiling.Plain;
    if items != [] {
      match items[0]
      case Tok(t) =>
        LexTiling.GenuineEnds(s, t);
        LexTiling.ScanIsPlain(s, t);
        TiledItemsArePlain(s, t.end, items[1..]);
      case Line(_, _, start, _) => TiledItemsArePlain(s, start, items[1..]);
      assert forall i :: 0 < i < |items| ==> items[i] == items[1..][i - 1];
    }
  }

  // ---------------------------------------------------------------- where blocks open and close

  function LineStarts(items: seq<Item>): set<nat> {
    if items == [] then {} else (if items[0].Line? then {items[0].start} else {}) + LineStarts(items[1..])
  }

  /** Blocks open only where a line begins, and close there or at the end. */
  predicate OpensAndCloses(ts: seq<Token>, starts: set<nat>, len: nat) {
    forall k :: 0 <= k < |ts| ==>
      && (ts[k].kind.Indent? ==> ts[k].start == ts[k].end && ts[k].start in starts)
      && (ts[k].kind.Dedent? ==> ts[k].start == ts[k].end && (ts[k].start in starts || ts[k].start == len))
  }

  lemma {:induction false} LayoutStandsAtLines(raw: Raw, stack: Stack, ended: bool, len: nat)
    requires AllPlain(raw.items) && Arrange(raw, stack, ended, len).Success?
    ensures OpensAndCloses(Arrange(raw, stack, ended, len).value, LineStarts(raw.items), len)
    decreases |raw.items|
  {
    hide Step, Deeper;
    if raw.items != [] {
      var rest := Raw(raw.items[1..], raw.error);
      match raw.items[0]
      case Tok(t) => LayoutStandsAtLines(rest, stack, t.kind.Newline?, len);
      case Line(width, style, _, _) =>
        match Step(stack, width, style)
        case Open(inner) => LayoutStandsAtLines(rest, inner, false, len);
        case Close(outer, n) => LayoutStandsAtLines(rest, outer, ended && n == 0, len);
        case Refuse(_) =>
    }
  }

  // ---------------------------------------------------------------- which line is refused

  predicate HasWidth(stack: Stack, width: nat) { exists k :: 0 <= k < |stack| && stack[k].width == width }

  /** A line that is not deeper than the last is refused behind these levels: it returns to none of
      them, or to one of the other style. */
  predicate Refused(stack: Stack, line: Item, error: LexError)
    requires line.Line?
  {
    && line.width <= Top(stack).width && error.start == line.start && error.end == line.end
    && if HasWidth(stack, line.width) then
         error.problem == MixedIndentation
         && exists k :: 0 <= k < |stack| && stack[k].width == line.width && Clash(stack[k], line.style)
       else error.problem == Misaligned
  }

  lemma StepRefuses(stack: Stack, line: Item)
    requires line.Line? && Step(stack, line.width, line.style).Refuse?
    ensures Refused(stack, line, LexError(Step(stack, line.width, line.style).problem, line.start, line.end))
  {
    var n := Deeper(stack, line.width);
    var top := |stack| - 1 - n;
    if HasWidth(stack, line.width) {
      var k :| 0 <= k < |stack| && stack[k].width == line.width;
      assert k <= top;
      assert k == top;
    }
  }

  /** A source that reads to its end and does not lex is refused for its first line that is not
      aligned with the lines before it. */
  lemma {:induction false} ArrangeFailsRightly(raw: Raw, stack: Stack, ended: bool, len: nat, before: seq<Level>)
    returns (k: nat)
    requires Follow(before) == Some(stack) && Arrange(raw, stack, ended, len).Failure?
    ensures k <= |raw.items| && Follow(before + Lines(raw.items[..k])).Some?
    ensures var error := Arrange(raw, stack, ended, len).error;
            if k == |raw.items| then raw.error == Some(error)
            else raw.items[k].Line? && Refused(Follow(before + Lines(raw.items[..k])).value, raw.items[k], error)
    decreases |raw.items|
  {
    hide Step, Deeper, Refused, Follow;
    k := 0;
    assert raw.items[..0] == [] && before + [] == before;
    if raw.items != [] {
      var x, rest := raw.items[0], Raw(raw.items[1..], raw.error);
      match x
      case Tok(t) =>
        k := ArrangeFailsRightly(rest, stack, t.kind.Newline?, len, before);
        k := k + 1;
        LinesCons(x, rest.items[..k - 1], raw.items[..k]);
      case Line(width, style, _, _) =>
        var level := Level(width, style);
        FollowNext(before, stack, level);
        match Step(stack, width, style)
        case Open(inner) =>
          k := ArrangeFailsRightly(rest, inner, false, len, before + [level]);
          k := k + 1;
          LinesCons(x, rest.items[..k - 1], raw.items[..k]);
          assert before + [level] + Lines(rest.items[..k - 1]) == before + Lines(raw.items[..k]);
        case Close(outer, n) =>
          k := ArrangeFailsRightly(rest, outer, ended && n == 0, len, before + [level]);
          k := k + 1;
          LinesCons(x, rest.items[..k - 1], raw.items[..k]);
          assert before + [level] + Lines(rest.items[..k - 1]) == before + Lines(raw.items[..k]);
        case Refuse(_) => StepRefuses(stack, x);
    }
  }

  lemma LinesCons(x: Item, items: seq<Item>, all: seq<Item>)
    requires all == [x] + items
    ensures Lines(all) == (if x.Line? then [Level(x.width, x.style)] else []) + Lines(items)
  {
    assert all[1..] == items;
  }
}
