/** Every successful lex tiles the source and has balanced layout. */
module LexTiling {
  import opened Ast
  import opened Scanner
  import opened Lexer

  // ---------------------------------------------------------------- what lies between tokens

  /** Nothing but blanks, carriage returns and whole comments. */
  predicate Trivia(s: string, i: nat, j: nat)
    requires i <= j <= |s|
    decreases j - i
  {
    || i == j
    || ((IsBlank(s[i]) || s[i] == '\r') && Trivia(s, i + 1, j))
    || (s[i] == '#' && var e := RunEnd(s, i + 1, NotNewline); e <= j && Trivia(s, e, j))
  }

  lemma {:induction false} TriviaJoin(s: string, a: nat, b: nat, c: nat)
    requires a <= b <= c <= |s| && Trivia(s, a, b) && Trivia(s, b, c)
    ensures Trivia(s, a, c)
    decreases b - a
  {
    if a < b {
      if IsBlank(s[a]) || s[a] == '\r' {
        TriviaJoin(s, a + 1, b, c);
      } else {
        TriviaJoin(s, RunEnd(s, a + 1, NotNewline), b, c);
      }
    }
  }

  lemma {:induction false} BlanksAreTrivia(s: string, i: nat, j: nat)
    requires i <= j <= |s| && forall k :: i <= k < j ==> IsBlank(s[k])
    ensures Trivia(s, i, j)
    decreases j - i
  {
    if i < j { BlanksAreTrivia(s, i + 1, j); }
  }

  // ---------------------------------------------------------------- tiles

  /** A token that takes up characters is the newline character or what the scanners read there. */
  predicate Genuine(s: string, t: Token) {
    t.start < t.end <= |s|
    && ((t.kind == Newline && t.end == t.start + 1 && s[t.start] == '\n') || Scan(s, t.start) == Found(t.kind, t.end))
  }

  /** A token without characters is layout, the closing newline, or the end of the file. */
  predicate Virtual(t: Token) {
    t.start == t.end && (t.kind.Indent? || t.kind.Dedent? || t.kind.Newline? || t.kind.Eof?)
  }

  /** The tokens cover the source from a position on, in order and apart, up to trivia. */
  predicate Tiles(s: string, from: nat, ts: seq<Token>)
    requires from <= |s|
    decreases |ts|
  {
    if ts == [] then Trivia(s, from, |s|)
    else
      && from <= ts[0].start <= ts[0].end <= |s|
      && Trivia(s, from, ts[0].start)
      && (Genuine(s, ts[0]) || Virtual(ts[0]))
      && Tiles(s, ts[0].end, ts[1..])
  }

  predicate ItemsTile(s: string, from: nat, items: seq<Item>)
    requires from <= |s|
    decreases |items|
  {
    if items == [] then Trivia(s, from, |s|)
    else
      match items[0]
      case Tok(t) => from <= t.start && Genuine(s, t) && Trivia(s, from, t.start) && ItemsTile(s, t.end, items[1..])
      case Line(_, _, start, _) => from <= start <= |s| && Trivia(s, from, start) && ItemsTile(s, start, items[1..])
  }

  lemma {:induction false} TileEarlier(s: string, from: nat, mid: nat, items: seq<Item>)
    requires from <= mid <= |s| && Trivia(s, from, mid) && ItemsTile(s, mid, items)
    ensures ItemsTile(s, from, items)
  {
    if items == [] {
      TriviaJoin(s, from, mid, |s|);
    } else {
      TriviaJoin(s, from, mid, if items[0].Tok? then items[0].token.start else items[0].start);
    }
  }

  lemma {:induction false} ReadTiles(s: string, pos: nat, lineStart: bool)
    requires pos <= |s| && Read(s, pos, lineStart).error.None?
    ensures ItemsTile(s, pos, Read(s, pos, lineStart).items)
    decreases |s| - pos, if lineStart then 1 else 0
  {
    hide Scan, Width, Trivia;
    if pos == |s| {
      assert Trivia(s, pos, |s|) by { BlanksAreTrivia(s, pos, pos); }
    } else if s[pos] == '\r' {
      ReadTiles(s, pos + 1, lineStart);
      OneIsTrivia(s, pos);
      TileEarlier(s, pos, pos + 1, Read(s, pos + 1, lineStart).items);
    } else if lineStart {
      var e := RunEnd(s, pos, IsBlank);
      ReadTiles(s, e, false);
      BlanksAreTrivia(s, pos, e);
      TileEarlier(s, pos, e, Read(s, e, false).items);
      BlanksAreTrivia(s, pos, pos);
    } else if s[pos] == '\n' {
      ReadTiles(s, pos + 1, true);
      BlanksAreTrivia(s, pos, pos);
    } else if s[pos] == '#' {
      var e := RunEnd(s, pos + 1, NotNewline);
      ReadTiles(s, e, false);
      CommentIsTrivia(s, pos);
      TileEarlier(s, pos, e, Read(s, e, false).items);
    } else if IsBlank(s[pos]) {
      ReadTiles(s, pos + 1, false);
      OneIsTrivia(s, pos);
      TileEarlier(s, pos, pos + 1, Read(s, pos + 1, false).items);
    } else {
      ReadTiles(s, Scan(s, pos).end, false);
      BlanksAreTrivia(s, pos, pos);
    }
  }

  lemma OneIsTrivia(s: string, pos: nat)
    requires pos < |s| && (IsBlank(s[pos]) || s[pos] == '\r')
    ensures Trivia(s, pos, pos + 1)
  {
    assert Trivia(s, pos + 1, pos + 1);
  }

  lemma CommentIsTrivia(s: string, pos: nat)
    requires pos < |s| && s[pos] == '#'
    ensures Trivia(s, pos, RunEnd(s, pos + 1, NotNewline))
  {
    var e := RunEnd(s, pos + 1, NotNewline);
    assert Trivia(s, e, e);
  }

  lemma {:induction false} VirtualTiles(s: string, at: nat, layout: seq<Token>, rest: seq<Token>)
    requires at <= |s| && Tiles(s, at, rest)
    requires forall k :: 0 <= k < |layout| ==> layout[k].start == at && Virtual(layout[k])
    ensures Tiles(s, at, layout + rest)
    decreases |layout|
  {
    if layout == [] {
      assert layout + rest == rest;
    } else {
      VirtualTiles(s, at, layout[1..], rest);
      assert (layout + rest)[1..] == layout[1..] + rest;
      assert Trivia(s, at, at);
    }
  }

  lemma {:induction false} LayoutTiles(s: string, from: nat, at: nat, layout: seq<Token>, rest: seq<Token>)
    requires from <= at <= |s| && Trivia(s, from, at) && Tiles(s, at, rest)
    requires forall k :: 0 <= k < |layout| ==> layout[k].start == at && Virtual(layout[k])
    ensures Tiles(s, from, layout + rest)
  {
    VirtualTiles(s, at, layout, rest);
    var ts := layout + rest;
    if ts == [] {
      TriviaJoin(s, from, at, |s|);
    } else {
      TriviaJoin(s, from, at, ts[0].start);
    }
  }

  lemma {:induction false} ArrangeTiles(s: string, from: nat, raw: Raw, stack: Stack, ended: bool)
    requires from <= |s| && ItemsTile(s, from, raw.items) && Arrange(raw, stack, ended, |s|).Success?
    ensures Tiles(s, from, Arrange(raw, stack, ended, |s|).value)
    decreases |raw.items|
  {
    hide Scan, Trivia, Genuine;
    if raw.items == [] {
      var closing := (if ended then [] else [Token(Newline, |s|, |s|)])
                     + Repeat(Dedent, |stack| - 1, |s|) + [Token(Eof, |s|, |s|)];
      assert Tiles(s, |s|, []) by { BlanksAreTrivia(s, |s|, |s|); }
      LayoutTiles(s, from, |s|, closing, []);
      assert closing + [] == closing;
    } else {
      var rest := Raw(raw.items[1..], raw.error);
      match raw.items[0]
      case Tok(t) =>
        assert Genuine(s, t);
        assert t.end <= |s| by { GenuineEnds(s, t); }
        ArrangeTiles(s, t.end, rest, stack, t.kind.Newline?);
        var tail := Arrange(rest, stack, t.kind.Newline?, |s|).value;
        assert ([t] + tail)[1..] == tail;
        GenuineEnds(s, t);
      case Line(width, style, start, end) =>
        match Step(stack, width, style)
        case Open(inner) =>
          ArrangeTiles(s, start, rest, inner, false);
          LayoutTiles(s, from, start, [Token(Indent, start, start)], Arrange(rest, inner, false, |s|).value);
        case Close(outer, n) =>
          ArrangeTiles(s, start, rest, outer, ended && n == 0);
          LayoutTiles(s, from, start, Repeat(Dedent, n, start), Arrange(rest, outer, ended && n == 0, |s|).value);
        case Refuse(_) =>
    }
  }

  lemma GenuineEnds(s: string, t: Token)
    requires Genuine(s, t)
    ensures t.start < t.end <= |s|
  {
  }

  lemma {:induction false} ArrangeNeedsNoError(raw: Raw, stack: Stack, ended: bool, len: nat)
    requires Arrange(raw, stack, ended, len).Success?
    ensures raw.error.None?
    decreases |raw.items|
  {
    if raw.items != [] {
      var rest := Raw(raw.items[1..], raw.error);
      match raw.items[0]
      case Tok(t) => ArrangeNeedsNoError(rest, stack, t.kind.Newline?, len);
      case Line(width, style, _, _) =>
        match Step(stack, width, style)
        case Open(inner) => ArrangeNeedsNoError(rest, inner, false, len);
        case Close(outer, n) => ArrangeNeedsNoError(rest, outer, ended && n == 0, len);
        case Refuse(_) =>
    }
  }

  /** A successful lex tiles the source: its tokens lie in order, apart and inside the source,
      each is what its characters spell, and only blanks, carriage returns and comments are
      left out. */
  lemma LexTiles(s: string)
    requires Lex(s).Success?
    ensures Tiles(s, 0, Lex(s).value)
  {
    var raw := Read(s, 0, true);
    ArrangeNeedsNoError(raw, [Level(0, None)], false, |s|);
    ReadTiles(s, 0, true);
    ArrangeTiles(s, 0, raw, [Level(0, None)], false);
  }

  // ---------------------------------------------------------------- what tiles mean, token by token

  /** Tokens lie in source order and do not overlap. */
  lemma {:induction false} TilesAreOrdered(s: string, from: nat, ts: seq<Token>, i: nat, j: nat)
    requires from <= |s| && Tiles(s, from, ts) && i <= j < |ts|
    ensures from <= ts[i].start <= ts[i].end <= |s|
    ensures i < j ==> ts[i].end <= ts[j].start
    ensures Genuine(s, ts[i]) || Virtual(ts[i])
    decreases |ts|
  {
    hide Genuine, Trivia;
    if i > 0 {
      TilesAreOrdered(s, ts[0].end, ts[1..], i - 1, j - 1);
    } else if j > 0 {
      TilesAreOrdered(s, ts[0].end, ts[1..], j - 1, j - 1);
    }
  }

  predicate Covered(p: nat, ts: seq<Token>) { exists k :: 0 <= k < |ts| && ts[k].start <= p < ts[k].end }

  /** A blank, a carriage return, or part of a comment that itself starts outside all tokens. */
  ghost predicate Skipped(s: string, p: nat, from: nat)
    requires p < |s|
  {
    IsBlank(s[p]) || s[p] == '\r'
    || exists h: nat :: from <= h <= p && s[h] == '#' && forall k :: h <= k <= p ==> s[k] != '\n'
  }

  lemma {:induction false} TriviaIsSkipped(s: string, i: nat, j: nat, p: nat)
    requires i <= p < j <= |s| && Trivia(s, i, j)
    ensures Skipped(s, p, i)
    decreases j - i
  {
    if s[i] == '#' {
      assert i <= i <= p && s[i] == '#';
    } else if p > i {
      TriviaIsSkipped(s, i + 1, j, p);
    }
  }

  /** Every character outside all tokens is skipped by right: it is blank, a carriage return, or
      in a comment that starts behind the last token before it. */
  lemma {:induction false} UncoveredIsSkipped(s: string, from: nat, ts: seq<Token>, p: nat)
    requires from <= p < |s| && Tiles(s, from, ts) && !Covered(p, ts)
    ensures exists after: nat :: from <= after <= p && Skipped(s, p, after)
              && forall k :: 0 <= k < |ts| ==> ts[k].end <= after || p < ts[k].start
    decreases |ts|
  {
    hide Trivia, Genuine;
    if ts == [] {
      TriviaIsSkipped(s, from, |s|, p);
    } else if p < ts[0].start {
      TriviaIsSkipped(s, from, ts[0].start, p);
      forall k | 0 <= k < |ts| ensures ts[k].end <= from || p < ts[k].start {
        TilesAreOrdered(s, from, ts, 0, k);
      }
    } else {
      assert ts[0].end <= p by { assert !(ts[0].start <= p < ts[0].end); }
      forall k | 0 <= k < |ts| - 1 ensures !(ts[1..][k].start <= p < ts[1..][k].end) {
        assert ts[1..][k] == ts[k + 1];
      }
      UncoveredIsSkipped(s, ts[0].end, ts[1..], p);
      var after: nat :| ts[0].end <= after <= p && Skipped(s, p, after)
                        && forall k :: 0 <= k < |ts[1..]| ==> ts[1..][k].end <= after || p < ts[1..][k].start;
      forall k | 0 <= k < |ts| ensures ts[k].end <= after || p < ts[k].start {
        if k > 0 { assert ts[k] == ts[1..][k - 1]; }
      }
    }
  }

  // ---------------------------------------------------------------- balance

  /** Dedents never outnumber indents, and both are equal at the end, `depth` blocks being open;
      the end of the file stands last and only there. */
  predicate Balanced(depth: nat, ts: seq<Token>)
    decreases |ts|
  {
    if ts == [] then false
    else
      match ts[0].kind
      case Indent => Balanced(depth + 1, ts[1..])
      case Dedent => depth > 0 && Balanced(depth - 1, ts[1..])
      case Eof => depth == 0 && |ts| == 1
      case _ => Balanced(depth, ts[1..])
  }

  predicate Plain(kind: TokenKind) { !kind.Indent? && !kind.Dedent? && !kind.Eof? }

  lemma ScanIsPlain(s: string, t: Token)
    requires Genuine(s, t)
    ensures Plain(t.kind)
  {
    hide ScanTemplate, ScanQuoted, RunEnd, DecimalEnd, SymbolLength, InterpolationEnd;
  }

  lemma {:induction false} DedentsBalance(n: nat, depth: nat, at: nat, rest: seq<Token>)
    requires Balanced(depth, rest)
    ensures Balanced(depth + n, Repeat(Dedent, n, at) + rest)
    decreases n
  {
    var ts := Repeat(Dedent, n, at) + rest;
    if n == 0 {
      assert ts == rest;
    } else {
      DedentsBalance(n - 1, depth, at, rest);
      assert ts[1..] == Repeat(Dedent, n - 1, at) + rest;
    }
  }

  lemma {:induction false} ArrangeBalances(s: string, from: nat, raw: Raw, stack: Stack, ended: bool)
    requires from <= |s| && ItemsTile(s, from, raw.items) && Arrange(raw, stack, ended, |s|).Success?
    ensures Balanced(|stack| - 1, Arrange(raw, stack, ended, |s|).value)
    decreases |raw.items|
  {
    hide Scan, Trivia, Genuine, Step, Deeper;
    if raw.items == [] {
      ClosingBalances(|stack| - 1, ended, |s|);
    } else {
      var rest := Raw(raw.items[1..], raw.error);
      match raw.items[0]
      case Tok(t) =>
        GenuineEnds(s, t);
        ScanIsPlain(s, t);
        ArrangeBalances(s, t.end, rest, stack, t.kind.Newline?);
        BalancedFront(|stack| - 1, t, Arrange(rest, stack, t.kind.Newline?, |s|).value);
      case Line(width, style, start, end) =>
        StepDepth(stack, width, style);
        match Step(stack, width, style)
        case Open(inner) =>
          ArrangeBalances(s, start, rest, inner, false);
          BalancedFront(|stack| - 1, Token(Indent, start, start), Arrange(rest, inner, false, |s|).value);
        case Close(outer, n) =>
          ArrangeBalances(s, start, rest, outer, ended && n == 0);
          DedentsBalance(n, |outer| - 1, start, Arrange(rest, outer, ended && n == 0, |s|).value);
        case Refuse(_) =>
    }
  }

  lemma BalancedFront(depth: nat, t: Token, rest: seq<Token>)
    ensures Plain(t.kind) && Balanced(depth, rest) ==> Balanced(depth, [t] + rest)
    ensures t.kind.Indent? && Balanced(depth + 1, rest) ==> Balanced(depth, [t] + rest)
  {
    assert ([t] + rest)[1..] == rest;
  }

  lemma StepDepth(stack: Stack, width: nat, style: Option<Style>)
    ensures var move := Step(stack, width, style);
            && (move.Open? ==> |move.inner| == |stack| + 1)
            && (move.Close? ==> |move.outer| == |stack| - move.n)
  {
  }

  lemma ClosingBalances(depth: nat, ended: bool, at: nat)
    ensures Balanced(depth, (if ended then [] else [Token(Newline, at, at)])
                            + Repeat(Dedent, depth, at) + [Token(Eof, at, at)])
  {
    var eof := [Token(Eof, at, at)];
    var tail := Repeat(Dedent, depth, at) + eof;
    DedentsBalance(depth, 0, at, eof);
    if ended {
      assert [] + Repeat(Dedent, depth, at) + eof == tail;
    } else {
      assert [Token(Newline, at, at)] + Repeat(Dedent, depth, at) + eof == [Token(Newline, at, at)] + tail;
      BalancedFront(depth, Token(Newline, at, at), tail);
    }
  }

  function Count(kind: TokenKind, ts: seq<Token>): nat {
    if ts == [] then 0 else (if ts[0].kind == kind then 1 else 0) + Count(kind, ts[1..])
  }

  lemma {:induction false} BalancedCounts(depth: nat, ts: seq<Token>, n: nat)
    requires Balanced(depth, ts) && n <= |ts|
    ensures Count(Dedent, ts[..n]) <= depth + Count(Indent, ts[..n])
    ensures Count(Dedent, ts) == depth + Count(Indent, ts)
    ensures ts[|ts| - 1].kind.Eof? && forall k :: 0 <= k < |ts| - 1 ==> !ts[k].kind.Eof?
    decreases |ts|
  {
    if ts[0].kind.Eof? {
      assert ts[1..] == [];
    } else {
      var next := if ts[0].kind.Indent? then depth + 1 else if ts[0].kind.Dedent? then depth - 1 else depth;
      BalancedCounts(next, ts[1..], if n > 0 then n - 1 else 0);
      if n > 0 { assert ts[..n][1..] == ts[1..][..n - 1]; }
      forall k | 0 <= k < |ts| - 1 ensures !ts[k].kind.Eof? {
        if k > 0 { assert ts[k] == ts[1..][k - 1]; }
      }
    }
  }

  /** No prefix of a lexed source has more dedents than indents, the totals agree, and the end
      of the file comes once and last. */
  lemma LexIsBalanced(s: string, n: nat)
    requires Lex(s).Success? && n <= |Lex(s).value|
    ensures var ts := Lex(s).value;
            && Count(Dedent, ts[..n]) <= Count(Indent, ts[..n])
            && Count(Dedent, ts) == Count(Indent, ts)
            && ts != [] && ts[|ts| - 1].kind.Eof? && forall k :: 0 <= k < |ts| - 1 ==> !ts[k].kind.Eof?
  {
    var raw := Read(s, 0, true);
    ArrangeNeedsNoError(raw, [Level(0, None)], false, |s|);
    ReadTiles(s, 0, true);
    ArrangeBalances(s, 0, raw, [Level(0, None)], false);
    BalancedCounts(0, Lex(s).value, n);
  }
}
