/** What layout depends on. The indentation stack is the chain of enclosing line widths, a source
    lexes exactly when every line opens a block or returns to an enclosing width, and only the
    order of the widths matters. */
module LayoutTheorem {
  import opened Ast
  import opened Scanner
  import opened Lexer
  import LexTiling

  // ---------------------------------------------------------------- the stack after some lines

  /** The indentations of the lines that are not blank. */
  function Lines(items: seq<Item>): seq<Level> {
    if items == [] then []
    else if items[0].Line? then [Level(items[0].width, items[0].style)] + Lines(items[1..])
    else Lines(items[1..])
  }

  /** The stack behind the lines, if all of them are accepted. */
  function Follow(lines: seq<Level>): Option<Stack> {
    if lines == [] then Some([Level(0, None)])
    else
      var before := Follow(lines[..|lines| - 1]);
      var x := lines[|lines| - 1];
      if before.None? then None
      else
        match Step(before.value, x.width, x.style)
        case Open(inner) => Some(inner)
        case Close(outer, _) => Some(outer)
        case Refuse(_) => None
  }

  lemma {:induction false} FollowPrefix(lines: seq<Level>, n: nat)
    requires Follow(lines).Some? && n <= |lines|
    ensures Follow(lines[..n]).Some?
    decreases |lines|
  {
    hide Step;
    if n < |lines| {
      FollowPrefix(lines[..|lines| - 1], n);
      assert lines[..|lines| - 1][..n] == lines[..n];
    } else {
      assert lines[..n] == lines;
    }
  }

  lemma {:induction false} ArrangeFollows(raw: Raw, stack: Stack, ended: bool, len: nat, before: seq<Level>)
    requires Follow(before) == Some(stack) && raw.error.None?
    ensures Arrange(raw, stack, ended, len).Success? <==> Follow(before + Lines(raw.items)).Some?
    decreases |raw.items|
  {
    hide Step, Deeper;
    if raw.items == [] {
      assert before + [] == before;
    } else {
      var rest := Raw(raw.items[1..], raw.error);
      match raw.items[0]
      case Tok(t) => ArrangeFollows(rest, stack, t.kind.Newline?, len, before);
      case Line(width, style, _, _) =>
        var x := Level(width, style);
        var lines := before + Lines(raw.items);
        assert lines == (before + [x]) + Lines(rest.items);
        assert (before + [x])[..|before|] == before;
        match Step(stack, width, style)
        case Open(inner) => ArrangeFollows(rest, inner, false, len, before + [x]);
        case Close(outer, n) => ArrangeFollows(rest, outer, ended && n == 0, len, before + [x]);
        case Refuse(_) =>
          assert Follow(before + [x]).None?;
          assert lines[..|before| + 1] == before + [x];
          if Follow(lines).Some? { FollowPrefix(lines, |before| + 1); }
    }
  }

  // ---------------------------------------------------------------- enclosing widths

  predicate WellStyled(x: Level) { x.width > 0 <==> x.style.Some? }

  predicate AllWellStyled(lines: seq<Level>) { forall i :: 0 <= i < |lines| ==> WellStyled(lines[i]) }

  /** The outermost level, or an earlier line that no line since has undercut. */
  predicate Encloses(lines: seq<Level>, x: Level) {
    || x == Level(0, None)
    || exists j :: 0 <= j < |lines| && lines[j] == x && forall k :: j <= k < |lines| ==> x.width <= lines[k].width
  }

  function LastWidth(lines: seq<Level>): nat { if lines == [] then 0 else lines[|lines| - 1].width }

  lemma EnclosesNext(lines: seq<Level>, y: Level, x: Level)
    ensures Encloses(lines + [y], x) <==> x == y || (Encloses(lines, x) && x.width <= y.width)
  {
    var more := lines + [y];
    if Encloses(more, x) && x != Level(0, None) && x != y {
      var j :| 0 <= j < |more| && more[j] == x && forall k :: j <= k < |more| ==> x.width <= more[k].width;
      assert lines[j] == x;
      assert more[|lines|] == y;
      forall k | j <= k < |lines| ensures x.width <= lines[k].width { assert more[k] == lines[k]; }
    }
    if Encloses(lines, x) && x.width <= y.width && x != Level(0, None) {
      var j :| 0 <= j < |lines| && lines[j] == x && forall k :: j <= k < |lines| ==> x.width <= lines[k].width;
      assert more[j] == x;
    }
    if x == y {
      assert more[|lines|] == x;
    }
  }

  lemma StepKeeps(stack: Stack, y: Level, x: Level)
    requires WellStyled(y) && forall i :: 0 <= i < |stack| ==> WellStyled(stack[i])
    ensures match Step(stack, y.width, y.style)
            case Open(inner) => Top(inner) == y && (x in inner <==> x == y || (x in stack && x.width <= y.width))
            case Close(outer, _) => Top(outer) == y && (x in outer <==> x == y || (x in stack && x.width <= y.width))
            case Refuse(_) => y !in stack && y.width <= Top(stack).width
    ensures Step(stack, y.width, y.style).Refuse? <==> y !in stack && y.width <= Top(stack).width
  {
    if y.width > Top(stack).width {
      assert forall i :: 0 <= i < |stack| ==> stack[i].width <= Top(stack).width;
    } else {
      PoppedKeeps(stack, y, x);
      PoppedKeeps(stack, y, y);
    }
  }

  lemma PoppedKeeps(stack: Stack, y: Level, x: Level)
    requires y.width <= Top(stack).width
    ensures var outer := stack[..|stack| - Deeper(stack, y.width)];
            && (x in outer <==> x in stack && x.width <= y.width)
            && (y in stack ==> Top(outer) == y)
            && Top(outer) in stack
  {
    hide Deeper;
    var m := |stack| - Deeper(stack, y.width);
    assert stack[m - 1].width <= y.width;
    assert Top(stack[..m]) == stack[m - 1];
    PoppedMember(stack, y.width, m, x);
    PoppedMember(stack, y.width, m, y);
  }

  lemma PoppedMember(stack: Stack, width: nat, m: nat, x: Level)
    requires 0 < m <= |stack| && stack[m - 1].width <= width
    requires forall k :: m <= k < |stack| ==> stack[k].width > width
    ensures x in stack[..m] <==> x in stack && x.width <= width
    ensures x in stack && x.width == width ==> stack[m - 1] == x
  {
    if x in stack {
      var i :| 0 <= i < |stack| && stack[i] == x;
      if x.width <= width {
        assert i < m && stack[..m][i] == x;
        assert x.width == width ==> i == m - 1;
      }
      if x in stack[..m] {
        var k :| 0 <= k < m && stack[k] == x;
        assert k == m - 1 || stack[k].width < stack[m - 1].width;
      }
    }
  }

  /** The indentation stack is the chain of enclosing widths: it holds exactly the levels that
      enclose the next line, and ends with the last line's own. */
  lemma {:induction false} StackIsEnclosingChain(lines: seq<Level>, x: Level)
    requires AllWellStyled(lines) && Follow(lines).Some?
    ensures x in Follow(lines).value <==> Encloses(lines, x)
    ensures Top(Follow(lines).value).width == LastWidth(lines)
    ensures forall i :: 0 <= i < |Follow(lines).value| ==> WellStyled(Follow(lines).value[i])
    decreases |lines|
  {
    hide Step, Encloses, Deeper;
    if lines == [] {
      assert Encloses([], x) <==> x == Level(0, None) by { EnclosesNothing(x); }
    } else {
      var before, y := lines[..|lines| - 1], lines[|lines| - 1];
      var stack := Follow(before).value;
      assert lines == before + [y];
      StackIsEnclosingChain(before, x);
      StepKeeps(stack, y, x);
      EnclosesNext(before, y, x);
      var after := Follow(lines).value;
      forall i | 0 <= i < |after| ensures WellStyled(after[i]) {
        StepKeeps(stack, y, after[i]);
      }
    }
  }

  lemma EnclosesNothing(x: Level)
    ensures Encloses([], x) <==> x == Level(0, None)
  {
  }

  // ---------------------------------------------------------------- which layouts are accepted

  /** Every line is deeper than the line before it or returns to an enclosing level. */
  predicate Aligned(lines: seq<Level>) {
    forall i :: 0 <= i < |lines| ==> lines[i].width > LastWidth(lines[..i]) || Encloses(lines[..i], lines[i])
  }

  lemma {:induction false} FollowsExactly(lines: seq<Level>)
    requires AllWellStyled(lines)
    ensures Follow(lines).Some? <==> Aligned(lines)
    decreases |lines|
  {
    hide Step, Encloses, Deeper;
    if lines != [] {
      var n := |lines| - 1;
      var before, y := lines[..n], lines[n];
      FollowsExactly(before);
      AlignedNext(before, y);
      assert lines == before + [y];
      if Follow(before).Some? {
        StackIsEnclosingChain(before, y);
        StepKeeps(Follow(before).value, y, y);
      }
    }
  }

  lemma AlignedNext(lines: seq<Level>, y: Level)
    ensures Aligned(lines + [y]) <==> Aligned(lines) && (y.width > LastWidth(lines) || Encloses(lines, y))
  {
    hide Encloses;
    var more := lines + [y];
    assert more[..|lines|] == lines && more[|lines|] == y;
    forall i | 0 <= i < |lines| ensures more[..i] == lines[..i] && more[i] == lines[i] {}
    if Aligned(more) {
      assert more[|lines|].width > LastWidth(more[..|lines|]) || Encloses(more[..|lines|], more[|lines|]);
      forall i | 0 <= i < |lines| ensures lines[i].width > LastWidth(lines[..i]) || Encloses(lines[..i], lines[i]) {
        assert more[i].width > LastWidth(more[..i]) || Encloses(more[..i], more[i]);
      }
    }
  }

  lemma {:induction false} WidthAndStyle(indent: string)
    requires forall k :: 0 <= k < |indent| ==> IsBlank(indent[k])
    ensures Width(indent) > 0 <==> StyleOf(indent).Some?
  {
    if indent != [] {
      assert Width(indent) > 0;
      assert indent[0] == ' ' || indent[0] == '\t';
      assert indent[0] in indent;
    }
  }

  lemma {:induction false} ReadIsWellStyled(s: string, pos: nat, lineStart: bool)
    requires pos <= |s|
    ensures AllWellStyled(Lines(Read(s, pos, lineStart).items))
    decreases |s| - pos, if lineStart then 1 else 0
  {
    hide Scan, Width, StyleOf, WellStyled;
    if pos < |s| {
      if s[pos] == '\r' {
        ReadIsWellStyled(s, pos + 1, lineStart);
      } else if lineStart {
        var e := RunEnd(s, pos, IsBlank);
        ReadIsWellStyled(s, e, false);
        var x := Level(Width(s[pos..e]), StyleOf(s[pos..e]));
        assert WellStyled(x) by { LevelIsWellStyled(s[pos..e]); }
      } else if s[pos] == '\n' {
        ReadIsWellStyled(s, pos + 1, true);
      } else if s[pos] == '#' {
        ReadIsWellStyled(s, RunEnd(s, pos + 1, NotNewline), false);
      } else if IsBlank(s[pos]) {
        ReadIsWellStyled(s, pos + 1, false);
      } else if Scan(s, pos).Found? {
        ReadIsWellStyled(s, Scan(s, pos).end, false);
      }
    }
  }

  lemma LevelIsWellStyled(indent: string)
    requires forall k :: 0 <= k < |indent| ==> IsBlank(indent[k])
    ensures WellStyled(Level(Width(indent), StyleOf(indent)))
  {
    WidthAndStyle(indent);
  }

  /** A source lexes exactly when every token scans, no indentation mixes tabs and spaces, and
      every line is deeper than the one before or returns to an enclosing width in the style of
      the lines there. */
  lemma LexSucceedsExactly(s: string)
    ensures var raw := Read(s, 0, true);
            Lex(s).Success? <==> raw.error.None? && Aligned(Lines(raw.items))
  {
    hide Read, Aligned;
    var raw := Read(s, 0, true);
    if Lex(s).Success? { LexTiling.ArrangeNeedsNoError(raw, [Level(0, None)], false, |s|); }
    if raw.error.None? {
      assert [] + Lines(raw.items) == Lines(raw.items);
      ArrangeFollows(raw, [Level(0, None)], false, |s|, []);
      ReadIsWellStyled(s, 0, true);
      FollowsExactly(Lines(raw.items));
    }
  }

  // ---------------------------------------------------------------- only the order matters

  predicate SameOrder(pairs: set<(nat, nat)>) {
    (0, 0) in pairs && forall p, q :: p in pairs && q in pairs ==> (p.0 < q.0 <==> p.1 < q.1)
  }

  predicate StacksMatch(pairs: set<(nat, nat)>, a: Stack, b: Stack) {
    |a| == |b| && forall k :: 0 <= k < |a| ==> a[k].style == b[k].style && (a[k].width, b[k].width) in pairs
  }

  function UnplacedFragment(f: Fragment): Fragment {
    match f
    case Literal(value, _, _) => Literal(value, 0, 0)
    case Interpolation(source, _, _) => Interpolation(source, 0, 0)
  }

  /** A kind of token without the positions of its template fragments. */
  function Unplaced(kind: TokenKind): TokenKind {
    match kind
    case Template(fragments) =>
      Template(seq(|fragments|, k requires 0 <= k < |fragments| => UnplacedFragment(fragments[k])))
    case _ => kind
  }

  predicate ItemsMatch(pairs: set<(nat, nat)>, a: seq<Item>, b: seq<Item>) {
    |a| == |b| && forall k :: 0 <= k < |a| ==>
      match a[k]
      case Tok(t) => b[k].Tok? && Unplaced(b[k].token.kind) == Unplaced(t.kind)
      case Line(width, style, _, _) => b[k].Line? && b[k].style == style && (width, b[k].width) in pairs
  }

  lemma {:induction false} DeeperMatches(pairs: set<(nat, nat)>, a: Stack, b: Stack, w: nat, v: nat)
    requires SameOrder(pairs) && StacksMatch(pairs, a, b) && (w, v) in pairs
    ensures Deeper(a, w) == Deeper(b, v)
    decreases |a|
  {
    if Top(a).width > w { DeeperMatches(pairs, a[..|a| - 1], b[..|b| - 1], w, v); }
  }

  lemma StepMatches(pairs: set<(nat, nat)>, a: Stack, b: Stack, w: nat, v: nat, style: Option<Style>)
    requires SameOrder(pairs) && StacksMatch(pairs, a, b) && (w, v) in pairs
    ensures match Step(a, w, style)
            case Open(inner) => Step(b, v, style).Open? && StacksMatch(pairs, inner, Step(b, v, style).inner)
            case Close(outer, n) =>
              Step(b, v, style).Close? && Step(b, v, style).n == n && StacksMatch(pairs, outer, Step(b, v, style).outer)
            case Refuse(problem) => Step(b, v, style) == Refuse(problem)
  {
    hide SameOrder, StacksMatch, Deeper;
    MatchedDepth(pairs, a, b);
    if w > Top(a).width {
      OpenMatches(pairs, a, b, w, v, style);
    } else {
      CloseMatches(pairs, a, b, w, v);
    }
  }

  lemma OpenMatches(pairs: set<(nat, nat)>, a: Stack, b: Stack, w: nat, v: nat, style: Option<Style>)
    requires SameOrder(pairs) && StacksMatch(pairs, a, b) && (w, v) in pairs && w > Top(a).width
    ensures v > Top(b).width
    ensures StacksMatch(pairs, a + [Level(w, Some(StyleOr(style)))], b + [Level(v, Some(StyleOr(style)))])
  {
    assert (a[|a| - 1].width, b[|b| - 1].width) in pairs;
  }

  lemma CloseMatches(pairs: set<(nat, nat)>, a: Stack, b: Stack, w: nat, v: nat)
    requires SameOrder(pairs) && StacksMatch(pairs, a, b) && (w, v) in pairs && w <= Top(a).width
    ensures v <= Top(b).width && Deeper(a, w) == Deeper(b, v)
    ensures var x, y := a[..|a| - Deeper(a, w)], b[..|b| - Deeper(b, v)];
            StacksMatch(pairs, x, y) && (Top(x).width == w <==> Top(y).width == v) && Top(x).style == Top(y).style
  {
    hide Deeper;
    assert (a[|a| - 1].width, b[|b| - 1].width) in pairs;
    DeeperMatches(pairs, a, b, w, v);
    var n := Deeper(a, w);
    assert (a[|a| - 1 - n].width, b[|b| - 1 - n].width) in pairs;
  }

  function Kinds(ts: seq<Token>): seq<TokenKind> { seq(|ts|, k requires 0 <= k < |ts| => Unplaced(ts[k].kind)) }

  /** What a lex says apart from positions. */
  function Outcome(x: Lexed): Result<seq<TokenKind>, Problem> {
    if x.Success? then Success(Kinds(x.value)) else Failure(x.error.problem)
  }

  lemma PrependOutcome(ts: seq<Token>, us: seq<Token>, x: Lexed, y: Lexed)
    requires Kinds(ts) == Kinds(us) && Outcome(x) == Outcome(y)
    ensures Outcome(PrependTokens(ts, x)) == Outcome(PrependTokens(us, y))
  {
    assert |ts| == |Kinds(ts)| == |us|;
    if x.Success? {
      assert |x.value| == |Kinds(x.value)| == |y.value|;
      forall k | 0 <= k < |ts| + |x.value|
        ensures Unplaced((ts + x.value)[k].kind) == Unplaced((us + y.value)[k].kind)
      {
        if k < |ts| {
          assert Kinds(ts)[k] == Kinds(us)[k];
        } else {
          assert Kinds(x.value)[k - |ts|] == Kinds(y.value)[k - |ts|];
        }
      }
      assert Kinds(ts + x.value) == Kinds(us + y.value);
    }
  }

  predicate SameError(x: Option<LexError>, y: Option<LexError>) {
    (x.None? && y.None?) || (x.Some? && y.Some? && x.value.problem == y.value.problem)
  }

  lemma {:induction false} ArrangeMatches(pairs: set<(nat, nat)>, a: Raw, b: Raw, x: Stack, y: Stack,
                                          ended: bool, n: nat, m: nat)
    requires SameOrder(pairs) && ItemsMatch(pairs, a.items, b.items) && StacksMatch(pairs, x, y)
             && SameError(a.error, b.error)
    ensures Outcome(Arrange(a, x, ended, n)) == Outcome(Arrange(b, y, ended, m))
    decreases |a.items|
  {
    hide Step, SameOrder, StacksMatch;
    assert |x| == |y| by { MatchedDepth(pairs, x, y); }
    if a.items == [] {
      if a.error.None? {
        assert Kinds(Arrange(a, x, ended, n).value) == Kinds(Arrange(b, y, ended, m).value);
      }
    } else {
      var p, q := Raw(a.items[1..], a.error), Raw(b.items[1..], b.error);
      assert ItemsMatch(pairs, p.items, q.items);
      match a.items[0]
      case Tok(t) =>
        var u := b.items[0].token;
        ArrangeMatches(pairs, p, q, x, y, t.kind.Newline?, n, m);
        PrependOutcome([t], [u], Arrange(p, x, t.kind.Newline?, n), Arrange(q, y, u.kind.Newline?, m));
      case Line(w, style, start, _) =>
        var v, at := b.items[0].width, b.items[0].start;
        StepMatches(pairs, x, y, w, v, style);
        match Step(x, w, style)
        case Open(inner) =>
          var other := Step(y, v, style).inner;
          ArrangeMatches(pairs, p, q, inner, other, false, n, m);
          PrependOutcome([Token(Indent, start, start)], [Token(Indent, at, at)],
                         Arrange(p, inner, false, n), Arrange(q, other, false, m));
        case Close(outer, k) =>
          var other := Step(y, v, style).outer;
          ArrangeMatches(pairs, p, q, outer, other, ended && k == 0, n, m);
          PrependOutcome(Repeat(Dedent, k, start), Repeat(Dedent, k, at),
                         Arrange(p, outer, ended && k == 0, n), Arrange(q, other, ended && k == 0, m));
        case Refuse(_) =>
    }
  }

  lemma MatchedDepth(pairs: set<(nat, nat)>, x: Stack, y: Stack)
    requires StacksMatch(pairs, x, y)
    ensures |x| == |y|
  {
  }

  /** The same kind of token, or lines in the same style and both unindented or both indented. */
  predicate SameItem(x: Item, y: Item) {
    match x
    case Tok(t) => y.Tok? && Unplaced(y.token.kind) == Unplaced(t.kind)
    case Line(width, style, _, _) => y.Line? && y.style == style && (width == 0 <==> y.width == 0)
  }

  /** How two items compare as lines. */
  predicate Shallower(x: Item, y: Item) { x.Line? && y.Line? && x.width < y.width }

  /** The same items in the same order, with line widths that compare alike. */
  predicate SameShape(a: seq<Item>, b: seq<Item>) {
    && |a| == |b|
    && (forall i :: 0 <= i < |a| ==> SameItem(a[i], b[i]))
    && (forall i, j :: 0 <= i < |a| && 0 <= j < |a| ==> (Shallower(a[i], a[j]) <==> Shallower(b[i], b[j])))
  }

  /** Layout depends only on the order of the indents: two sources that differ only in the widths
      of their lines, but not in how the widths compare, lex to the same kinds of tokens or fail
      for the same reason. */
  lemma OnlyOrderMatters(s: string, t: string)
    requires SameShape(Read(s, 0, true).items, Read(t, 0, true).items)
    requires SameError(Read(s, 0, true).error, Read(t, 0, true).error)
    ensures Outcome(Lex(s)) == Outcome(Lex(t))
  {
    var x, y := Read(s, 0, true), Read(t, 0, true);
    var a, b := x.items, y.items;
    var pairs := (set i | 0 <= i < |a| && a[i].Line? :: (a[i].width, b[i].width)) + {(0, 0)};
    PairsKeepOrder(a, b, pairs);
    var base: Stack := [Level(0, None)];
    ArrangeMatches(pairs, x, y, base, base, false, |s|, |t|);
  }

  lemma PairsKeepOrder(a: seq<Item>, b: seq<Item>, pairs: set<(nat, nat)>)
    requires SameShape(a, b) && pairs == (set i | 0 <= i < |a| && a[i].Line? :: (a[i].width, b[i].width)) + {(0, 0)}
    ensures SameOrder(pairs) && ItemsMatch(pairs, a, b)
  {
    forall p, q | p in pairs && q in pairs ensures p.0 < q.0 <==> p.1 < q.1 {
      if p != (0, 0) && q != (0, 0) {
        var i :| 0 <= i < |a| && a[i].Line? && p == (a[i].width, b[i].width);
        var j :| 0 <= j < |a| && a[j].Line? && q == (a[j].width, b[j].width);
        assert SameItem(a[i], b[i]) && SameItem(a[j], b[j]);
        assert Shallower(a[i], a[j]) <==> Shallower(b[i], b[j]);
      }
    }
  }
}
