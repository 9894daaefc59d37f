/** Layout theorems about sources: giving the lines of a source other indents, in the same order
    of widths, keeps its tokens. A token is read from its own characters, wherever it stands, so
    re-indented sources have items of the same shape, whatever spans several lines. */
module Reindentation {
  import opened Ast
  import opened Scanner
  import opened Lexer
  import opened LayoutTheorem

  // ---------------------------------------------------------------- tokens do not depend on what follows

  /** The first `n` characters are the same and end a line. */
  predicate SameStart(s: string, t: string, n: nat) {
    0 < n <= |s| && n <= |t| && s[..n] == t[..n] && s[n - 1] == '\n'
  }

  lemma SameAt(s: string, t: string, n: nat)
    requires SameStart(s, t, n)
    ensures forall k :: 0 <= k < n ==> s[k] == t[k]
  {
    forall k | 0 <= k < n ensures s[k] == t[k] { assert s[..n][k] == t[..n][k]; }
  }

  lemma SameSlice(s: string, t: string, n: nat, a: nat, b: nat)
    requires SameStart(s, t, n) && a <= b <= n
    ensures s[a..b] == t[a..b]
  {
    SameAt(s, t, n);
  }

  lemma {:induction false} RunEndIs(s: string, i: nat, e: nat, accepts: char -> bool)
    requires i <= e < |s| && !accepts(s[e]) && forall k :: i <= k < e ==> accepts(s[k])
    ensures RunEnd(s, i, accepts) == e
    decreases e - i
  {
    if i < e { RunEndIs(s, i + 1, e, accepts); }
  }

  /** A run that stops inside the common start stops there in both. */
  lemma RunEndAgrees(s: string, t: string, n: nat, i: nat, accepts: char -> bool)
    requires SameStart(s, t, n) && i <= n && RunEnd(s, i, accepts) < n
    ensures RunEnd(t, i, accepts) == RunEnd(s, i, accepts)
  {
    SameAt(s, t, n);
    RunEndIs(t, i, RunEnd(s, i, accepts), accepts);
  }

  /** No run of characters other than newlines goes past the line. */
  lemma RunStops(s: string, t: string, n: nat, i: nat, accepts: char -> bool)
    requires SameStart(s, t, n) && i < n && !accepts('\n')
    ensures RunEnd(s, i, accepts) < n && RunEnd(t, i, accepts) == RunEnd(s, i, accepts)
  {
    RunEndAgrees(s, t, n, i, accepts);
  }

  lemma {:induction false} DecimalEndAgrees(s: string, t: string, n: nat, i: nat, dotted: bool)
    requires SameStart(s, t, n) && i < n
    ensures DecimalEnd(t, i, dotted) == DecimalEnd(s, i, dotted) && DecimalEnd(s, i, dotted).0 < n
    decreases n - i
  {
    SameAt(s, t, n);
    if i + 1 < n {
      DecimalEndAgrees(s, t, n, i + 1, dotted);
      DecimalEndAgrees(s, t, n, i + 1, true);
    }
  }

  lemma ScanNumberAgrees(s: string, t: string, n: nat, pos: nat)
    requires SameStart(s, t, n) && pos < n && IsDigit(s[pos])
    ensures t[pos] == s[pos] && ScanNumber(t, pos) == ScanNumber(s, pos)
  {
    hide WithoutBars, IntegerOf;
    SameAt(s, t, n);
    var radix := RadixPrefix(s, pos);
    if radix != 10 {
      RunStops(s, t, n, pos + 2, c => InRadix(c, radix));
      SameSlice(s, t, n, pos + 2, RunEnd(s, pos + 2, c => InRadix(c, radix)));
    } else {
      DecimalEndAgrees(s, t, n, pos + 1, false);
      SameSlice(s, t, n, pos, DecimalEnd(s, pos + 1, false).0);
    }
  }

  lemma {:induction false} ScanQuotedAgrees(s: string, t: string, n: nat, i: nat, start: nat, bytes: bool)
    requires SameStart(s, t, n) && i <= n && ScanQuoted(s, i, start, bytes).Found?
    requires ScanQuoted(s, i, start, bytes).end <= n
    ensures ScanQuoted(t, i, start, bytes) == ScanQuoted(s, i, start, bytes)
    decreases n - i
  {
    SameAt(s, t, n);
    if s[i] == '\\' {
      ScanQuotedAgrees(s, t, n, i + 2, start, bytes);
    } else if s[i] != '"' {
      ScanQuotedAgrees(s, t, n, i + 1, start, bytes);
    }
  }

  lemma ScanWordAgrees(s: string, t: string, n: nat, pos: nat)
    requires SameStart(s, t, n) && pos + 1 < n && ScanWord(s, pos).Found? && ScanWord(s, pos).end <= n
    ensures ScanWord(t, pos) == ScanWord(s, pos)
  {
    SameAt(s, t, n);
    RunStops(s, t, n, pos + 1, InWord);
    var e := RunEnd(s, pos + 1, InWord);
    SameSlice(s, t, n, pos, e);
    if (s[pos..e] == "b" || s[pos..e] == "B") && s[e] == '"' { ScanQuotedAgrees(s, t, n, e + 1, pos, true); }
  }

  lemma {:induction false} InterpolationEndAgrees(s: string, t: string, n: nat, i: nat, depth: nat, brace: nat)
    requires SameStart(s, t, n) && i <= n && InterpolationEnd(s, i, depth, brace).Found?
    requires InterpolationEnd(s, i, depth, brace).end < n
    ensures InterpolationEnd(t, i, depth, brace) == InterpolationEnd(s, i, depth, brace)
    decreases n - i
  {
    SameAt(s, t, n);
    if s[i] == '\\' {
      if i + 2 <= n { InterpolationEndAgrees(s, t, n, i + 2, depth, brace); }
    } else if s[i] == '{' {
      InterpolationEndAgrees(s, t, n, i + 1, depth + 1, brace);
    } else if s[i] == '}' {
      if depth > 1 { InterpolationEndAgrees(s, t, n, i + 1, depth - 1, brace); }
    } else {
      InterpolationEndAgrees(s, t, n, i + 1, depth, brace);
    }
  }

  lemma ScanInterpolationAgrees(s: string, t: string, n: nat, brace: nat)
    requires SameStart(s, t, n) && brace < n && s[brace] == '{'
    requires ScanInterpolation(s, brace).Found? && ScanInterpolation(s, brace).end <= n
    ensures t[brace] == '{' && ScanInterpolation(t, brace) == ScanInterpolation(s, brace)
  {
    SameAt(s, t, n);
    InterpolationEndAgrees(s, t, n, brace + 1, 1, brace);
    SameSlice(s, t, n, brace + 1, InterpolationEnd(s, brace + 1, 1, brace).end);
  }

  lemma ScanEscapeAgrees(s: string, t: string, n: nat, i: nat, start: nat)
    requires SameStart(s, t, n) && i < n && ScanEscape(s, i, start).Found? && ScanEscape(s, i, start).end <= n
    ensures ScanEscape(t, i, start) == ScanEscape(s, i, start)
  {
    hide Value;
    SameAt(s, t, n);
    if s[i] == 'u' {
      RunEndAgrees(s, t, n, i + 2, c => DigitValue(c) < 16);
      SameSlice(s, t, n, i + 2, RunEnd(s, i + 2, c => DigitValue(c) < 16));
    }
  }

  lemma {:induction false} ScanTemplateAgrees(s: string, t: string, n: nat, i: nat, start: nat,
                                              fragments: seq<Fragment>, literal: string, literalStart: nat)
    requires SameStart(s, t, n) && i <= n && ScanTemplate(s, i, start, fragments, literal, literalStart).Found?
    requires ScanTemplate(s, i, start, fragments, literal, literalStart).end <= n
    ensures ScanTemplate(t, i, start, fragments, literal, literalStart)
         == ScanTemplate(s, i, start, fragments, literal, literalStart)
    decreases n - i
  {
    hide ScanEscape, ScanInterpolation, AddLiteral;
    SameAt(s, t, n);
    if s[i] == '\\' {
      var c := ScanEscape(s, i + 1, start);
      ScanEscapeAgrees(s, t, n, i + 1, start);
      ScanTemplateAgrees(s, t, n, c.end, start, fragments, literal + [c.value], literalStart);
    } else if s[i] == '{' {
      var x := ScanInterpolation(s, i);
      ScanInterpolationAgrees(s, t, n, i);
      var inner := Interpolation(x.value, i + 1, x.end - 1);
      ScanTemplateAgrees(s, t, n, x.end, start, AddLiteral(fragments, literal, literalStart, i) + [inner], [], x.end);
    } else if s[i] != '\'' {
      ScanTemplateAgrees(s, t, n, i + 1, start, fragments, literal + [s[i]], literalStart);
    }
  }

  /** A token that ends on the common lines is read alike in both. */
  lemma ScanAgrees(s: string, t: string, n: nat, pos: nat)
    requires SameStart(s, t, n) && pos < n && s[pos] != '\n' && Scan(s, pos).Found? && Scan(s, pos).end <= n
    ensures Scan(t, pos) == Scan(s, pos)
  {
    hide ScanNumber, ScanQuoted, ScanTemplate, ScanWord, Value, SymbolLength;
    SameAt(s, t, n);
    var c := s[pos];
    if IsDigit(c) {
      ScanNumberAgrees(s, t, n, pos);
    } else if StartsWord(c) {
      ScanWordAgrees(s, t, n, pos);
    } else if c == '"' {
      ScanQuotedAgrees(s, t, n, pos + 1, pos, false);
    } else if c == '\'' {
      ScanTemplateAgrees(s, t, n, pos + 1, pos, [], [], pos + 1);
    } else if c == '$' {
      RunStops(s, t, n, pos + 1, IsDigit);
      SameSlice(s, t, n, pos + 1, RunEnd(s, pos + 1, IsDigit));
    } else {
      SymbolLengthAgrees(s, t, n, pos);
      SameSlice(s, t, n, pos, pos + SymbolLength(s, pos));
    }
  }

  lemma SymbolLengthAgrees(s: string, t: string, n: nat, pos: nat)
    requires SameStart(s, t, n) && pos < n && s[pos] != '\n'
    ensures SymbolLength(t, pos) == SymbolLength(s, pos) && pos + SymbolLength(s, pos) <= n
  {
    SameAt(s, t, n);
  }

  // ---------------------------------------------------------------- nor on what comes before

  lemma ShiftAt(u: string, x: string)
    ensures forall k :: 0 <= k < |x| ==> (u + x)[|u| + k] == x[k]
  {
  }

  lemma ShiftSlice(u: string, x: string, a: nat, b: nat)
    requires a <= b <= |x|
    ensures (u + x)[|u| + a..|u| + b] == x[a..b]
  {
  }

  /** The same result, `d` characters further on. */
  predicate Shifted<T(==)>(y: Scanned<T>, x: Scanned<T>, d: nat) {
    if x.Found? then y == Found(x.value, x.end + d) else y.Lost? && y.error.problem == x.error.problem
  }

  lemma {:induction false} RunEndShifts(u: string, x: string, i: nat, accepts: char -> bool)
    requires i <= |x|
    ensures RunEnd(u + x, |u| + i, accepts) == |u| + RunEnd(x, i, accepts)
    decreases |x| - i
  {
    ShiftAt(u, x);
    if i < |x| { RunEndShifts(u, x, i + 1, accepts); }
  }

  lemma {:induction false} DecimalEndShifts(u: string, x: string, i: nat, dotted: bool)
    requires i <= |x|
    ensures DecimalEnd(u + x, |u| + i, dotted) == (|u| + DecimalEnd(x, i, dotted).0, DecimalEnd(x, i, dotted).1)
    decreases |x| - i
  {
    ShiftAt(u, x);
    if i < |x| {
      DecimalEndShifts(u, x, i + 1, dotted);
      DecimalEndShifts(u, x, i + 1, true);
    }
  }

  lemma ScanNumberShifts(u: string, x: string, pos: nat)
    requires pos < |x| && IsDigit(x[pos])
    ensures Shifted(ScanNumber(u + x, |u| + pos), ScanNumber(x, pos), |u|)
  {
    hide WithoutBars, Value;
    ShiftAt(u, x);
    var radix := RadixPrefix(x, pos);
    assert RadixPrefix(u + x, |u| + pos) == radix;
    if radix != 10 {
      RunEndShifts(u, x, pos + 2, c => InRadix(c, radix));
      ShiftSlice(u, x, pos + 2, RunEnd(x, pos + 2, c => InRadix(c, radix)));
    } else {
      DecimalEndShifts(u, x, pos + 1, false);
      ShiftSlice(u, x, pos, DecimalEnd(x, pos + 1, false).0);
    }
  }

  lemma {:induction false} ScanQuotedShifts(u: string, x: string, i: nat, start: nat, bytes: bool)
    requires i <= |x|
    ensures Shifted(ScanQuoted(u + x, |u| + i, |u| + start, bytes), ScanQuoted(x, i, start, bytes), |u|)
    decreases |x| - i
  {
    ShiftAt(u, x);
    if i < |x| {
      if x[i] == '\\' {
        if i + 1 < |x| { ScanQuotedShifts(u, x, i + 2, start, bytes); }
      } else if x[i] != '"' {
        ScanQuotedShifts(u, x, i + 1, start, bytes);
      }
    }
  }

  lemma ScanWordShifts(u: string, x: string, pos: nat)
    requires pos < |x|
    ensures Shifted(ScanWord(u + x, |u| + pos), ScanWord(x, pos), |u|)
  {
    ShiftAt(u, x);
    RunEndShifts(u, x, pos + 1, InWord);
    var e := RunEnd(x, pos + 1, InWord);
    ShiftSlice(u, x, pos, e);
    if e < |x| && x[e] == '"' { ScanQuotedShifts(u, x, e + 1, pos, true); }
  }

  lemma {:induction false} InterpolationEndShifts(u: string, x: string, i: nat, depth: nat, brace: nat)
    requires i <= |x|
    ensures Shifted(InterpolationEnd(u + x, |u| + i, depth, |u| + brace), InterpolationEnd(x, i, depth, brace), |u|)
    decreases |x| - i
  {
    ShiftAt(u, x);
    if i < |x| {
      if x[i] == '\\' {
        InterpolationEndShifts(u, x, if i + 1 < |x| then i + 2 else i + 1, depth, brace);
      } else if x[i] == '{' {
        InterpolationEndShifts(u, x, i + 1, depth + 1, brace);
      } else if x[i] == '}' {
        if depth > 1 { InterpolationEndShifts(u, x, i + 1, depth - 1, brace); }
      } else {
        InterpolationEndShifts(u, x, i + 1, depth, brace);
      }
    }
  }

  lemma ScanInterpolationShifts(u: string, x: string, brace: nat)
    requires brace < |x| && x[brace] == '{'
    ensures (u + x)[|u| + brace] == '{'
    ensures Shifted(ScanInterpolation(u + x, |u| + brace), ScanInterpolation(x, brace), |u|)
  {
    ShiftAt(u, x);
    InterpolationEndShifts(u, x, brace + 1, 1, brace);
    var e := InterpolationEnd(x, brace + 1, 1, brace);
    if e.Found? { ShiftSlice(u, x, brace + 1, e.end); }
  }

  lemma ScanEscapeShifts(u: string, x: string, i: nat, start: nat)
    requires i <= |x|
    ensures Shifted(ScanEscape(u + x, |u| + i, |u| + start), ScanEscape(x, i, start), |u|)
  {
    hide Value;
    ShiftAt(u, x);
    if i < |x| && x[i] == 'u' { ScanCodepointShifts(u, x, i + 1, start); }
  }

  lemma ScanCodepointShifts(u: string, x: string, i: nat, start: nat)
    requires i <= |x|
    ensures Shifted(ScanCodepoint(u + x, |u| + i, |u| + start), ScanCodepoint(x, i, start), |u|)
  {
    hide Value;
    ShiftAt(u, x);
    if i < |x| {
      RunEndShifts(u, x, i + 1, c => DigitValue(c) < 16);
      ShiftSlice(u, x, i + 1, RunEnd(x, i + 1, c => DigitValue(c) < 16));
    }
  }

  /** The same fragments but for their positions. */
  predicate SameFragments(f: seq<Fragment>, g: seq<Fragment>) {
    |f| == |g| && forall k :: 0 <= k < |f| ==> UnplacedFragment(f[k]) == UnplacedFragment(g[k])
  }

  lemma AddLiteralKeepsSame(f: seq<Fragment>, g: seq<Fragment>, literal: string, a: nat, b: nat, c: nat, d: nat)
    requires SameFragments(f, g)
    ensures SameFragments(AddLiteral(f, literal, a, b), AddLiteral(g, literal, c, d))
  {
  }

  predicate ShiftedTemplate(y: Scanned<seq<Fragment>>, x: Scanned<seq<Fragment>>, d: nat) {
    if x.Found? then y.Found? && SameFragments(y.value, x.value) && y.end == x.end + d
    else y.Lost? && y.error.problem == x.error.problem
  }

  lemma {:induction false} ScanTemplateShifts(u: string, x: string, i: nat, start: nat, f: seq<Fragment>,
                                              g: seq<Fragment>, literal: string, literalStart: nat)
    requires i <= |x| && SameFragments(f, g)
    ensures ShiftedTemplate(ScanTemplate(u + x, |u| + i, |u| + start, f, literal, |u| + literalStart),
                            ScanTemplate(x, i, start, g, literal, literalStart), |u|)
    decreases |x| - i
  {
    hide ScanEscape, ScanInterpolation, AddLiteral, SameFragments;
    ShiftAt(u, x);
    if i < |x| {
      AddLiteralKeepsSame(f, g, literal, |u| + literalStart, |u| + i, literalStart, i);
      if x[i] == '\\' {
        var c := ScanEscape(x, i + 1, start);
        ScanEscapeShifts(u, x, i + 1, start);
        if c.Found? { ScanTemplateShifts(u, x, c.end, start, f, g, literal + [c.value], literalStart); }
      } else if x[i] == '{' {
        var p := ScanInterpolation(x, i);
        ScanInterpolationShifts(u, x, i);
        if p.Found? {
          var f', g' := AddLiteral(f, literal, |u| + literalStart, |u| + i), AddLiteral(g, literal, literalStart, i);
          var a := Interpolation(p.value, |u| + i + 1, |u| + p.end - 1);
          var b := Interpolation(p.value, i + 1, p.end - 1);
          OneMoreSame(f', g', a, b);
          ScanTemplateShifts(u, x, p.end, start, f' + [a], g' + [b], [], p.end);
        }
      } else if x[i] != '\'' {
        ScanTemplateShifts(u, x, i + 1, start, f, g, literal + [x[i]], literalStart);
      }
    }
  }

  lemma OneMoreSame(f: seq<Fragment>, g: seq<Fragment>, a: Fragment, b: Fragment)
    requires SameFragments(f, g) && UnplacedFragment(a) == UnplacedFragment(b)
    ensures SameFragments(f + [a], g + [b])
  {
  }

  lemma {:induction false} SameLiteralText(f: seq<Fragment>, g: seq<Fragment>)
    requires SameFragments(f, g)
    ensures LiteralText(f) == LiteralText(g)
    decreases |f|
  {
    if f != [] {
      assert UnplacedFragment(f[0]) == UnplacedFragment(g[0]);
      assert SameFragments(f[1..], g[1..]) by {
        forall k | 0 <= k < |f| - 1 ensures UnplacedFragment(f[1..][k]) == UnplacedFragment(g[1..][k]) {
          assert f[1..][k] == f[k + 1] && g[1..][k] == g[k + 1];
        }
      }
      SameLiteralText(f[1..], g[1..]);
    }
  }

  lemma SameTemplateToken(f: seq<Fragment>, g: seq<Fragment>)
    requires SameFragments(f, g)
    ensures Unplaced(TemplateToken(f)) == Unplaced(TemplateToken(g))
  {
    SameLiteralText(f, g);
    forall k | 0 <= k < |f| ensures f[k].Interpolation? == g[k].Interpolation? {
      assert UnplacedFragment(f[k]) == UnplacedFragment(g[k]);
    }
    if exists k :: 0 <= k < |f| && f[k].Interpolation? {
      var k :| 0 <= k < |f| && f[k].Interpolation?;
      assert g[k].Interpolation?;
      assert Unplaced(Template(f)) == Unplaced(Template(g));
    } else {
      assert forall k :: 0 <= k < |g| ==> !g[k].Interpolation?;
    }
  }

  /** The same token `d` characters further on, up to the positions inside templates. */
  predicate ShiftedToken(y: Scanned<TokenKind>, x: Scanned<TokenKind>, d: nat) {
    if x.Found? then y.Found? && Unplaced(y.value) == Unplaced(x.value) && y.end == x.end + d
    else y.Lost? && y.error.problem == x.error.problem
  }

  /** Reading a token does not depend on what stands before it. */
  lemma ScanShifts(u: string, x: string, pos: nat)
    requires pos < |x|
    ensures ShiftedToken(Scan(u + x, |u| + pos), Scan(x, pos), |u|)
  {
    hide ScanNumber, ScanQuoted, ScanTemplate, ScanWord, Value, TemplateToken, SameFragments, Unplaced;
    ShiftAt(u, x);
    var c := x[pos];
    if IsDigit(c) {
      ScanNumberShifts(u, x, pos);
    } else if StartsWord(c) {
      ScanWordShifts(u, x, pos);
    } else if c == '"' {
      ScanQuotedShifts(u, x, pos + 1, pos, false);
    } else if c == '\'' {
      assert SameFragments([], []) by { NoFragments(); }
      ScanTemplateShifts(u, x, pos + 1, pos, [], [], [], pos + 1);
      var t := ScanTemplate(x, pos + 1, pos, [], [], pos + 1);
      if t.Found? {
        SameTemplateToken(ScanTemplate(u + x, |u| + pos + 1, |u| + pos, [], [], |u| + pos + 1).value, t.value);
      }
    } else if c == '$' {
      RunEndShifts(u, x, pos + 1, IsDigit);
      ShiftSlice(u, x, pos + 1, RunEnd(x, pos + 1, IsDigit));
    } else {
      SymbolLengthShifts(u, x, pos);
      ShiftSlice(u, x, pos, pos + SymbolLength(x, pos));
    }
  }

  lemma NoFragments()
    ensures SameFragments([], [])
  {
  }

  lemma SymbolLengthShifts(u: string, x: string, pos: nat)
    requires pos < |x|
    ensures SymbolLength(u + x, |u| + pos) == SymbolLength(x, pos)
  {
    ShiftAt(u, x);
  }

  // ---------------------------------------------------------------- re-indented sources

  type Padding = Level -> string

  /** `pad` gives a line another indent in its style. */
  ghost predicate Pads(pad: Padding, x: Level) {
    && (forall k :: 0 <= k < |pad(x)| ==> IsBlank(pad(x)[k])) && !(' ' in pad(x) && '\t' in pad(x))
    && StyleOf(pad(x)) == x.style && (Width(pad(x)) == 0 <==> x.width == 0)
  }

  function LevelOf(item: Item): Level
    requires item.Line?
  {
    Level(item.width, item.style)
  }

  ghost predicate PadsLines(items: seq<Item>, pad: Padding) {
    forall k :: 0 <= k < |items| && items[k].Line? ==> Pads(pad, LevelOf(items[k]))
  }

  /** The lines get other indents in the same styles, whose widths are in the same order. */
  ghost predicate KeepsOrder(items: seq<Item>, pad: Padding) {
    && PadsLines(items, pad)
    && forall i, j :: 0 <= i < |items| && 0 <= j < |items| && items[i].Line? && items[j].Line? ==>
         (items[i].width < items[j].width <==> Width(pad(LevelOf(items[i]))) < Width(pad(LevelOf(items[j]))))
  }

  lemma PadsTheRest(item: Item, rest: Raw, pad: Padding)
    requires PadsLines(PrependItem(item, rest).items, pad)
    ensures PadsLines(rest.items, pad) && (item.Line? ==> Pads(pad, LevelOf(item)))
  {
    hide Pads;
    var all := PrependItem(item, rest).items;
    assert all[0] == item;
    forall k | 0 <= k < |rest.items| && rest.items[k].Line? ensures Pads(pad, LevelOf(rest.items[k])) {
      assert all[k + 1] == rest.items[k];
    }
  }

  /** The source from `pos` on with the indent of every line that is not blank replaced; what
      stands in tokens and comments, on however many lines, is kept. Behind an error everything
      is kept. */
  function Reindent(s: string, pos: nat, lineStart: bool, pad: Padding): string
    requires pos <= |s|
    decreases |s| - pos, if lineStart then 1 else 0
  {
    if pos == |s| then ""
    else if s[pos] == '\r' then [s[pos]] + Reindent(s, pos + 1, lineStart, pad)
    else if lineStart then
      var e := RunEnd(s, pos, IsBlank);
      var indent := s[pos..e];
      if ' ' in indent && '\t' in indent then s[pos..]
      else if e == |s| || s[e] == '\n' || s[e] == '\r' then indent + Reindent(s, e, false, pad)
      else pad(Level(Width(indent), StyleOf(indent))) + Reindent(s, e, false, pad)
    else if s[pos] == '\n' then [s[pos]] + Reindent(s, pos + 1, true, pad)
    else if s[pos] == '#' then
      var e := RunEnd(s, pos + 1, NotNewline);
      s[pos..e] + Reindent(s, e, false, pad)
    else if IsBlank(s[pos]) then [s[pos]] + Reindent(s, pos + 1, false, pad)
    else
      var x := Scan(s, pos);
      if x.Lost? then s[pos..] else s[pos..x.end] + Reindent(s, x.end, false, pad)
  }

  /** Where the piece of a line that is kept in one step ends. */
  function PieceEnd(s: string, pos: nat): (e: nat)
    requires pos < |s| && s[pos] != '\n'
    ensures pos < e <= |s|
  {
    if s[pos] == '\r' then pos + 1
    else if s[pos] == '#' then RunEnd(s, pos + 1, NotNewline)
    else if IsBlank(s[pos]) then pos + 1
    else if Scan(s, pos).Found? then Scan(s, pos).end
    else |s|
  }

  predicate FailsAt(s: string, pos: nat)
    requires pos < |s|
  {
    s[pos] != '\r' && s[pos] != '\n' && s[pos] != '#' && !IsBlank(s[pos]) && Scan(s, pos).Lost?
  }

  lemma ReindentsPiece(s: string, pos: nat, pad: Padding)
    requires pos < |s| && s[pos] != '\n'
    ensures var e := PieceEnd(s, pos);
            Reindent(s, pos, false, pad) == s[pos..e] + Reindent(s, e, false, pad)
  {
    hide Scan, RunEnd, Reindent, IsBlank;
    if FailsAt(s, pos) {
      KeepsAfterError(s, pos, pad);
      NothingLeft(s, pad);
      assert s[pos..] + "" == s[pos..] == s[pos..|s|];
    } else {
      KeepsPiece(s, pos, pad);
    }
  }

  lemma KeepsAfterError(s: string, pos: nat, pad: Padding)
    requires pos < |s| && FailsAt(s, pos)
    ensures Reindent(s, pos, false, pad) == s[pos..]
  {
    hide Scan, RunEnd, IsBlank;
  }

  lemma KeepsPiece(s: string, pos: nat, pad: Padding)
    requires pos < |s| && s[pos] != '\n' && !FailsAt(s, pos)
    ensures var e := PieceEnd(s, pos);
            Reindent(s, pos, false, pad) == s[pos..e] + Reindent(s, e, false, pad)
  {
    hide Scan, RunEnd, IsBlank;
    assert s[pos..pos + 1] == [s[pos]];
    assert PieceEnd(s, pos) == pos + 1 ==> s[pos..PieceEnd(s, pos)] == [s[pos]];
  }

  lemma ReindentsNewline(s: string, pos: nat, pad: Padding)
    requires pos < |s| && s[pos] == '\n'
    ensures Reindent(s, pos, false, pad) == [s[pos]] + Reindent(s, pos + 1, true, pad)
  {
    hide Scan, RunEnd;
  }

  lemma NothingLeft(s: string, pad: Padding)
    ensures Reindent(s, |s|, false, pad) == ""
  {
  }

  /** Within a line nothing changes up to its end. */
  lemma {:induction false} RestOfLineStays(s: string, pos: nat, pad: Padding) returns (m: nat)
    requires pos <= |s|
    ensures var r := Reindent(s, pos, false, pad);
            && pos + m <= |s| && m <= |r| && r[..m] == s[pos..pos + m]
            && (r == s[pos..] || (m > 0 && s[pos + m - 1] == '\n'))
            && (pos < |s| ==> r != "" && r[0] == s[pos])
    decreases |s| - pos
  {
    hide Scan, RunEnd, Reindent, PieceEnd;
    var r := Reindent(s, pos, false, pad);
    if pos == |s| {
      NothingLeft(s, pad);
      m := 0;
    } else if s[pos] == '\n' {
      ReindentsNewline(s, pos, pad);
      m := 1;
      assert r[..1] == [s[pos]] == s[pos..pos + 1];
    } else {
      var e := PieceEnd(s, pos);
      ReindentsPiece(s, pos, pad);
      var more := RestOfLineStays(s, e, pad);
      m := e - pos + more;
      assert s[pos..pos + m] == s[pos..e] + s[e..e + more];
      assert r[..m] == s[pos..e] + Reindent(s, e, false, pad)[..more];
      assert s[pos..] == s[pos..e] + s[e..];
    }
  }

  /** Items that differ only in the indents. */
  ghost predicate SameButIndent(a: Item, b: Item, pad: Padding) {
    match a
    case Tok(x) => b.Tok? && Unplaced(b.token.kind) == Unplaced(x.kind)
    case Line(width, style, _, _) =>
      b.Line? && b.style == style && WellStyled(Level(width, style)) && b.width == Width(pad(Level(width, style)))
  }

  ghost predicate SameButIndents(x: Raw, y: Raw, pad: Padding) {
    && |x.items| == |y.items| && SameError(x.error, y.error)
    && forall k :: 0 <= k < |x.items| ==> SameButIndent(x.items[k], y.items[k], pad)
  }

  lemma PrependKeepsSame(a: Item, b: Item, x: Raw, y: Raw, pad: Padding)
    requires SameButIndent(a, b, pad) && SameButIndents(x, y, pad)
    ensures SameButIndents(PrependItem(a, x), PrependItem(b, y), pad)
  {
  }

  lemma {:induction false} RunEndWhole(s: string, i: nat, accepts: char -> bool)
    requires i <= |s| && forall k :: i <= k < |s| ==> accepts(s[k])
    ensures RunEnd(s, i, accepts) == |s|
    decreases |s| - i
  {
    if i < |s| { RunEndWhole(s, i + 1, accepts); }
  }

  /** A run copied behind `u` ends where the copy ends. */
  lemma CopiedRun(u: string, from: string, rest: string, accepts: char -> bool)
    requires forall k :: 0 <= k < |from| ==> accepts(from[k])
    requires rest != "" ==> !accepts(rest[0])
    ensures RunEnd(u + (from + rest), |u|, accepts) == |u| + |from|
  {
    var t := u + (from + rest);
    assert forall k :: 0 <= k < |from| ==> t[|u| + k] == from[k];
    if rest == "" {
      RunEndWhole(t, |u|, accepts);
    } else {
      assert t[|u| + |from|] == rest[0];
      RunEndIs(t, |u|, |u| + |from|, accepts);
    }
  }

  lemma BehindPrefix(s: string, pos: nat)
    requires pos <= |s|
    ensures s == s[..pos] + s[pos..] && |s[..pos]| == pos
  {
  }

  lemma StartsAlike(a: string, b: string, r: string, m: nat)
    requires 0 < m <= |b| && m <= |r| && r[..m] == b[..m] && b[m - 1] == '\n'
    ensures SameStart(a + b, a + r, |a| + m)
  {
    assert (a + b)[..|a| + m] == a + b[..m] && (a + r)[..|a| + m] == a + r[..m];
  }

  /** A token, copied behind other text and with other lines after it, is the same token. */
  lemma CopiedToken(s: string, pos: nat, u: string, pad: Padding)
    requires pos < |s| && s[pos] != '\n' && Scan(s, pos).Found?
    ensures var e := Scan(s, pos).end;
            var y := Scan(u + (s[pos..e] + Reindent(s, e, false, pad)), |u|);
            y.Found? && Unplaced(y.value) == Unplaced(Scan(s, pos).value) && y.end == |u| + (e - pos)
  {
    hide Scan, Unplaced, Reindent;
    var e := Scan(s, pos).end;
    var x, r := s[pos..], Reindent(s, e, false, pad);
    var y := s[pos..e] + r;
    BehindPrefix(s, pos);
    ScanShifts(s[..pos], x, 0);
    var m := RestOfLineStays(s, e, pad);
    assert x == s[pos..e] + s[e..];
    if r != s[e..] {
      StartsAlike(s[pos..e], s[e..], r, m);
      ScanAgrees(x, y, e - pos + m, 0);
    }
    ScanShifts(u, y, 0);
  }

  lemma CopiedError(s: string, pos: nat, u: string)
    requires pos < |s| && Scan(s, pos).Lost?
    ensures Scan(u + s[pos..], |u|).Lost? && Scan(u + s[pos..], |u|).error.problem == Scan(s, pos).error.problem
  {
    hide Scan;
    BehindPrefix(s, pos);
    ScanShifts(s[..pos], s[pos..], 0);
    ScanShifts(u, s[pos..], 0);
  }

  /** Reading the re-indented source behind any text gives the same items but for the indents,
      and the same kind of error. */
  lemma {:induction false} ReindentedReads(s: string, pos: nat, lineStart: bool, pad: Padding, u: string)
    requires pos <= |s| && PadsLines(Read(s, pos, lineStart).items, pad)
    ensures SameButIndents(Read(s, pos, lineStart), Read(u + Reindent(s, pos, lineStart, pad), |u|, lineStart), pad)
    decreases |s| - pos, if lineStart then 1 else 0, 2
  {
    hide Scan, RunEnd, PadsLines, SameButIndents;
    if pos == |s| {
      assert u + "" == u;
      NothingRead(pad);
    } else if lineStart && s[pos] != '\r' {
      ReindentedLineReads(s, pos, pad, u);
    } else {
      ReindentedRestReads(s, pos, lineStart, pad, u);
    }
  }

  lemma NothingRead(pad: Padding)
    ensures SameButIndents(Raw([], None), Raw([], None), pad)
  {
  }

  lemma ErrorRead(x: LexError, y: LexError, pad: Padding)
    requires x.problem == y.problem
    ensures SameButIndents(Raw([], Some(x)), Raw([], Some(y)), pad)
  {
  }

  lemma {:induction false} ReindentedLineReads(s: string, pos: nat, pad: Padding, u: string)
    requires pos < |s| && s[pos] != '\r' && PadsLines(Read(s, pos, true).items, pad)
    ensures SameButIndents(Read(s, pos, true), Read(u + Reindent(s, pos, true, pad), |u|, true), pad)
    decreases |s| - pos, 1, 1
  {
    hide Scan, RunEnd, SameButIndents, PadsLines, Read, Reindent, Width, StyleOf;
    var e := RunEnd(s, pos, IsBlank);
    var indent := s[pos..e];
    if MixedAt(s, pos) {
      MixedReads(s, pos, pad, u);
    } else if e == |s| || s[e] == '\n' || s[e] == '\r' {
      ReindentedBlankReads(s, pos, pad, u);
    } else {
      ReindentedIndentReads(s, pos, pad, u);
    }
  }

  lemma RunInSuffix(s: string, pos: nat, accepts: char -> bool)
    requires pos <= |s|
    ensures RunEnd(s, pos, accepts) == pos + RunEnd(s[pos..], 0, accepts)
  {
    hide RunEnd;
    assert s == s[..pos] + s[pos..];
    RunEndShifts(s[..pos], s[pos..], 0, accepts);
  }

  lemma RunBehind(u: string, x: string, accepts: char -> bool)
    ensures RunEnd(u + x, |u|, accepts) == |u| + RunEnd(x, 0, accepts)
    ensures (u + x)[|u|..|u| + RunEnd(x, 0, accepts)] == x[..RunEnd(x, 0, accepts)]
  {
    hide RunEnd;
    RunEndShifts(u, x, 0, accepts);
  }

  lemma SuffixSlice(s: string, pos: nat, k: nat)
    requires pos + k <= |s|
    ensures s[pos..][..k] == s[pos..pos + k]
  {
  }

  lemma FirstBehind(u: string, s: string, pos: nat)
    requires pos < |s|
    ensures (u + s[pos..])[|u|] == s[pos]
  {
  }

  predicate MixedAt(s: string, pos: nat)
    requires pos <= |s|
  {
    var indent := s[pos..RunEnd(s, pos, IsBlank)];
    ' ' in indent && '\t' in indent
  }

  lemma ReadsMixed(t: string, j: nat)
    requires j < |t| && t[j] != '\r' && MixedAt(t, j)
    ensures var x := Read(t, j, true);
            x.items == [] && x.error.Some? && x.error.value.problem.MixedIndentation?
  {
    hide Read, RunEnd, Width, StyleOf;
    ReadsLine(t, j);
  }

  lemma MixedStays(s: string, pos: nat, u: string)
    requires pos < |s| && MixedAt(s, pos)
    ensures (u + s[pos..])[|u|] == s[pos] && MixedAt(u + s[pos..], |u|)
  {
    hide RunEnd;
    var x := s[pos..];
    FirstBehind(u, s, pos);
    RunInSuffix(s, pos, IsBlank);
    SuffixSlice(s, pos, RunEnd(x, 0, IsBlank));
    assert MixedAt(x, 0);
    MixedBehind(u, x);
  }

  lemma MixedBehind(u: string, x: string)
    requires MixedAt(x, 0)
    ensures MixedAt(u + x, |u|)
  {
    hide RunEnd;
    RunBehind(u, x, IsBlank);
  }

  lemma MixedIsKept(s: string, pos: nat, pad: Padding)
    requires pos < |s| && s[pos] != '\r' && MixedAt(s, pos)
    ensures Reindent(s, pos, true, pad) == s[pos..]
  {
    hide Reindent, RunEnd, Width, StyleOf;
    ReindentsLine(s, pos, pad);
  }

  lemma BothFail(x: Raw, y: Raw, pad: Padding)
    requires x.items == [] && y.items == [] && x.error.Some? && y.error.Some?
    requires x.error.value.problem == y.error.value.problem
    ensures SameButIndents(x, y, pad)
  {
  }

  lemma MixedReads(s: string, pos: nat, pad: Padding, u: string)
    requires pos < |s| && s[pos] != '\r' && MixedAt(s, pos)
    ensures SameButIndents(Read(s, pos, true), Read(u + Reindent(s, pos, true, pad), |u|, true), pad)
  {
    hide MixedAt, Read, Reindent, SameButIndents;
    MixedIsKept(s, pos, pad);
    MixedStays(s, pos, u);
    ReadsMixed(s, pos);
    ReadsMixed(u + s[pos..], |u|);
    BothFail(Read(s, pos, true), Read(u + s[pos..], |u|, true), pad);
  }

  lemma {:induction false} ReindentedBlankReads(s: string, pos: nat, pad: Padding, u: string)
    requires pos < |s| && s[pos] != '\r' && PadsLines(Read(s, pos, true).items, pad)
    requires var e := RunEnd(s, pos, IsBlank);
             !(' ' in s[pos..e] && '\t' in s[pos..e]) && (e == |s| || s[e] == '\n' || s[e] == '\r')
    ensures SameButIndents(Read(s, pos, true), Read(u + Reindent(s, pos, true, pad), |u|, true), pad)
    decreases |s| - pos, 1, 0
  {
    hide Scan, SameButIndents, PadsLines, Read, Reindent, Width, StyleOf;
    var e := RunEnd(s, pos, IsBlank);
    var indent, rest := s[pos..e], Reindent(s, e, false, pad);
    ReadsLine(s, pos);
    ReindentsLine(s, pos, pad);
    var m := RestOfLineStays(s, e, pad);
    if e == |s| { NothingLeft(s, pad); }
    hide RunEnd;
    ReindentedReads(s, e, false, pad, u + indent);
    BlankLineReads(u, indent, rest);
  }

  lemma {:induction false} ReindentedIndentReads(s: string, pos: nat, pad: Padding, u: string)
    requires pos < |s| && s[pos] != '\r' && PadsLines(Read(s, pos, true).items, pad)
    requires var e := RunEnd(s, pos, IsBlank);
             !(' ' in s[pos..e] && '\t' in s[pos..e]) && e < |s| && s[e] != '\n' && s[e] != '\r'
    ensures SameButIndents(Read(s, pos, true), Read(u + Reindent(s, pos, true, pad), |u|, true), pad)
    decreases |s| - pos, 1, 0
  {
    hide Scan, SameButIndents, PadsLines, Read, Reindent, Width, StyleOf;
    var e := RunEnd(s, pos, IsBlank);
    var indent, rest := s[pos..e], Reindent(s, e, false, pad);
    var level := Level(Width(indent), StyleOf(indent));
    ReadsLine(s, pos);
    ReindentsLine(s, pos, pad);
    var m := RestOfLineStays(s, e, pad);
    LevelIsWellStyled(indent);
    PadsTheRest(Line(level.width, level.style, pos, e), Read(s, e, false), pad);
    PaddingFacts(pad, level);
    hide RunEnd;
    ReindentedReads(s, e, false, pad, u + pad(level));
    IndentedLineReads(u, pad(level), rest);
    PrependKeepsSame(Line(level.width, level.style, pos, e),
                     Line(Width(pad(level)), level.style, |u|, |u| + |pad(level)|),
                     Read(s, e, false), Read((u + pad(level)) + rest, |u| + |pad(level)|, false), pad);
  }

  lemma PaddingFacts(pad: Padding, x: Level)
    requires Pads(pad, x)
    ensures forall k :: 0 <= k < |pad(x)| ==> IsBlank(pad(x)[k])
    ensures !(' ' in pad(x) && '\t' in pad(x)) && StyleOf(pad(x)) == x.style
  {
  }

  /** How a line start is read. */
  lemma ReadsLine(t: string, j: nat)
    requires j < |t| && t[j] != '\r'
    ensures var e := RunEnd(t, j, IsBlank);
            var indent := t[j..e];
            Read(t, j, true) ==
              if ' ' in indent && '\t' in indent then Raw([], Some(LexError(MixedIndentation, j, e)))
              else if e == |t| || t[e] == '\n' || t[e] == '\r' then Read(t, e, false)
              else PrependItem(Line(Width(indent), StyleOf(indent), j, e), Read(t, e, false))
  {
    hide Scan, RunEnd, Width, StyleOf;
  }

  /** How a line start is re-indented. */
  lemma ReindentsLine(s: string, pos: nat, pad: Padding)
    requires pos < |s| && s[pos] != '\r'
    ensures var e := RunEnd(s, pos, IsBlank);
            var indent := s[pos..e];
            Reindent(s, pos, true, pad) ==
              if ' ' in indent && '\t' in indent then s[pos..]
              else if e == |s| || s[e] == '\n' || s[e] == '\r' then indent + Reindent(s, e, false, pad)
              else pad(Level(Width(indent), StyleOf(indent))) + Reindent(s, e, false, pad)
  {
    hide Scan, RunEnd, Width, StyleOf;
  }

  lemma BlankLineReads(u: string, indent: string, rest: string)
    requires forall k :: 0 <= k < |indent| ==> IsBlank(indent[k])
    requires !(' ' in indent && '\t' in indent) && (rest == "" || rest[0] == '\n' || rest[0] == '\r')
    requires indent != "" || (rest != "" && rest[0] != '\r')
    ensures Read(u + (indent + rest), |u|, true) == Read((u + indent) + rest, |u| + |indent|, false)
  {
    hide Scan, RunEnd, Read;
    var t := u + (indent + rest);
    assert t[|u|] == (indent + rest)[0];
    ReadsLine(t, |u|);
    CopiedRun(u, indent, rest, IsBlank);
    assert t == (u + indent) + rest && t[|u|..|u| + |indent|] == indent;
    if rest != "" { assert t[|u| + |indent|] == rest[0]; }
  }

  lemma IndentedLineReads(u: string, indent: string, rest: string)
    requires forall k :: 0 <= k < |indent| ==> IsBlank(indent[k])
    requires !(' ' in indent && '\t' in indent)
    requires rest != "" && rest[0] != '\n' && rest[0] != '\r' && !IsBlank(rest[0])
    ensures Read(u + (indent + rest), |u|, true) ==
            PrependItem(Line(Width(indent), StyleOf(indent), |u|, |u| + |indent|),
                        Read((u + indent) + rest, |u| + |indent|, false))
  {
    hide Scan, RunEnd, Read;
    var t := u + (indent + rest);
    assert t[|u|] == (indent + rest)[0];
    ReadsLine(t, |u|);
    CopiedRun(u, indent, rest, IsBlank);
    assert t == (u + indent) + rest && t[|u|..|u| + |indent|] == indent;
    assert t[|u| + |indent|] == rest[0];
  }

  /** One character that is copied. */
  lemma OneCopied(u: string, c: char, rest: string)
    ensures var t := u + ([c] + rest); t == (u + [c]) + rest && t[|u|] == c && |u + [c]| == |u| + 1
  {
  }

  lemma {:induction false} ReindentedRestReads(s: string, pos: nat, lineStart: bool, pad: Padding, u: string)
    requires pos < |s| && (lineStart ==> s[pos] == '\r')
    requires PadsLines(Read(s, pos, lineStart).items, pad)
    ensures SameButIndents(Read(s, pos, lineStart), Read(u + Reindent(s, pos, lineStart, pad), |u|, lineStart), pad)
    decreases |s| - pos, if lineStart then 1 else 0, 1
  {
    hide Scan, RunEnd, SameButIndents, PadsLines;
    var c := s[pos];
    if c == '\r' {
      ReindentedReads(s, pos + 1, lineStart, pad, u + [c]);
      OneCopied(u, c, Reindent(s, pos + 1, lineStart, pad));
    } else if c == '\n' {
      var rest := Reindent(s, pos + 1, true, pad);
      PadsTheRest(Tok(Token(Newline, pos, pos + 1)), Read(s, pos + 1, true), pad);
      ReindentedReads(s, pos + 1, true, pad, u + [c]);
      OneCopied(u, c, rest);
      PrependKeepsSame(Tok(Token(Newline, pos, pos + 1)), Tok(Token(Newline, |u|, |u| + 1)),
                       Read(s, pos + 1, true), Read((u + [c]) + rest, |u| + 1, true), pad);
    } else if c == '#' {
      ReindentedCommentReads(s, pos, pad, u);
    } else if IsBlank(c) {
      ReindentedReads(s, pos + 1, false, pad, u + [c]);
      OneCopied(u, c, Reindent(s, pos + 1, false, pad));
    } else {
      ReindentedTokenReads(s, pos, pad, u);
    }
  }

  lemma {:induction false} ReindentedCommentReads(s: string, pos: nat, pad: Padding, u: string)
    requires pos < |s| && s[pos] == '#' && PadsLines(Read(s, pos, false).items, pad)
    ensures SameButIndents(Read(s, pos, false), Read(u + Reindent(s, pos, false, pad), |u|, false), pad)
    decreases |s| - pos, 0, 0
  {
    hide Scan, RunEnd, SameButIndents, PadsLines, Read, Reindent;
    var e := RunEnd(s, pos + 1, NotNewline);
    var rest := Reindent(s, e, false, pad);
    ReindentsPiece(s, pos, pad);
    ReadsComment(s, pos);
    CopiedComment(s, pos, pad, u);
    ReindentedReads(s, e, false, pad, u + s[pos..e]);
  }

  lemma Regroup(a: string, b: string, c: string, d: string)
    ensures a + ((b + c) + d) == (a + b) + (c + d) == (a + (b + c)) + d
  {
  }

  lemma CommentReads(u: string, comment: string, rest: string)
    requires (forall k :: 0 <= k < |comment| ==> NotNewline(comment[k])) && (rest == "" || rest[0] == '\n')
    ensures var text := ['#'] + comment;
            Read(u + (text + rest), |u|, false) == Read((u + text) + rest, |u + text|, false)
  {
    hide Read;
    var t := u + ((['#'] + comment) + rest);
    Regroup(u, ['#'], comment, rest);
    CopiedRun(u + ['#'], comment, rest, NotNewline);
    assert t[|u|] == '#';
    ReadsComment(t, |u|);
  }

  lemma CopiedComment(s: string, pos: nat, pad: Padding, u: string)
    requires pos < |s| && s[pos] == '#'
    ensures var e := RunEnd(s, pos + 1, NotNewline);
            var rest := Reindent(s, e, false, pad);
            Read(u + (s[pos..e] + rest), |u|, false) == Read((u + s[pos..e]) + rest, |u + s[pos..e]|, false)
  {
    hide Read, Reindent;
    var e := RunEnd(s, pos + 1, NotNewline);
    var comment := s[pos + 1..e];
    var m := RestOfLineStays(s, e, pad);
    if e == |s| { NothingLeft(s, pad); }
    assert s[pos..e] == ['#'] + comment;
    CommentReads(u, comment, Reindent(s, e, false, pad));
  }

  lemma ReadsComment(t: string, j: nat)
    requires j < |t| && t[j] == '#'
    ensures Read(t, j, false) == Read(t, RunEnd(t, j + 1, NotNewline), false)
  {
    hide Scan, RunEnd;
  }

  lemma {:induction false} ReindentedTokenReads(s: string, pos: nat, pad: Padding, u: string)
    requires pos < |s| && s[pos] != '\r' && s[pos] != '\n' && s[pos] != '#' && !IsBlank(s[pos])
    requires PadsLines(Read(s, pos, false).items, pad)
    ensures SameButIndents(Read(s, pos, false), Read(u + Reindent(s, pos, false, pad), |u|, false), pad)
    decreases |s| - pos, 0, 0
  {
    hide Scan, RunEnd, SameButIndents, PadsLines, Unplaced;
    var x := Scan(s, pos);
    if x.Lost? {
      CopiedError(s, pos, u);
      assert (u + s[pos..])[|u|] == s[pos];
      ErrorRead(x.error, Scan(u + s[pos..], |u|).error, pad);
    } else {
      var rest := Reindent(s, x.end, false, pad);
      var text := s[pos..x.end];
      CopiedToken(s, pos, u, pad);
      var t := u + (text + rest);
      assert t == (u + text) + rest && t[|u|] == text[0] == s[pos];
      PadsTheRest(Tok(Token(x.value, pos, x.end)), Read(s, x.end, false), pad);
      ReindentedReads(s, x.end, false, pad, u + text);
      PrependKeepsSame(Tok(Token(x.value, pos, x.end)), Tok(Token(Scan(t, |u|).value, |u|, |u| + |text|)),
                       Read(s, x.end, false), Read(t, |u| + |text|, false), pad);
    }
  }

  // ---------------------------------------------------------------- the theorem

  lemma SameButIndentsIsSameShape(x: Raw, y: Raw, pad: Padding)
    requires SameButIndents(x, y, pad) && KeepsOrder(x.items, pad)
    ensures SameShape(x.items, y.items)
  {
    forall i | 0 <= i < |x.items| ensures SameItem(x.items[i], y.items[i]) {
      assert SameButIndent(x.items[i], y.items[i], pad);
    }
    forall i, j | 0 <= i < |x.items| && 0 <= j < |x.items|
      ensures Shallower(x.items[i], x.items[j]) <==> Shallower(y.items[i], y.items[j])
    {
      assert SameButIndent(x.items[i], y.items[i], pad) && SameButIndent(x.items[j], y.items[j], pad);
    }
  }

  /** Re-indenting the lines of any source in the same order of widths, and in the same styles,
      gives the same kinds of tokens or the same kind of error. */
  lemma ReindentingKeepsTokens(s: string, pad: Padding)
    requires KeepsOrder(Read(s, 0, true).items, pad)
    ensures Outcome(Lex(Reindent(s, 0, true, pad))) == Outcome(Lex(s))
  {
    hide Read, Reindent, SameShape, Lex, Outcome;
    ReindentedReads(s, 0, true, pad, "");
    var t := Reindent(s, 0, true, pad);
    assert "" + t == t;
    SameButIndentsIsSameShape(Read(s, 0, true), Read(t, 0, true), pad);
    OnlyOrderMatters(s, t);
  }
}
