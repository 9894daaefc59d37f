/** Which lines the lexer measures, where their indentation lies and how wide it is; and what stops
    the reading. */
module Margins {
  import opened Ast
  import opened Scanner
  import opened Lexer
  import LexTiling

  // ---------------------------------------------------------------- the width of an indentation

  predicate AllBlank(text: string) { forall k :: 0 <= k < |text| ==> IsBlank(text[k]) }

  /** A space is one column wide and a tab four, whatever their order. */
  lemma {:induction false} WidthCounts(indent: string)
    requires AllBlank(indent)
    ensures Width(indent) == multiset(indent)[' '] + 4 * multiset(indent)['\t']
    decreases |indent|
  {
    if indent != [] {
      var n := |indent| - 1;
      WidthCounts(indent[..n]);
      assert indent == indent[..n] + [indent[n]];
    }
  }

  // ---------------------------------------------------------------- which lines there are

  predicate AllReturns(text: string) { forall k :: 0 <= k < |text| ==> text[k] == '\r' }

  /** The indentation at `start` ends at `end`, as far as blanks go. */
  predicate Margin(s: string, start: nat, end: nat) {
    start <= end <= |s| && AllBlank(s[start..end]) && (end < |s| ==> !IsBlank(s[end]))
  }

  /** A line with something on it is measured, from behind the newline and carriage returns. */
  predicate MeasuredLine(s: string, from: nat, line: Item)
    requires line.Line?
  {
    && from <= line.start && Margin(s, line.start, line.end) && AllReturns(s[from..line.start])
    && line.end < |s| && s[line.end] != '\n' && s[line.end] != '\r'
    && var indent := s[line.start..line.end];
       && !(' ' in indent && '\t' in indent)
       && line.width == multiset(indent)[' '] + 4 * multiset(indent)['\t']
       && line.style == if ' ' in indent then Some(Spaces) else if '\t' in indent then Some(Tabs) else None
  }

  /** Reading stops at an indentation of both kinds or at the first token that does not scan. */
  ghost predicate Stopped(s: string, from: nat, first: bool, error: LexError) {
    || (&& error.problem == MixedIndentation && first
        && from <= error.start && Margin(s, error.start, error.end) && AllReturns(s[from..error.start])
        && ' ' in s[error.start..error.end] && '\t' in s[error.start..error.end])
    || exists p :: from <= p < |s| && LexTiling.Trivia(s, from, p) && Scan(s, p) == Lost(error)
  }

  /** The lines among the items are those that begin behind a newline, or with the source, and no
      other token begins there unless a carriage return stands before it. */
  ghost predicate Measured(s: string, from: nat, raw: Raw, first: bool)
    decreases |raw.items|
  {
    if raw.items == [] then raw.error.Some? ==> Stopped(s, from, first, raw.error.value)
    else
      var rest := Raw(raw.items[1..], raw.error);
      match raw.items[0]
      case Line(_, _, _, end) => first && MeasuredLine(s, from, raw.items[0]) && Measured(s, end, rest, false)
      case Tok(token) =>
        && from <= token.start <= |s| && LexTiling.Trivia(s, from, token.start)
        && (first && !token.kind.Newline? ==> '\r' in s[from..token.start])
        && Measured(s, token.end, rest, token.kind.Newline?)
  }

  /** Between `from` and `pos` the reader has not yet met anything of the line. */
  predicate Underway(s: string, from: nat, pos: nat, lineStart: bool, first: bool) {
    && from <= pos <= |s| && LexTiling.Trivia(s, from, pos)
    && (lineStart ==> first && AllReturns(s[from..pos]))
    && (first && !lineStart ==> '\r' in s[from..pos] || pos == |s| || s[pos] == '\n' || s[pos] == '\r')
  }

  lemma UnderwayFurther(s: string, from: nat, pos: nat, next: nat, lineStart: bool, first: bool)
    requires Underway(s, from, pos, lineStart, first) && pos < next <= |s| && s[pos] != '\n'
    requires (lineStart ==> s[pos] == '\r' && next == pos + 1) && LexTiling.Trivia(s, pos, next)
    ensures Underway(s, from, next, lineStart, first)
  {
    LexTiling.TriviaJoin(s, from, pos, next);
    hide LexTiling.Trivia;
    var before, after := s[from..pos], s[from..next];
    assert after == before + s[pos..next];
    assert s[pos] == '\r' ==> '\r' in s[pos..next] by { assert s[pos] == s[pos..next][0]; }
  }

  lemma {:induction false} ReadMeasures(s: string, from: nat, pos: nat, lineStart: bool, first: bool)
    requires Underway(s, from, pos, lineStart, first)
    ensures Measured(s, from, Read(s, pos, lineStart), first)
    decreases |s| - pos, if lineStart then 2 else 0
  {
    hide Scan, Underway, Width, StyleOf, MeasuredLine, Stopped, LexTiling.Trivia;
    Bounds(s, from, pos, lineStart, first);
    if pos < |s| {
      if s[pos] == '\r' {
        LexTiling.OneIsTrivia(s, pos);
        UnderwayFurther(s, from, pos, pos + 1, lineStart, first);
        ReadMeasures(s, from, pos + 1, lineStart, first);
      } else if lineStart {
        LineMeasures(s, from, pos, first);
      } else if s[pos] == '\n' {
        Anew(s, pos + 1);
        ReadMeasures(s, pos + 1, pos + 1, true, true);
        TokenMeasures(s, from, Token(Newline, pos, pos + 1), Read(s, pos + 1, true), first);
      } else if s[pos] == '#' {
        var e := RunEnd(s, pos + 1, NotNewline);
        LexTiling.CommentIsTrivia(s, pos);
        UnderwayFurther(s, from, pos, e, lineStart, first);
        ReadMeasures(s, from, e, false, first);
      } else if IsBlank(s[pos]) {
        LexTiling.OneIsTrivia(s, pos);
        UnderwayFurther(s, from, pos, pos + 1, lineStart, first);
        ReadMeasures(s, from, pos + 1, false, first);
      } else {
        Behind(s, from, pos, first);
        var t := Scan(s, pos);
        if t.Lost? {
          assert Stopped(s, from, first, t.error) by { TokenStops(s, from, pos, first); }
        } else {
          ScansNoNewline(s, pos);
          Anew(s, t.end);
          ReadMeasures(s, t.end, t.end, false, false);
          TokenMeasures(s, from, Token(t.value, pos, t.end), Read(s, t.end, false), first);
        }
      }
    }
  }

  lemma Bounds(s: string, from: nat, pos: nat, lineStart: bool, first: bool)
    requires Underway(s, from, pos, lineStart, first)
    ensures from <= pos <= |s| && LexTiling.Trivia(s, from, pos)
  {
  }

  lemma Anew(s: string, at: nat)
    requires at <= |s|
    ensures Underway(s, at, at, true, true) && Underway(s, at, at, false, false)
  {
  }

  lemma Behind(s: string, from: nat, pos: nat, first: bool)
    requires Underway(s, from, pos, false, first) && pos < |s| && s[pos] != '\n' && s[pos] != '\r'
    ensures from <= pos && (first ==> '\r' in s[from..pos])
  {
  }

  lemma TokenStops(s: string, from: nat, pos: nat, first: bool)
    requires from <= pos < |s| && LexTiling.Trivia(s, from, pos) && Scan(s, pos).Lost?
    ensures Stopped(s, from, first, Scan(s, pos).error)
  {
  }

  lemma ScansNoNewline(s: string, pos: nat)
    requires pos < |s| && Scan(s, pos).Found?
    ensures !Scan(s, pos).value.Newline?
  {
    hide ScanTemplate, ScanQuoted, RunEnd, SymbolLength, DecimalEnd, WithoutBars, Value;
  }

  lemma TokenMeasures(s: string, from: nat, token: Token, rest: Raw, first: bool)
    requires from <= token.start <= |s| && LexTiling.Trivia(s, from, token.start)
    requires first && !token.kind.Newline? ==> '\r' in s[from..token.start]
    requires Measured(s, token.end, rest, token.kind.Newline?)
    ensures Measured(s, from, PrependItem(Tok(token), rest), first)
  {
    var all := PrependItem(Tok(token), rest);
    assert all.items[1..] == rest.items;
  }

  lemma {:induction false} LineMeasures(s: string, from: nat, pos: nat, first: bool)
    requires Underway(s, from, pos, true, first) && pos < |s| && s[pos] != '\r'
    ensures Measured(s, from, Read(s, pos, true), first)
    decreases |s| - pos, 1
  {
    hide Scan, Width, StyleOf;
    var e := RunEnd(s, pos, IsBlank);
    var indent := s[pos..e];
    if !(' ' in indent && '\t' in indent) {
      if e == |s| || s[e] == '\n' || s[e] == '\r' {
        LexTiling.BlanksAreTrivia(s, pos, e);
        LexTiling.TriviaJoin(s, from, pos, e);
        ReadMeasures(s, from, e, false, first);
      } else {
        Anew(s, e);
        ReadMeasures(s, e, e, false, false);
        WidthCounts(indent);
        StyleIs(indent);
        var line := Line(Width(indent), StyleOf(indent), pos, e);
        assert MeasuredLine(s, from, line);
        LinePrepends(s, from, line, Read(s, e, false), first);
      }
    }
  }

  lemma StyleIs(indent: string)
    ensures StyleOf(indent) == if ' ' in indent then Some(Spaces) else if '\t' in indent then Some(Tabs) else None
  {
  }

  lemma LinePrepends(s: string, from: nat, line: Item, rest: Raw, first: bool)
    requires line.Line? && first && MeasuredLine(s, from, line) && Measured(s, line.end, rest, false)
    ensures Measured(s, from, PrependItem(line, rest), first)
  {
    hide MeasuredLine;
    assert PrependItem(line, rest).items[1..] == rest.items;
  }

  /** So is every source read. */
  lemma LinesAreMeasured(s: string)
    ensures Measured(s, 0, Read(s, 0, true), true)
  {
    Anew(s, 0);
    ReadMeasures(s, 0, 0, true, true);
  }
}
