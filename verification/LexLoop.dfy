/** The loops of src/lexer.rs: the scanners of single tokens, and the main loop with its
    indentation stack and its queue of pending layout tokens. */
module LexLoop {
  import opened Ast
  import opened Scanner
  import opened Lexer

  // ---------------------------------------------------------------- scanners

  method ReadRadix(s: string, start: nat, from: nat, radix: nat) returns (r: Scanned<TokenKind>)
    requires start <= from <= |s|
    ensures r == ScanRadix(s, start, from, radix)
  {
    var e := SkipRun(s, from, c => InRadix(c, radix));
    r := IntegerOf(WithoutBars(s[from..e]), radix, start, e);
  }

  method ReadNumber(s: string, pos: nat) returns (r: Scanned<TokenKind>)
    requires pos < |s| && IsDigit(s[pos])
    ensures r == ScanNumber(s, pos)
  {
    var radix := RadixPrefix(s, pos);
    if radix != 10 {
      r := ReadRadix(s, pos, pos + 2, radix);
      return;
    }
    var i, dotted := pos + 1, false;
    while i < |s|
      invariant pos < i <= |s|
      invariant DecimalEnd(s, pos + 1, false) == DecimalEnd(s, i, dotted)
    {
      if IsDigitOrBar(s[i]) {
        i := i + 1;
      } else if s[i] == '.' && !dotted && i + 1 < |s| && IsDigit(s[i + 1]) {
        dotted := true;
        i := i + 1;
      } else {
        break;
      }
    }
    assert DecimalEnd(s, pos + 1, false) == (i, dotted);
    var text := WithoutBars(s[pos..i]);
    r := if dotted then Found(Decimal(text), i) else IntegerOf(text, 10, pos, i);
  }

  method ReadQuoted(s: string, from: nat, start: nat, bytes: bool) returns (r: Scanned<string>)
    requires from <= |s|
    ensures r == ScanQuoted(s, from, start, bytes)
  {
    var i, text := from, "";
    assert ScanQuoted(s, from, start, bytes) == PrependText("", ScanQuoted(s, from, start, bytes)) by {
      var whole := ScanQuoted(s, from, start, bytes);
      assert whole.Found? ==> "" + whole.value == whole.value;
    }
    while i < |s|
      invariant from <= i <= |s|
      invariant ScanQuoted(s, from, start, bytes) == PrependText(text, ScanQuoted(s, i, start, bytes))
    {
      if s[i] == '"' {
        assert text + "" == text;
        return Found(text, i + 1);
      }
      if s[i] == '\\' {
        if i + 1 == |s| { return Lost(LexError(Unterminated, start, i + 1)); }
        var c := Unescape(s[i + 1], bytes);
        if c.None? { return Lost(LexError(UnknownEscape, i, i + 2)); }
        PrependTextTwice(text, c.value, ScanQuoted(s, i + 2, start, bytes));
        text := text + [c.value];
        i := i + 2;
      } else {
        PrependTextTwice(text, s[i], ScanQuoted(s, i + 1, start, bytes));
        text := text + [s[i]];
        i := i + 1;
      }
    }
    r := Lost(LexError(Unterminated, start, i));
  }

  method ReadWord(s: string, pos: nat) returns (r: Scanned<TokenKind>)
    requires pos < |s|
    ensures r == ScanWord(s, pos)
  {
    var e := SkipRun(s, pos + 1, InWord);
    var text := s[pos..e];
    if (text == "b" || text == "B") && e < |s| && s[e] == '"' {
      var content := ReadQuoted(s, e + 1, pos, true);
      return if content.Lost? then Lost(content.error) else Found(Bytes(content.value), content.end);
    }
    r := Found(if text in KEYWORDS then Keyword(text) else Word(text), e);
  }

  /** Collects the characters up to the brace that closes the interpolation. */
  method ReadInterpolation(s: string, brace: nat) returns (r: Scanned<string>)
    requires brace < |s| && s[brace] == '{'
    ensures r == ScanInterpolation(s, brace)
  {
    var i, depth, text := brace + 1, 1, "";
    while i < |s|
      invariant brace < i <= |s| && 1 <= depth <= MAX_DEPTH && text == s[brace + 1..i]
      invariant InterpolationEnd(s, brace + 1, 1, brace) == InterpolationEnd(s, i, depth, brace)
    {
      if s[i] == '\\' {
        text := text + [s[i]];
        i := i + 1;
        if i < |s| {
          text := text + [s[i]];
          i := i + 1;
        }
        continue;
      }
      if s[i] == '{' {
        if depth + 1 > MAX_DEPTH { return Lost(LexError(TooDeep, brace, i)); }
        depth := depth + 1;
      } else if s[i] == '}' {
        if depth == 1 {
          return if AllWhitespace(text) then Lost(LexError(EmptyInterpolation, brace, i + 1)) else Found(text, i + 1);
        }
        depth := depth - 1;
      }
      text := text + [s[i]];
      i := i + 1;
    }
    r := Lost(LexError(Unterminated, brace, |s|));
  }

  method ReadTemplate(s: string, from: nat, start: nat) returns (r: Scanned<seq<Fragment>>)
    requires from <= |s|
    ensures r == ScanTemplate(s, from, start, [], [], from)
  {
    var fragments: seq<Fragment>, literal, literalStart: nat := [], "", from;
    var i := from;
    while i < |s|
      invariant from <= i <= |s|
      invariant ScanTemplate(s, from, start, [], [], from) ==
                  ScanTemplate(s, i, start, fragments, literal, literalStart)
    {
      if s[i] == '\'' {
        return Found(AddLiteral(fragments, literal, literalStart, i), i + 1);
      }
      if s[i] == '\\' {
        var c := ScanEscape(s, i + 1, start);
        if c.Lost? { return Lost(c.error); }
        literal := literal + [c.value];
        i := c.end;
      } else if s[i] == '{' {
        fragments := AddLiteral(fragments, literal, literalStart, i);
        var x := ReadInterpolation(s, i);
        if x.Lost? { return Lost(x.error); }
        fragments := fragments + [Interpolation(x.value, i + 1, x.end - 1)];
        literal := "";
        i := x.end;
        literalStart := i;
      } else {
        literal := literal + [s[i]];
        i := i + 1;
      }
    }
    r := Lost(LexError(Unterminated, start, i));
  }

  /** The index of a placeholder, in saturating 32-bit arithmetic. */
  method ReadDollar(s: string, pos: nat) returns (r: Scanned<TokenKind>)
    requires pos < |s|
    ensures r == ScanDollar(s, pos)
  {
    var i, value := pos + 1, 0;
    while i < |s| && IsDigit(s[i])
      invariant pos < i <= |s| && value == Saturate(Value(s[pos + 1..i], 10))
      invariant RunEnd(s, pos + 1, IsDigit) == RunEnd(s, i, IsDigit)
    {
      assert s[pos + 1..i + 1][..i - pos - 1] == s[pos + 1..i];
      value := Saturate(Saturate(value * 10) + DigitValue(s[i]));
      i := i + 1;
    }
    if i > pos + 1 && value == 0 { return Lost(LexError(ZeroPlaceholder, pos, i)); }
    r := Found(Dollar(value), i);
  }

  method ReadToken(s: string, pos: nat) returns (r: Scanned<TokenKind>)
    requires pos < |s|
    ensures r == Scan(s, pos)
  {
    var c := s[pos];
    if IsDigit(c) {
      r := ReadNumber(s, pos);
    } else if StartsWord(c) {
      r := ReadWord(s, pos);
    } else if c == '"' {
      var t := ReadQuoted(s, pos + 1, pos, false);
      r := if t.Lost? then Lost(t.error) else Found(Text(t.value), t.end);
    } else if c == '\'' {
      var t := ReadTemplate(s, pos + 1, pos);
      r := if t.Lost? then Lost(t.error) else Found(TemplateToken(t.value), t.end);
    } else if c == '$' {
      r := ReadDollar(s, pos);
    } else {
      var n := SymbolLength(s, pos);
      if n > 0 {
        r := Found(Symbol(s[pos..pos + n]), pos + n);
      } else if c == '=' && Next(s, pos + 1, '=') {
        r := Lost(LexError(UnexpectedChar, pos, pos + 2));
      } else {
        r := Lost(LexError(UnexpectedChar, pos, pos + 1));
      }
    }
  }

  // ---------------------------------------------------------------- the main loop

  predicate Ended(ts: seq<Token>) { ts != [] && ts[|ts| - 1].kind.Newline? }

  lemma PrependTokensTwice(a: seq<Token>, b: seq<Token>, rest: Lexed)
    ensures PrependTokens(a, PrependTokens(b, rest)) == PrependTokens(a + b, rest)
  {
    if rest.Success? { assert a + (b + rest.value) == a + b + rest.value; }
  }

  /** Measures a line's indentation: its width, its style, and whether it mixes tabs and spaces. */
  method Measure(s: string, pos: nat) returns (e: nat, width: nat, spaces: bool, tabs: bool)
    requires pos <= |s|
    ensures e == RunEnd(s, pos, IsBlank) && width == Width(s[pos..e])
    ensures spaces == (' ' in s[pos..e]) && tabs == ('\t' in s[pos..e])
  {
    e, width, spaces, tabs := pos, 0, false, false;
    while e < |s| && IsBlank(s[e])
      invariant pos <= e <= |s| && RunEnd(s, pos, IsBlank) == RunEnd(s, e, IsBlank)
      invariant width == Width(s[pos..e])
      invariant spaces == (' ' in s[pos..e]) && tabs == ('\t' in s[pos..e])
    {
      assert s[pos..e + 1] == s[pos..e] + [s[e]];
      if s[e] == ' ' {
        width, spaces := width + 1, true;
      } else {
        width, tabs := width + 4, true;
      }
      e := e + 1;
    }
  }

  /** Closes the levels deeper than a line: pops them and queues a dedent for each. */
  method Unwind(stack: Stack, width: nat, start: nat) returns (outer: Stack, pending: seq<Token>)
    ensures var n := Deeper(stack, width); outer == stack[..|stack| - n] && pending == Repeat(Dedent, n, start)
  {
    outer, pending := stack, [];
    while width < Top(outer).width
      invariant |pending| <= Deeper(stack, width) && outer == stack[..|stack| - |pending|]
      invariant pending == Repeat(Dedent, |pending|, start)
      decreases |outer|
    {
      outer := outer[..|outer| - 1];
      pending := pending + [Token(Dedent, start, start)];
    }
    assert |pending| == Deeper(stack, width);
  }

  /** What is still to be lexed from a position of the main loop. */
  ghost function Remaining(s: string, pos: nat, lineStart: bool, stack: Stack, done: seq<Token>): Lexed
    requires pos <= |s|
  {
    PrependTokens(done, Arrange(Read(s, pos, lineStart), stack, Ended(done), |s|))
  }

  lemma TakeToken(s: string, pos: nat, next: nat, lineStart: bool, stack: Stack, done: seq<Token>, t: Token)
    requires pos <= |s| && next <= |s| && Read(s, pos, false) == PrependItem(Tok(t), Read(s, next, lineStart))
    ensures Remaining(s, pos, false, stack, done) == Remaining(s, next, lineStart, stack, done + [t])
  {
    hide Read;
    var rest := Read(s, next, lineStart);
    assert Raw(PrependItem(Tok(t), rest).items[1..], rest.error) == rest;
    PrependTokensTwice(done, [t], Arrange(rest, stack, t.kind.Newline?, |s|));
  }

  lemma TakeIndent(s: string, pos: nat, next: nat, width: nat, style: Option<Style>, stack: Stack, done: seq<Token>)
    requires pos <= |s| && next <= |s| && width > Top(stack).width
    requires Read(s, pos, true) == PrependItem(Line(width, style, pos, next), Read(s, next, false))
    ensures Remaining(s, pos, true, stack, done)
         == Remaining(s, next, false, stack + [Level(width, Some(StyleOr(style)))], done + [Token(Indent, pos, pos)])
  {
    hide Read;
    var rest := Read(s, next, false);
    assert Raw(PrependItem(Line(width, style, pos, next), rest).items[1..], rest.error) == rest;
    PrependTokensTwice(done, [Token(Indent, pos, pos)],
                       Arrange(rest, stack + [Level(width, Some(StyleOr(style)))], false, |s|));
  }

  lemma TakeDedents(s: string, pos: nat, next: nat, width: nat, style: Option<Style>, stack: Stack, done: seq<Token>)
    requires pos <= |s| && next <= |s| && width <= Top(stack).width
    requires Read(s, pos, true) == PrependItem(Line(width, style, pos, next), Read(s, next, false))
    ensures var n := Deeper(stack, width);
            var outer := stack[..|stack| - n];
            Remaining(s, pos, true, stack, done) ==
            if Top(outer).width != width then Failure(LexError(Misaligned, pos, next))
            else if Clash(Top(outer), style) then Failure(LexError(MixedIndentation, pos, next))
            else Remaining(s, next, false, outer, done + Repeat(Dedent, n, pos))
  {
    hide Read, Deeper, Clash;
    var rest := Read(s, next, false);
    var n := Deeper(stack, width);
    var dedents := Repeat(Dedent, n, pos);
    assert Raw(PrependItem(Line(width, style, pos, next), rest).items[1..], rest.error) == rest;
    assert Ended(done + dedents) <==> Ended(done) && n == 0 by { if n == 0 { assert done + dedents == done; } }
    PrependTokensTwice(done, dedents, Arrange(rest, stack[..|stack| - n], Ended(done) && n == 0, |s|));
  }

  lemma PassOver(s: string, pos: nat, lineStart: bool, next: nat, nextFresh: bool, stack: Stack, done: seq<Token>)
    requires pos <= |s| && next <= |s| && Read(s, pos, lineStart) == Read(s, next, nextFresh)
    ensures Remaining(s, pos, lineStart, stack, done) == Remaining(s, next, nextFresh, stack, done)
  {
  }

  lemma TakeError(s: string, pos: nat, lineStart: bool, stack: Stack, done: seq<Token>, error: LexError)
    requires pos <= |s| && Read(s, pos, lineStart) == Raw([], Some(error))
    ensures Remaining(s, pos, lineStart, stack, done) == Failure(error)
  {
  }

  lemma TakeEnd(s: string, stack: Stack, done: seq<Token>, lineStart: bool)
    ensures Remaining(s, |s|, lineStart, stack, done) ==
            Success(done + (if Ended(done) then [] else [Token(Newline, |s|, |s|)])
                    + Repeat(Dedent, |stack| - 1, |s|) + [Token(Eof, |s|, |s|)])
  {
    var newline := if Ended(done) then [] else [Token(Newline, |s|, |s|)];
    var tail := Repeat(Dedent, |stack| - 1, |s|);
    assert done + (newline + tail + [Token(Eof, |s|, |s|)]) == done + newline + tail + [Token(Eof, |s|, |s|)];
  }

  lemma LexIsRemaining(s: string)
    ensures Lex(s) == Remaining(s, 0, true, [Level(0, None)], [])
  {
    hide Arrange, Read;
    assert Lex(s).Success? ==> [] + Lex(s).value == Lex(s).value;
  }

  method Tokenize(s: string) returns (r: Lexed)
    ensures r == Lex(s)
  {
    hide Arrange, Scan, Width, Deeper, Remaining, Clash;
    var tokens: seq<Token>, pending: seq<Token> := [], [];
    var stack: Stack := [Level(0, None)];
    var pos, lineStart := 0, true;
    LexIsRemaining(s);
    assert tokens + pending == [];
    while pos < |s|
      invariant pos <= |s| && (pending != [] ==> pos < |s|)
      invariant Lex(s) == Remaining(s, pos, lineStart, stack, tokens + pending)
      decreases |s| - pos, lineStart, |pending|
    {
      if pending != [] {
        assert tokens + pending == tokens + [pending[0]] + pending[1..];
        tokens, pending := tokens + [pending[0]], pending[1..];
        continue;
      }
      assert tokens + [] == tokens;
      var c := s[pos];
      if c == '\r' {
        PassOver(s, pos, lineStart, pos + 1, lineStart, stack, tokens);
        pos := pos + 1;
      } else if lineStart {
        var e, width, spaces, tabs := Measure(s, pos);
        if spaces && tabs {
          TakeError(s, pos, true, stack, tokens, LexError(MixedIndentation, pos, e));
          return Failure(LexError(MixedIndentation, pos, e));
        }
        if e < |s| && s[e] != '\n' && s[e] != '\r' {
          var style := if spaces then Some(Spaces) else if tabs then Some(Tabs) else None;
          if width > Top(stack).width {
            TakeIndent(s, pos, e, width, style, stack, tokens);
            stack := stack + [Level(width, Some(StyleOr(style)))];
            pending := [Token(Indent, pos, pos)];
          } else {
            TakeDedents(s, pos, e, width, style, stack, tokens);
            stack, pending := Unwind(stack, width, pos);
            if Top(stack).width != width { return Failure(LexError(Misaligned, pos, e)); }
            if Clash(Top(stack), style) { return Failure(LexError(MixedIndentation, pos, e)); }
          }
        } else {
          PassOver(s, pos, true, e, false, stack, tokens);
        }
        pos, lineStart := e, false;
      } else if c == '\n' {
        TakeToken(s, pos, pos + 1, true, stack, tokens, Token(Newline, pos, pos + 1));
        tokens := tokens + [Token(Newline, pos, pos + 1)];
        pos, lineStart := pos + 1, true;
      } else if c == '#' {
        ghost var from := pos;
        pos := SkipRun(s, pos + 1, NotNewline);
        PassOver(s, from, false, pos, false, stack, tokens);
      } else if IsBlank(c) {
        PassOver(s, pos, false, pos + 1, false, stack, tokens);
        pos := pos + 1;
      } else {
        var t := ReadToken(s, pos);
        if t.Lost? {
          TakeError(s, pos, false, stack, tokens, t.error);
          return Failure(t.error);
        }
        TakeToken(s, pos, t.end, false, stack, tokens, Token(t.value, pos, t.end));
        tokens := tokens + [Token(t.value, pos, t.end)];
        pos := t.end;
      }
      assert pending == [] ==> tokens + pending == tokens;
    }
    assert tokens + [] == tokens;
    TakeEnd(s, stack, tokens, lineStart);
    if !Ended(tokens) { tokens := tokens + [Token(Newline, |s|, |s|)]; }
    ghost var before, closed := tokens, 0;
    assert before + Repeat(Dedent, 0, |s|) == before;
    while |stack| > 1
      invariant tokens == before + Repeat(Dedent, closed, |s|)
      invariant Lex(s) == Success(before + Repeat(Dedent, closed + |stack| - 1, |s|) + [Token(Eof, |s|, |s|)])
      decreases |stack|
    {
      assert Repeat(Dedent, closed + 1, |s|) == Repeat(Dedent, closed, |s|) + [Token(Dedent, |s|, |s|)];
      closed := closed + 1;
      stack := stack[..|stack| - 1];
      tokens := tokens + [Token(Dedent, |s|, |s|)];
    }
    r := Success(tokens + [Token(Eof, |s|, |s|)]);
  }
}
