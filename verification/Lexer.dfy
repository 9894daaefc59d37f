/** The lexer of src/lexer.rs: one loop over the source with an indentation stack and a queue of
    pending layout tokens, proved against reading items first and arranging them afterwards. */
module Lexer {
  import opened Ast
  import opened Scanner

  datatype Style = Spaces | Tabs

  /** A token, or the indentation of a line that is not blank. */
  datatype Item =
    | Tok(token: Token)
    | Line(width: nat, style: Option<Style>, start: nat, end: nat)

  /** The items up to the end of the source or the first error. */
  datatype Raw = Raw(items: seq<Item>, error: Option<LexError>)

  type Lexed = Result<seq<Token>, LexError>

  // ---------------------------------------------------------------- items

  function CharWidth(c: char): nat { if c == '\t' then 4 else 1 }

  function Width(indent: string): nat {
    if indent == [] then 0 else Width(indent[..|indent| - 1]) + CharWidth(indent[|indent| - 1])
  }

  function StyleOf(indent: string): Option<Style> {
    if ' ' in indent then Some(Spaces) else if '\t' in indent then Some(Tabs) else None
  }

  function PrependItem(item: Item, rest: Raw): Raw { Raw([item] + rest.items, rest.error) }

  /** The items from `pos` on; `lineStart` tells that a line starts here. */
  function Read(s: string, pos: nat, lineStart: bool): Raw
    requires pos <= |s|
    decreases |s| - pos, if lineStart then 1 else 0
  {
    if pos == |s| then Raw([], None)
    else if s[pos] == '\r' then Read(s, pos + 1, lineStart)
    else if lineStart then
      var e := RunEnd(s, pos, IsBlank);
      var indent := s[pos..e];
      if ' ' in indent && '\t' in indent then Raw([], Some(LexError(MixedIndentation, pos, e)))
      else if e == |s| || s[e] == '\n' || s[e] == '\r' then Read(s, e, false)
      else PrependItem(Line(Width(indent), StyleOf(indent), pos, e), Read(s, e, false))
    else if s[pos] == '\n' then PrependItem(Tok(Token(Newline, pos, pos + 1)), Read(s, pos + 1, true))
    else if s[pos] == '#' then Read(s, RunEnd(s, pos + 1, NotNewline), false)
    else if IsBlank(s[pos]) then Read(s, pos + 1, false)
    else
      var t := Scan(s, pos);
      if t.Lost? then Raw([], Some(t.error))
      else PrependItem(Tok(Token(t.value, pos, t.end)), Read(s, t.end, false))
  }

  // ---------------------------------------------------------------- layout

  datatype Level = Level(width: nat, style: Option<Style>)

  predicate Increasing(stack: seq<Level>) {
    && |stack| > 0 && stack[0] == Level(0, None)
    && forall i, j :: 0 <= i < j < |stack| ==> stack[i].width < stack[j].width
  }

  /** The indentation levels of the enclosing lines, outermost first. */
  type Stack = stack: seq<Level> | Increasing(stack) witness [Level(0, None)]

  function Top(stack: Stack): Level { stack[|stack| - 1] }

  /** How many levels are deeper than `width`. */
  function Deeper(stack: Stack, width: nat): (n: nat)
    ensures n < |stack| && stack[|stack| - 1 - n].width <= width
    ensures forall k :: |stack| - n <= k < |stack| ==> stack[k].width > width
    decreases |stack|
  {
    if Top(stack).width <= width then 0 else Deeper(stack[..|stack| - 1], width) + 1
  }

  function Repeat(kind: TokenKind, n: nat, at: nat): (ts: seq<Token>)
    ensures |ts| == n && forall k :: 0 <= k < n ==> ts[k] == Token(kind, at, at)
  {
    seq(n, k requires 0 <= k => Token(kind, at, at))
  }

  function StyleOr(style: Option<Style>): Style { if style.Some? then style.value else Spaces }

  predicate Clash(level: Level, style: Option<Style>) {
    level.style.Some? && style.Some? && level.style != style
  }

  function PrependTokens(ts: seq<Token>, rest: Lexed): Lexed {
    if rest.Success? then Success(ts + rest.value) else rest
  }

  /** What a line that is not blank does to the enclosing levels. */
  datatype Move = Open(inner: Stack) | Close(outer: Stack, n: nat) | Refuse(problem: Problem)

  function Step(stack: Stack, width: nat, style: Option<Style>): Move {
    if width > Top(stack).width then Open(stack + [Level(width, Some(StyleOr(style)))])
    else
      var n := Deeper(stack, width);
      var outer: Stack := stack[..|stack| - n];
      if Top(outer).width != width then Refuse(Misaligned)
      else if Clash(Top(outer), style) then Refuse(MixedIndentation)
      else Close(outer, n)
  }

  /** Lines replaced by the tokens that open and close blocks; `ended` tells that the last token
      is a newline, and `len` is the length of the source. */
  function Arrange(raw: Raw, stack: Stack, ended: bool, len: nat): Lexed
    decreases |raw.items|
  {
    if raw.items == [] then
      if raw.error.Some? then Failure(raw.error.value)
      else Success((if ended then [] else [Token(Newline, len, len)])
                   + Repeat(Dedent, |stack| - 1, len) + [Token(Eof, len, len)])
    else
      var rest := Raw(raw.items[1..], raw.error);
      match raw.items[0]
      case Tok(token) => PrependTokens([token], Arrange(rest, stack, token.kind.Newline?, len))
      case Line(width, style, start, end) =>
        (match Step(stack, width, style)
         case Open(inner) => PrependTokens([Token(Indent, start, start)], Arrange(rest, inner, false, len))
         case Close(outer, n) => PrependTokens(Repeat(Dedent, n, start), Arrange(rest, outer, ended && n == 0, len))
         case Refuse(problem) => Failure(LexError(problem, start, end)))
  }

  /** The tokens of a source text. */
  function Lex(s: string): Lexed {
    Arrange(Read(s, 0, true), [Level(0, None)], false, |s|)
  }
}
