/** The scanners of src/lexer.rs for single tokens. Source text is a sequence of characters and
    positions count characters; keywords and operators are told apart by their spelling. */
module Scanner {
  import opened Ast

  datatype Fragment =
    | Literal(value: string, start: nat, end: nat)
    | Interpolation(source: string, start: nat, end: nat)

  datatype TokenKind =
    | Word(name: string)
    | Keyword(text: string)
    | Number(value: nat)
    | Decimal(text: string)
    | Text(content: string)
    | Bytes(content: string)
    | Template(fragments: seq<Fragment>)
    | Dollar(index: nat)
    | Symbol(text: string)
    | Newline | Indent | Dedent | Eof

  datatype Token = Token(kind: TokenKind, start: nat, end: nat)

  datatype Problem =
    | MixedIndentation | Misaligned
    | NoDigits | TooLarge | ZeroPlaceholder
    | Unterminated | UnknownEscape | BadCodepoint | TooDeep | EmptyInterpolation
    | UnexpectedChar

  datatype LexError = LexError(problem: Problem, start: nat, end: nat)

  /** What one scan reads: a value and the position behind it. */
  datatype Scanned<+T> = Found(value: T, end: nat) | Lost(error: LexError)

  // ---------------------------------------------------------------- character classes

  predicate IsDigit(c: char) { '0' <= c <= '9' }
  predicate IsDigitOrBar(c: char) { IsDigit(c) || c == '_' }
  predicate IsLetter(c: char) { 'a' <= c <= 'z' || 'A' <= c <= 'Z' }
  predicate StartsWord(c: char) { IsLetter(c) || c == '_' }
  predicate InWord(c: char) { StartsWord(c) || IsDigit(c) }
  predicate IsBlank(c: char) { c == ' ' || c == '\t' }
  predicate NotNewline(c: char) { c != '\n' }

  /** Unicode white space, as `str::trim` understands it. */
  predicate IsWhitespace(c: char) {
    var n := c as int;
    9 <= n <= 13 || n == 32 || n == 0x85 || n == 0xA0 || n == 0x1680 || 0x2000 <= n <= 0x200A
    || n == 0x2028 || n == 0x2029 || n == 0x202F || n == 0x205F || n == 0x3000
  }

  function DigitValue(c: char): nat {
    if IsDigit(c) then c as int - '0' as int
    else if 'a' <= c <= 'f' then c as int - 'a' as int + 10
    else if 'A' <= c <= 'F' then c as int - 'A' as int + 10
    else 36
  }

  predicate InRadix(c: char, radix: nat) { DigitValue(c) < radix || c == '_' }

  const I64_MAX: nat := 0x7FFF_FFFF_FFFF_FFFF
  const U32_MAX: nat := 0xFFFF_FFFF

  const KEYWORDS: set<string> := {
    "type", "store", "persist", "actor", "match", "fn", "and", "or", "true", "false", "is", "isnt",
    "extern", "unsafe", "asm", "ptr", "enum", "err", "return", "trait", "with", "none", "if", "elif",
    "else", "while", "for", "in", "break", "continue", "to", "step", "unless", "until", "loop", "when",
    "extend", "do", "end", "const"}

  // ---------------------------------------------------------------- runs

  /** The end of the longest run of characters in a class. */
  function RunEnd(s: string, i: nat, accepts: char -> bool): (e: nat)
    requires i <= |s|
    ensures i <= e <= |s| && (e < |s| ==> !accepts(s[e])) && forall k :: i <= k < e ==> accepts(s[k])
    decreases |s| - i
  {
    if i < |s| && accepts(s[i]) then RunEnd(s, i + 1, accepts) else i
  }

  method SkipRun(s: string, i: nat, accepts: char -> bool) returns (e: nat)
    requires i <= |s|
    ensures e == RunEnd(s, i, accepts)
  {
    e := i;
    while e < |s| && accepts(s[e])
      invariant i <= e <= |s| && RunEnd(s, i, accepts) == RunEnd(s, e, accepts)
    {
      e := e + 1;
    }
  }

  /** The characters that are not the digit separator. */
  function WithoutBars(s: string): string {
    if s == [] then [] else if s[0] == '_' then WithoutBars(s[1..]) else [s[0]] + WithoutBars(s[1..])
  }

  /** The number that digits spell, last digit last. */
  function Value(digits: string, radix: nat): nat {
    if digits == [] then 0
    else Value(digits[..|digits| - 1], radix) * radix + DigitValue(digits[|digits| - 1])
  }

  function IntegerOf(digits: string, radix: nat, start: nat, end: nat): Scanned<TokenKind> {
    if digits == [] then Lost(LexError(NoDigits, start, end))
    else if Value(digits, radix) > I64_MAX then Lost(LexError(TooLarge, start, end))
    else Found(Number(Value(digits, radix)), end)
  }

  // ---------------------------------------------------------------- numbers

  function ScanRadix(s: string, start: nat, from: nat, radix: nat): Scanned<TokenKind>
    requires start <= from <= |s|
  {
    var e := RunEnd(s, from, c => InRadix(c, radix));
    IntegerOf(WithoutBars(s[from..e]), radix, start, e)
  }

  /** Where digits that may hold one dot end, and whether a dot was read. */
  function DecimalEnd(s: string, i: nat, dotted: bool): (r: (nat, bool))
    requires i <= |s|
    ensures i <= r.0 <= |s|
    decreases |s| - i
  {
    if i < |s| && IsDigitOrBar(s[i]) then DecimalEnd(s, i + 1, dotted)
    else if i + 1 < |s| && s[i] == '.' && !dotted && IsDigit(s[i + 1]) then DecimalEnd(s, i + 1, true)
    else (i, dotted)
  }

  function RadixPrefix(s: string, pos: nat): nat
    requires pos < |s|
  {
    if s[pos] != '0' || pos + 1 >= |s| then 10
    else if s[pos + 1] == 'x' || s[pos + 1] == 'X' then 16
    else if s[pos + 1] == 'o' || s[pos + 1] == 'O' then 8
    else if (s[pos + 1] == 'b' || s[pos + 1] == 'B') && pos + 2 < |s| && InRadix(s[pos + 2], 2) then 2
    else 10
  }

  function ScanNumber(s: string, pos: nat): Scanned<TokenKind>
    requires pos < |s| && IsDigit(s[pos])
  {
    var radix := RadixPrefix(s, pos);
    if radix != 10 then ScanRadix(s, pos, pos + 2, radix)
    else
      var (e, dotted) := DecimalEnd(s, pos + 1, false);
      var text := WithoutBars(s[pos..e]);
      if dotted then Found(Decimal(text), e) else IntegerOf(text, 10, pos, e)
  }

  // ---------------------------------------------------------------- words and strings

  /** What an escaped character stands for between double quotes. */
  function Unescape(c: char, bytes: bool): Option<char> {
    match c
    case 'n' => Some('\n')
    case 'r' => Some('\r')
    case 't' => Some('\t')
    case '0' => Some('\0')
    case '\\' => Some('\\')
    case '"' => Some('"')
    case '\'' => if bytes then None else Some('\'')
    case _ => None
  }

  function PrependText(text: string, rest: Scanned<string>): Scanned<string> {
    if rest.Found? then Found(text + rest.value, rest.end) else rest
  }

  lemma PrependTextTwice(text: string, c: char, rest: Scanned<string>)
    ensures PrependText(text, PrependText([c], rest)) == PrependText(text + [c], rest)
  {
    if rest.Found? { assert text + ([c] + rest.value) == text + [c] + rest.value; }
  }

  /** The text between double quotes, from inside the opening quote. */
  function ScanQuoted(s: string, i: nat, start: nat, bytes: bool): (r: Scanned<string>)
    requires i <= |s|
    ensures r.Found? ==> i < r.end <= |s|
    decreases |s| - i
  {
    if i == |s| then Lost(LexError(Unterminated, start, i))
    else if s[i] == '"' then Found("", i + 1)
    else if s[i] == '\\' then
      if i + 1 == |s| then Lost(LexError(Unterminated, start, i + 1))
      else
        var c := Unescape(s[i + 1], bytes);
        if c.None? then Lost(LexError(UnknownEscape, i, i + 2))
        else PrependText([c.value], ScanQuoted(s, i + 2, start, bytes))
    else PrependText([s[i]], ScanQuoted(s, i + 1, start, bytes))
  }

  function ScanWord(s: string, pos: nat): Scanned<TokenKind>
    requires pos < |s|
  {
    var e := RunEnd(s, pos + 1, InWord);
    var text := s[pos..e];
    if (text == "b" || text == "B") && e < |s| && s[e] == '"' then
      var content := ScanQuoted(s, e + 1, pos, true);
      if content.Lost? then Lost(content.error) else Found(Bytes(content.value), content.end)
    else Found(if text in KEYWORDS then Keyword(text) else Word(text), e)
  }

  // ---------------------------------------------------------------- templates

  const MAX_DEPTH: nat := 64

  /** The position of the brace that closes an interpolation opened at `brace`. */
  function InterpolationEnd(s: string, i: nat, depth: nat, brace: nat): (r: Scanned<()>)
    requires i <= |s|
    ensures r.Found? ==> i <= r.end < |s| && s[r.end] == '}'
    decreases |s| - i
  {
    if i == |s| then Lost(LexError(Unterminated, brace, |s|))
    else if s[i] == '\\' then InterpolationEnd(s, if i + 1 < |s| then i + 2 else i + 1, depth, brace)
    else if s[i] == '{' then
      if depth + 1 > MAX_DEPTH then Lost(LexError(TooDeep, brace, i))
      else InterpolationEnd(s, i + 1, depth + 1, brace)
    else if s[i] == '}' then
      if depth <= 1 then Found((), i) else InterpolationEnd(s, i + 1, depth - 1, brace)
    else InterpolationEnd(s, i + 1, depth, brace)
  }

  predicate AllWhitespace(s: string) { forall k :: 0 <= k < |s| ==> IsWhitespace(s[k]) }

  /** The source of an interpolation, and the position behind its closing brace. */
  function ScanInterpolation(s: string, brace: nat): (r: Scanned<string>)
    requires brace < |s| && s[brace] == '{'
    ensures r.Found? ==> brace + 2 <= r.end <= |s|
    ensures r.Found? ==> r.value == s[brace + 1..r.end - 1] && !AllWhitespace(r.value) && s[r.end - 1] == '}'
  {
    var e := InterpolationEnd(s, brace + 1, 1, brace);
    if e.Lost? then Lost(e.error)
    else if AllWhitespace(s[brace + 1..e.end]) then Lost(LexError(EmptyInterpolation, brace, e.end + 1))
    else Found(s[brace + 1..e.end], e.end + 1)
  }

  /** One escaped character between single quotes, from behind the backslash. */
  function ScanEscape(s: string, i: nat, start: nat): (r: Scanned<char>)
    requires i <= |s|
    ensures r.Found? ==> i < r.end <= |s|
  {
    if i == |s| then Lost(LexError(Unterminated, start, i))
    else
      match s[i]
      case '{' => Found('{', i + 1)
      case '}' => Found('}', i + 1)
      case '\'' => Found('\'', i + 1)
      case '"' => Found('"', i + 1)
      case '\\' => Found('\\', i + 1)
      case 'n' => Found('\n', i + 1)
      case 'r' => Found('\r', i + 1)
      case 't' => Found('\t', i + 1)
      case '0' => Found('\0', i + 1)
      case 'u' => ScanCodepoint(s, i + 1, start)
      case _ => Lost(LexError(UnknownEscape, if i > 0 then i - 1 else 0, i + 1))
  }

  predicate IsScalar(n: nat) { n < 0xD800 || 0xE000 <= n < 0x11_0000 }

  /** A code point between braces, in one to six hexadecimal digits. */
  function ScanCodepoint(s: string, i: nat, start: nat): (r: Scanned<char>)
    requires i <= |s|
    ensures r.Found? ==> i < r.end <= |s|
  {
    if i == |s| then Lost(LexError(Unterminated, start, i))
    else if s[i] != '{' then Lost(LexError(BadCodepoint, if i > 0 then i - 1 else 0, i + 1))
    else
      var e := RunEnd(s, i + 1, c => DigitValue(c) < 16);
      if e == |s| then Lost(LexError(Unterminated, i + 1, e))
      else if s[e] != '}' then Lost(LexError(BadCodepoint, i + 1, e + 1))
      else
        var digits := s[i + 1..e];
        if digits == [] || |digits| > 6 || !IsScalar(Value(digits, 16)) then Lost(LexError(BadCodepoint, i + 1, e + 1))
        else Found(Value(digits, 16) as char, e + 1)
  }

  function AddLiteral(fragments: seq<Fragment>, literal: string, start: nat, end: nat): seq<Fragment> {
    if literal == [] then fragments else fragments + [Literal(literal, start, end)]
  }

  /** The fragments of a template, from `i` on, after those already read; `literal` is the text
      read since `literalStart`. */
  function ScanTemplate(s: string, i: nat, start: nat, fragments: seq<Fragment>, literal: string, literalStart: nat)
    : (r: Scanned<seq<Fragment>>)
    requires i <= |s|
    ensures r.Found? ==> i < r.end <= |s|
    decreases |s| - i
  {
    if i == |s| then Lost(LexError(Unterminated, start, i))
    else if s[i] == '\'' then Found(AddLiteral(fragments, literal, literalStart, i), i + 1)
    else if s[i] == '\\' then
      var c := ScanEscape(s, i + 1, start);
      if c.Lost? then Lost(c.error)
      else ScanTemplate(s, c.end, start, fragments, literal + [c.value], literalStart)
    else if s[i] == '{' then
      var x := ScanInterpolation(s, i);
      if x.Lost? then Lost(x.error)
      else
        var inner := Interpolation(x.value, i + 1, x.end - 1);
        ScanTemplate(s, x.end, start, AddLiteral(fragments, literal, literalStart, i) + [inner], [], x.end)
    else ScanTemplate(s, i + 1, start, fragments, literal + [s[i]], literalStart)
  }

  function LiteralText(fragments: seq<Fragment>): string {
    if fragments == [] then []
    else (if fragments[0].Literal? then fragments[0].value else []) + LiteralText(fragments[1..])
  }

  /** A template without interpolations is an ordinary string. */
  function TemplateToken(fragments: seq<Fragment>): TokenKind {
    if exists k :: 0 <= k < |fragments| && fragments[k].Interpolation? then Template(fragments)
    else Text(LiteralText(fragments))
  }

  // ---------------------------------------------------------------- placeholders and symbols

  function Saturate(n: nat): nat { if n > U32_MAX then U32_MAX else n }

  function ScanDollar(s: string, pos: nat): Scanned<TokenKind>
    requires pos < |s|
  {
    var e := RunEnd(s, pos + 1, IsDigit);
    var value := Saturate(Value(s[pos + 1..e], 10));
    if e > pos + 1 && value == 0 then Lost(LexError(ZeroPlaceholder, pos, e)) else Found(Dollar(value), e)
  }

  function Next(s: string, i: nat, c: char): bool { i < |s| && s[i] == c }

  function SymbolLength(s: string, pos: nat): (n: nat)
    requires pos < |s|
    ensures pos + n <= |s|
  {
    match s[pos]
    case '(' => 1
    case ')' => 1
    case '[' => 1
    case ']' => 1
    case ',' => 1
    case ':' => 1
    case '%' => 1
    case '&' => 1
    case '|' => 1
    case '^' => 1
    case '~' => 1
    case '?' => 1
    case '@' => 1
    case '.' => if Next(s, pos + 1, '.') && Next(s, pos + 2, '.') then 3 else 1
    case '+' => if Next(s, pos + 1, '=') then 2 else 1
    case '-' => if Next(s, pos + 1, '=') then 2 else 1
    case '*' => if Next(s, pos + 1, '=') then 2 else 1
    case '/' => if Next(s, pos + 1, '=') then 2 else 1
    case '>' => if Next(s, pos + 1, '>') || Next(s, pos + 1, '=') then 2 else 1
    case '<' => if Next(s, pos + 1, '<') || Next(s, pos + 1, '=') then 2 else 1
    case '!' => if Next(s, pos + 1, '!') then 2 else 1
    case _ => 0
  }

  // ---------------------------------------------------------------- one token

  /** The token that starts at `pos`. */
  function Scan(s: string, pos: nat): (r: Scanned<TokenKind>)
    requires pos < |s|
    ensures r.Found? ==> pos < r.end <= |s|
  {
    var c := s[pos];
    if IsDigit(c) then ScanNumber(s, pos)
    else if StartsWord(c) then ScanWord(s, pos)
    else if c == '"' then
      var t := ScanQuoted(s, pos + 1, pos, false);
      if t.Lost? then Lost(t.error) else Found(Text(t.value), t.end)
    else if c == '\'' then
      var t := ScanTemplate(s, pos + 1, pos, [], [], pos + 1);
      if t.Lost? then Lost(t.error) else Found(TemplateToken(t.value), t.end)
    else if c == '$' then ScanDollar(s, pos)
    else if SymbolLength(s, pos) > 0 then
      Found(Symbol(s[pos..pos + SymbolLength(s, pos)]), pos + SymbolLength(s, pos))
    else if c == '=' then Lost(LexError(UnexpectedChar, pos, if Next(s, pos + 1, '=') then pos + 2 else pos + 1))
    else Lost(LexError(UnexpectedChar, pos, pos + 1))
  }
}
