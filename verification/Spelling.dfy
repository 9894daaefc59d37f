/** Writing tokens as text. Scanning a spelled token gives it back, and so does lexing spelled
    tokens with a space behind each. */
module Spelling {
  import opened Ast
  import G = Grammar
  import Integers
  import opened Lowering
  import opened Scanner
  import opened Lexer

  function OpText(op: BinaryOp): string {
    match op
    case Add => "+"
    case Sub => "-"
    case Mul => "*"
    case Div => "/"
    case Mod => "%"
    case And => "and"
    case Or => "or"
    case BitAnd => "&"
    case BitOr => "|"
    case BitXor => "^"
    case ShiftLeft => "<<"
    case ShiftRight => ">>"
    case Equals => "is"
    case NotEquals => "isnt"
    case Greater => ">"
    case GreaterEq => ">="
    case Less => "<"
    case LessEq => "<="
  }

  function EscapeChar(c: char): string {
    match c
    case '\n' => "\\n"
    case '\r' => "\\r"
    case '\t' => "\\t"
    case '\0' => "\\0"
    case '\\' => "\\\\"
    case '"' => "\\\""
    case _ => [c]
  }

  function Escape(s: string): string { if s == [] then [] else EscapeChar(s[0]) + Escape(s[1..]) }

  function Spell(kind: G.Kind): string {
    match kind
    case Word(name) => name
    case Number(n) => Integers.Digits(n)
    case Text(s) => "\"" + Escape(s) + "\""
    case KwTrue => "true"
    case KwFalse => "false"
    case KwNone => "none"
    case Dollar(index) => if index == 0 then "$" else "$" + Integers.Digits(index)
    case Op(op) => OpText(op)
    case Tilde => "~"
    case Question => "?"
    case Bang => "!"
    case LParen => "("
    case RParen => ")"
    case LBracket => "["
    case RBracket => "]"
    case Comma => ","
    case Dot => "."
    case Colon => ":"
    case KwReturn => "return"
    case KwBreak => "break"
    case KwContinue => "continue"
    case Eof => ""
  }

  predicate IsName(name: string) {
    name != [] && StartsWord(name[0]) && (forall i :: 0 <= i < |name| ==> InWord(name[i])) && name !in KEYWORDS
  }

  /** The tokens that can be written: names that are words but not keywords, and numbers that
      fit. */
  predicate Spellable(kind: G.Kind) {
    match kind
    case Word(name) => IsName(name)
    case Number(n) => n <= I64_MAX
    case Dollar(index) => index <= U32_MAX
    case Eof => false
    case _ => true
  }

  function ClassifyChar(c: char): G.Kind {
    match c
    case '+' => G.Op(Add)
    case '-' => G.Op(Sub)
    case '*' => G.Op(Mul)
    case '/' => G.Op(Div)
    case '%' => G.Op(Mod)
    case '&' => G.Op(BitAnd)
    case '|' => G.Op(BitOr)
    case '^' => G.Op(BitXor)
    case '>' => G.Op(Greater)
    case '<' => G.Op(Less)
    case '~' => G.Tilde
    case '?' => G.Question
    case '!' => G.Bang
    case '(' => G.LParen
    case ')' => G.RParen
    case '[' => G.LBracket
    case ']' => G.RBracket
    case ',' => G.Comma
    case '.' => G.Dot
    case ':' => G.Colon
    case _ => G.Eof
  }

  /** What the parser sees of a token. */
  function Classify(kind: TokenKind): G.Kind {
    match kind
    case Word(name) => G.Word(name)
    case Number(n) => G.Number(n)
    case Text(s) => G.Text(s)
    case Dollar(index) => G.Dollar(index)
    case Keyword(t) =>
      if t == "true" then G.KwTrue
      else if t == "false" then G.KwFalse
      else if t == "none" then G.KwNone
      else if t == "return" then G.KwReturn
      else if t == "break" then G.KwBreak
      else if t == "continue" then G.KwContinue
      else if t == "and" then G.Op(And)
      else if t == "or" then G.Op(Or)
      else if t == "is" then G.Op(Equals)
      else if t == "isnt" then G.Op(NotEquals)
      else G.Eof
    case Symbol(t) =>
      if |t| == 1 then ClassifyChar(t[0])
      else if t == "<<" then G.Op(ShiftLeft)
      else if t == ">>" then G.Op(ShiftRight)
      else if t == ">=" then G.Op(GreaterEq)
      else if t == "<=" then G.Op(LessEq)
      else G.Eof
    case _ => G.Eof
  }

  // ---------------------------------------------------------------- scanning spelled tokens

  /** A text stands at a position and is followed by a space. */
  ghost predicate StandsAt(s: string, pos: nat, text: string) {
    pos + |text| < |s| && s[pos..pos + |text|] == text && s[pos + |text|] == ' '
  }

  lemma {:induction false} RunEndIs(s: string, i: nat, accepts: char -> bool, e: nat)
    requires i <= e < |s| && !accepts(s[e]) && forall k :: i <= k < e ==> accepts(s[k])
    ensures RunEnd(s, i, accepts) == e
    decreases e - i
  {
    if i < e { RunEndIs(s, i + 1, accepts, e); }
  }

  lemma CharsAt(s: string, pos: nat, text: string)
    requires StandsAt(s, pos, text)
    ensures forall k :: 0 <= k < |text| ==> s[pos + k] == text[k]
  {
    forall k | 0 <= k < |text| ensures s[pos + k] == text[k] {
      assert s[pos..pos + |text|][k] == s[pos + k];
    }
  }

  lemma {:induction false} DigitsSpell(n: nat)
    ensures |Integers.Digits(n)| > 0 && (forall i :: 0 <= i < |Integers.Digits(n)| ==> IsDigit(Integers.Digits(n)[i]))
    ensures Value(Integers.Digits(n), 10) == n && (Integers.Digits(n)[0] == '0' ==> n == 0 && Integers.Digits(n) == "0")
    decreases n
  {
    if n >= 10 {
      DigitsSpell(n / 10);
      var d := Integers.Digits(n);
      assert d[..|d| - 1] == Integers.Digits(n / 10);
    }
  }

  lemma {:induction false} DecimalEndIs(s: string, i: nat, e: nat)
    requires i <= e < |s| && s[e] == ' ' && forall k :: i <= k < e ==> IsDigit(s[k])
    ensures DecimalEnd(s, i, false) == (e, false)
    decreases e - i
  {
    if i < e { DecimalEndIs(s, i + 1, e); }
  }

  lemma NumberScans(s: string, pos: nat, n: nat)
    requires StandsAt(s, pos, Integers.Digits(n)) && n <= I64_MAX
    ensures Scan(s, pos) == Found(Number(n), pos + |Integers.Digits(n)|)
  {
    hide Integers.Digits, Value, WithoutBars, DecimalEnd, ScanWord, ScanQuoted, ScanTemplate, SymbolLength, ScanRadix;
    var d := Integers.Digits(n);
    DigitsSpell(n);
    CharsAt(s, pos, d);
    assert s[pos] == s[pos + 0] == d[0];
    var e := pos + |d|;
    forall k | pos + 1 <= k < e ensures IsDigit(s[k]) { assert s[pos + (k - pos)] == d[k - pos]; }
    DecimalEndIs(s, pos + 1, e);
    NoBarsStay(d);
    assert s[pos..e] == d;
    assert RadixPrefix(s, pos) == 10 by {
      if s[pos] == '0' {
        assert |d| == 1;
        assert s[pos + 1] == ' ';
      }
    }
  }

  function RadixDigit(d: nat): char
    requires d < 16
  {
    if d < 10 then ('0' as int + d) as char else ('a' as int + d - 10) as char
  }

  function RadixDigits(n: nat, radix: nat): string
    requires 2 <= radix <= 16
  {
    if n < radix then [RadixDigit(n)] else RadixDigits(n / radix, radix) + [RadixDigit(n % radix)]
  }

  function RadixMark(radix: nat): string { if radix == 16 then "0x" else if radix == 8 then "0o" else "0b" }

  predicate AllInRadix(d: string, radix: nat) { forall i :: 0 <= i < |d| ==> DigitValue(d[i]) < radix && d[i] != '_' }

  lemma {:induction false} RadixDigitsSpell(n: nat, radix: nat)
    requires 2 <= radix <= 16
    ensures var d := RadixDigits(n, radix); |d| > 0 && Value(d, radix) == n && AllInRadix(d, radix)
    decreases n
  {
    hide Value, AllInRadix, RadixDigits;
    if n < radix {
      OneDigit(n, radix);
      OneDigitSpells("", n, radix);
      ValueOfNothing(radix);
      assert AllInRadix("", radix) by { NoDigits(radix); }
    } else {
      var q, m := LastDigit(n, radix);
      RadixDigitsSpell(q, radix);
      OneDigitSpells(RadixDigits(q, radix), m, radix);
    }
  }

  lemma OneDigit(n: nat, radix: nat)
    requires 2 <= radix <= 16 && n < radix
    ensures RadixDigits(n, radix) == "" + [RadixDigit(n)]
  {
  }

  lemma LastDigit(n: nat, radix: nat) returns (q: nat, m: nat)
    requires 2 <= radix <= 16 && n >= radix
    ensures q < n && m < radix && n == q * radix + m
    ensures RadixDigits(n, radix) == RadixDigits(q, radix) + [RadixDigit(m)]
  {
    q, m := n / radix, n % radix;
    Integers.DivMod(n, radix);
  }

  lemma NoDigits(radix: nat)
    ensures AllInRadix("", radix)
  {
  }

  lemma OneDigitSpells(digits: string, m: nat, radix: nat)
    requires m < radix <= 16
    ensures Value(digits + [RadixDigit(m)], radix) == Value(digits, radix) * radix + m
    ensures AllInRadix(digits, radix) ==> AllInRadix(digits + [RadixDigit(m)], radix)
  {
    hide Value;
    ValueNext(digits, RadixDigit(m), radix);
  }

  lemma ValueNext(digits: string, c: char, radix: nat)
    ensures Value(digits + [c], radix) == Value(digits, radix) * radix + DigitValue(c)
  {
    assert (digits + [c])[..|digits|] == digits;
  }

  lemma {:induction false} NoBarsStay(d: string)
    requires forall i :: 0 <= i < |d| ==> d[i] != '_'
    ensures WithoutBars(d) == d
    decreases |d|
  {
    if d != [] { NoBarsStay(d[1..]); }
  }

  /** A number written in hexadecimal, octal or binary scans to its value. */
  lemma RadixScans(s: string, pos: nat, n: nat, radix: nat)
    requires (radix == 16 || radix == 8 || radix == 2) && n <= I64_MAX
    requires StandsAt(s, pos, RadixMark(radix) + RadixDigits(n, radix))
    ensures Scan(s, pos) == Found(Number(n), pos + 2 + |RadixDigits(n, radix)|)
  {
    hide RadixDigits, Value, WithoutBars, DecimalEnd, ScanWord, ScanQuoted, ScanTemplate, SymbolLength;
    var d := RadixDigits(n, radix);
    var text := RadixMark(radix) + d;
    RadixDigitsSpell(n, radix);
    CharsAt(s, pos, text);
    assert s[pos + 0] == text[0] && s[pos + 1] == text[1] && s[pos + 2] == text[2] == d[0];
    var e := pos + |text|;
    forall k | pos + 2 <= k < e ensures InRadix(s[k], radix) {
      assert s[pos + (k - pos)] == text[k - pos] == d[k - pos - 2];
    }
    RunEndIs(s, pos + 2, c => InRadix(c, radix), e);
    NoBarsStay(d);
    assert s[pos + 2..e] == text[2..] == d;
  }

  lemma WordScans(s: string, pos: nat, text: string)
    requires StandsAt(s, pos, text) && text != [] && StartsWord(text[0])
             && forall i :: 0 <= i < |text| ==> InWord(text[i])
    ensures Scan(s, pos) == Found(if text in KEYWORDS then Keyword(text) else Word(text), pos + |text|)
  {
    hide ScanNumber, ScanQuoted, ScanTemplate, SymbolLength;
    CharsAt(s, pos, text);
    assert s[pos] == s[pos + 0] == text[0];
    var e := pos + |text|;
    forall k | pos + 1 <= k < e ensures InWord(s[k]) { assert s[pos + (k - pos)] == text[k - pos]; }
    RunEndIs(s, pos + 1, InWord, e);
  }

  lemma DollarScans(s: string, pos: nat, index: nat)
    requires StandsAt(s, pos, Spell(G.Dollar(index))) && index <= U32_MAX
    ensures Scan(s, pos) == Found(Dollar(index), pos + |Spell(G.Dollar(index))|)
  {
    hide Integers.Digits, Value, ScanNumber, ScanWord, ScanQuoted, ScanTemplate, SymbolLength;
    var text := Spell(G.Dollar(index));
    CharsAt(s, pos, text);
    assert s[pos] == s[pos + 0] == text[0] == '$';
    var e := pos + |text|;
    var d := if index == 0 then "" else Integers.Digits(index);
    assert text == "$" + d;
    if index == 0 { assert Value("", 10) == 0 by { ValueOfNothing(10); } } else { DigitsSpell(index); }
    forall k | pos + 1 <= k < e ensures IsDigit(s[k]) { assert s[pos + (k - pos)] == text[k - pos] == d[k - pos - 1]; }
    RunEndIs(s, pos + 1, IsDigit, e);
    assert s[pos + 1..e] == text[1..] == d;
  }

  lemma ValueOfNothing(radix: nat)
    ensures Value("", radix) == 0
  {
  }

  lemma {:induction false} EscapedScans(s: string, i: nat, v: string, start: nat)
    requires StandsAt(s, i, Escape(v) + "\"")
    ensures ScanQuoted(s, i, start, false) == Found(v, i + |Escape(v)| + 1)
    decreases |v|
  {
    hide EscapeChar;
    var text := Escape(v) + "\"";
    CharsAt(s, i, text);
    assert s[i] == s[i + 0] == text[0];
    if v != [] {
      EscapeIsShort(v[0]);
      var c := EscapeChar(v[0]);
      assert text == c + (Escape(v[1..]) + "\"");
      assert s[i + |c|..i + |text|] == text[|c|..] == Escape(v[1..]) + "\"";
      assert |c| == 2 ==> s[i + 1] == text[1] == c[1];
      EscapeScans(s, i, v[0], start);
      EscapedScans(s, i + |c|, v[1..], start);
      assert [v[0]] + v[1..] == v;
    }
  }

  lemma EscapeIsShort(c: char)
    ensures 1 <= |EscapeChar(c)| <= 2
  {
  }

  lemma EscapeScans(s: string, i: nat, c: char, start: nat)
    requires i + |EscapeChar(c)| < |s| && s[i] == EscapeChar(c)[0]
    requires |EscapeChar(c)| == 2 ==> s[i + 1] == EscapeChar(c)[1]
    ensures ScanQuoted(s, i, start, false) == PrependText([c], ScanQuoted(s, i + |EscapeChar(c)|, start, false))
  {
  }

  lemma TextScans(s: string, pos: nat, v: string)
    requires StandsAt(s, pos, Spell(G.Text(v)))
    ensures Scan(s, pos) == Found(Text(v), pos + |Spell(G.Text(v))|)
  {
    hide Escape, ScanNumber, ScanWord, ScanQuoted, ScanTemplate, SymbolLength;
    var text := Spell(G.Text(v));
    CharsAt(s, pos, text);
    assert s[pos] == s[pos + 0] == text[0] == '"';
    assert s[pos + 1..pos + |text|] == text[1..] == Escape(v) + "\"";
    EscapedScans(s, pos + 1, v, pos);
  }

  predicate IsSymbol(kind: G.Kind) {
    match kind
    case Op(op) => !op.And? && !op.Or? && !op.Equals? && !op.NotEquals?
    case Tilde => true
    case Question => true
    case Bang => true
    case LParen => true
    case RParen => true
    case LBracket => true
    case RBracket => true
    case Comma => true
    case Dot => true
    case Colon => true
    case _ => false
  }

  lemma SymbolScans(s: string, pos: nat, kind: G.Kind)
    requires IsSymbol(kind) && StandsAt(s, pos, Spell(kind))
    ensures Scan(s, pos) == Found(Symbol(Spell(kind)), pos + |Spell(kind)|)
  {
    hide Classify, ScanNumber, ScanWord, ScanQuoted, ScanTemplate;
    var text := Spell(kind);
    CharsAt(s, pos, text);
    assert s[pos] == s[pos + 0] == text[0];
    assert |text| == 2 ==> s[pos + 1] == text[1];
    assert |text| == 1 ==> s[pos + 1] == ' ';
    assert SymbolLength(s, pos) == |text|;
  }

  lemma SymbolSpells(kind: G.Kind)
    requires IsSymbol(kind)
    ensures Classify(Symbol(Spell(kind))) == kind
  {
  }

  predicate IsKeyword(kind: G.Kind) {
    match kind
    case Op(op) => op.And? || op.Or? || op.Equals? || op.NotEquals?
    case KwTrue => true
    case KwFalse => true
    case KwNone => true
    case KwReturn => true
    case KwBreak => true
    case KwContinue => true
    case _ => false
  }

  lemma KeywordSpells(kind: G.Kind)
    requires IsKeyword(kind)
    ensures var text := Spell(kind);
            && text in KEYWORDS && Classify(Keyword(text)) == kind
            && text != [] && StartsWord(text[0]) && forall i :: 0 <= i < |text| ==> InWord(text[i])
  {
  }

  /** A property is named by a word or by a keyword as it is spelled. */
  lemma PropertiesAreSpelled(kind: G.Kind)
    ensures G.PropertyName(kind) == if kind.Word? || IsKeyword(kind) then Some(Spell(kind)) else None
  {
  }

  /** A spelled token scans to itself. */
  lemma SpelledScans(s: string, pos: nat, kind: G.Kind)
    requires Spellable(kind) && StandsAt(s, pos, Spell(kind))
    ensures var r := Scan(s, pos);
            && r.Found? && r.end == pos + |Spell(kind)| && Classify(r.value) == kind
            && !r.value.Newline? && !r.value.Indent? && !r.value.Dedent? && !r.value.Eof?
  {
    hide Scan, Escape, Integers.Digits;
    if IsSymbol(kind) {
      SymbolScans(s, pos, kind);
      SymbolSpells(kind);
    } else if IsKeyword(kind) {
      KeywordSpells(kind);
      WordScans(s, pos, Spell(kind));
    } else {
      match kind
      case Word(name) => WordScans(s, pos, name);
      case Number(n) => NumberScans(s, pos, n);
      case Text(v) => TextScans(s, pos, v);
      case Dollar(index) => DollarScans(s, pos, index);
    }
  }

  // ---------------------------------------------------------------- lexing spelled tokens

  predicate AllSpellable(kinds: seq<G.Kind>) { forall i :: 0 <= i < |kinds| ==> Spellable(kinds[i]) }

  function SpellAll(kinds: seq<G.Kind>): string {
    if kinds == [] then "" else Spell(kinds[0]) + " " + SpellAll(kinds[1..])
  }

  /** A character that starts a token. */
  predicate Starts(c: char) { c != '\r' && c != '\n' && c != '#' && !IsBlank(c) }

  lemma SpellStarts(kind: G.Kind)
    requires Spellable(kind)
    ensures Spell(kind) != [] && Starts(Spell(kind)[0])
  {
    if IsKeyword(kind) {
      hide Spell;
      KeywordSpells(kind);
    } else if IsSymbol(kind) {
      SymbolStarts(kind);
    } else {
      OthersStart(kind);
    }
  }

  lemma SymbolStarts(kind: G.Kind)
    requires IsSymbol(kind)
    ensures Spell(kind) != [] && Starts(Spell(kind)[0])
  {
  }

  lemma OthersStart(kind: G.Kind)
    requires Spellable(kind) && (kind.Word? || kind.Number? || kind.Text? || kind.Dollar?)
    ensures Spell(kind) != [] && Starts(Spell(kind)[0])
  {
    hide Escape, Integers.Digits;
    if kind.Number? { DigitsSpell(kind.n); }
  }

  predicate Reads(items: seq<Item>, kinds: seq<G.Kind>) {
    |items| == |kinds| && forall i :: 0 <= i < |items| ==>
      items[i].Tok? && Classify(items[i].token.kind) == kinds[i] && !items[i].token.kind.Newline?
  }

  lemma {:induction false} SpelledReads(s: string, pos: nat, kinds: seq<G.Kind>)
    requires pos <= |s| && AllSpellable(kinds) && s[pos..] == SpellAll(kinds)
    ensures var raw := Read(s, pos, false); raw.error.None? && Reads(raw.items, kinds)
    decreases |kinds|
  {
    hide Scan, Spell, Spellable, Classify, RunEnd, Width, StyleOf;
    if kinds != [] {
      var text := Spell(kinds[0]);
      var rest := SpellAll(kinds[1..]);
      SpellStarts(kinds[0]);
      assert s[pos..] == text + (" " + rest);
      assert s[pos..][..|text|] == text && s[pos..][|text|] == ' ' && s[pos..][0] == text[0];
      assert s[pos..pos + |text|] == text;
      SpelledScans(s, pos, kinds[0]);
      var e := pos + |text|;
      assert s[e + 1..] == rest;
      SpelledReads(s, e + 1, kinds[1..]);
      assert Read(s, e, false) == Read(s, e + 1, false);
    }
  }

  /** Items that are all tokens pass through, and the end of the source closes the line. */
  lemma {:induction false} TokensArrange(raw: Raw, stack: Stack, ended: bool, len: nat, kinds: seq<G.Kind>)
    requires raw.error.None? && Reads(raw.items, kinds) && |stack| == 1 && !ended
    ensures var r := Arrange(raw, stack, ended, len);
            && r.Success? && |r.value| == |kinds| + 2 && r.value[|kinds|].kind.Newline?
            && r.value[|kinds| + 1].kind.Eof?
            && forall i :: 0 <= i < |kinds| ==> Classify(r.value[i].kind) == kinds[i]
    decreases |kinds|
  {
    hide Classify;
    if kinds == [] {
      assert Repeat(Dedent, 0, len) == [];
    } else {
      var rest := Raw(raw.items[1..], None);
      TokensArrange(rest, stack, false, len, kinds[1..]);
      var tail := Arrange(rest, stack, false, len).value;
      var r := Arrange(raw, stack, ended, len);
      assert r == Success([raw.items[0].token] + tail);
      forall i | 0 <= i < |kinds| ensures Classify(r.value[i].kind) == kinds[i] {
        if i > 0 { assert r.value[i] == tail[i - 1]; }
      }
    }
  }

  /** Lexing spelled tokens gives them back, a newline, and the end of the file. */
  lemma SpelledLexes(kinds: seq<G.Kind>)
    requires AllSpellable(kinds) && kinds != []
    ensures var r := Lex(SpellAll(kinds));
            && r.Success? && |r.value| == |kinds| + 2 && r.value[|kinds|].kind.Newline?
            && r.value[|kinds| + 1].kind.Eof?
            && forall i :: 0 <= i < |kinds| ==> Classify(r.value[i].kind) == kinds[i]
  {
    hide Spell, Spellable, Classify, Scan, Arrange;
    var s := SpellAll(kinds);
    var base: Stack := [Level(0, None)];
    SpellStarts(kinds[0]);
    assert s[0] == Spell(kinds[0])[0];
    assert s[0..] == s && s[0..0] == "";
    SpelledReads(s, 0, kinds);
    var raw := Read(s, 0, false);
    assert Read(s, 0, true) == PrependItem(Line(0, None, 0, 0), raw);
    TokensArrange(raw, base, false, |s|, kinds);
    FirstLineArranges(raw, base, |s|);
  }

  lemma FirstLineArranges(raw: Raw, base: Stack, len: nat)
    requires |base| == 1
    ensures Arrange(PrependItem(Line(0, None, 0, 0), raw), base, false, len) == Arrange(raw, base, false, len)
  {
    hide Arrange;
    var all := PrependItem(Line(0, None, 0, 0), raw);
    assert all.items[1..] == raw.items && Raw(all.items[1..], all.error) == raw;
    assert base[..1] == base && Repeat(Dedent, 0, 0) == [];
    assert Step(base, 0, None) == Close(base, 0);
    ArrangeLine(all, base, len);
    var r := Arrange(raw, base, false, len);
    assert r.Success? ==> [] + r.value == r.value;
  }

  lemma ArrangeLine(raw: Raw, stack: Stack, len: nat)
    requires raw.items != [] && raw.items[0].Line?
             && Step(stack, raw.items[0].width, raw.items[0].style) == Close(stack, 0)
    ensures Arrange(raw, stack, false, len)
         == PrependTokens(Repeat(Dedent, 0, raw.items[0].start),
                          Arrange(Raw(raw.items[1..], raw.error), stack, false, len))
  {
  }
}
