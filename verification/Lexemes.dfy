/** The grammar of the other tokens: numbers with separators, words, bytes, placeholders and
    symbols, each read as far as it goes, and the errors for what only begins like one. */
module Lexemes {
  import opened Ast
  import opened Scanner
  import opened Literals

  // ---------------------------------------------------------------- digits and separators

  /** A digit of a radix and what it counts. */
  predicate DigitIs(c: char, n: nat) {
    || (n < 10 && c as int == '0' as int + n)
    || (10 <= n < 16 && (c as int == 'a' as int + n - 10 || c as int == 'A' as int + n - 10))
  }

  predicate DigitOf(c: char, radix: nat)
    requires radix <= 16
  {
    exists n: nat :: n < radix && DigitIs(c, n)
  }

  lemma DigitsCount(c: char, n: nat)
    ensures n < 16 ==> (DigitIs(c, n) <==> DigitValue(c) == n)
    ensures DigitValue(c) < 16 ==> DigitIs(c, DigitValue(c))
  {
  }

  lemma DigitOfIs(c: char, radix: nat)
    requires radix <= 16
    ensures DigitOf(c, radix) <==> DigitValue(c) < radix
  {
    hide DigitIs, DigitValue;
    DigitsCount(c, DigitValue(c));
    if DigitOf(c, radix) {
      var n: nat :| n < radix && DigitIs(c, n);
      DigitsCount(c, n);
    }
  }

  /** Groups of digits, written with a separator between them; a group may be empty. */
  function Joined(groups: seq<string>): string {
    if groups == [] then "" else if |groups| == 1 then groups[0] else groups[0] + ("_" + Joined(groups[1..]))
  }

  function Flat(groups: seq<string>): string { if groups == [] then "" else groups[0] + Flat(groups[1..]) }

  predicate AllDigits(digits: string, radix: nat)
    requires radix <= 16
  {
    forall k :: 0 <= k < |digits| ==> DigitOf(digits[k], radix)
  }

  predicate AreGroups(groups: seq<string>, radix: nat)
    requires radix <= 16
  {
    forall k :: 0 <= k < |groups| ==> AllDigits(groups[k], radix)
  }

  lemma {:induction false} BarsVanish(a: string, b: string)
    requires '_' !in a
    ensures WithoutBars(a + b) == a + WithoutBars(b)
    decreases |a|
  {
    if a == [] {
      assert a + b == b;
    } else {
      assert (a + b)[1..] == a[1..] + b;
      BarsVanish(a[1..], b);
    }
  }

  lemma NoBarIsDigit(digits: string, radix: nat)
    requires radix <= 16 && AllDigits(digits, radix)
    ensures '_' !in digits
  {
    hide DigitOf;
    assert !DigitOf('_', radix) by { DigitOfIs('_', radix); }
  }

  /** Separators count for nothing. */
  lemma {:induction false} SeparatorsVanish(groups: seq<string>, radix: nat)
    requires radix <= 16 && AreGroups(groups, radix)
    ensures WithoutBars(Joined(groups)) == Flat(groups)
    ensures forall k :: 0 <= k < |Joined(groups)| ==> Joined(groups)[k] == '_' || DigitOf(Joined(groups)[k], radix)
    decreases |groups|
  {
    hide DigitOf, WithoutBars;
    if groups == [] {
      assert WithoutBars("") == "" by { BarsVanish("", ""); NoBars(); }
    } else {
      var g := groups[0];
      NoBarIsDigit(g, radix);
      if |groups| == 1 {
        BarsVanish(g, "");
        NoBars();
        assert g + "" == g && groups[1..] == [];
      } else {
        var rest := groups[1..];
        SeparatorsVanish(rest, radix);
        BarsVanish(g, "_" + Joined(rest));
        OneBar(Joined(rest));
      }
    }
  }

  lemma NoBars()
    ensures WithoutBars("") == ""
  {
  }

  lemma OneBar(b: string)
    ensures WithoutBars("_" + b) == WithoutBars(b)
  {
    assert ("_" + b)[1..] == b;
  }

  // ---------------------------------------------------------------- numbers

  /** What digits are worth, or what is wrong with them. */
  function Worth(digits: string, radix: nat, start: nat, end: nat): Scanned<TokenKind> {
    if digits == "" then Lost(LexError(NoDigits, start, end))
    else if Value(digits, radix) >= 0x8000_0000_0000_0000 then Lost(LexError(TooLarge, start, end))
    else Found(Number(Value(digits, radix)), end)
  }

  predicate Marks(mark: string, radix: nat) {
    || (radix == 16 && mark in {"0x", "0X"})
    || (radix == 8 && mark in {"0o", "0O"})
    || (radix == 2 && mark in {"0b", "0B"})
  }

  /** No digit of the radix and no separator follows. */
  ghost predicate NoMoreDigits(s: string, e: nat, radix: nat)
    requires radix <= 16
  {
    e < |s| ==> s[e] != '_' && !DigitOf(s[e], radix)
  }

  lemma {:induction false} RunIs(s: string, i: nat, accepts: char -> bool, e: nat)
    requires i <= e <= |s| && (e < |s| ==> !accepts(s[e])) && forall k :: i <= k < e ==> accepts(s[k])
    ensures RunEnd(s, i, accepts) == e
    decreases e - i
  {
    if i < e { RunIs(s, i + 1, accepts, e); }
  }

  lemma GroupsRun(s: string, i: nat, groups: seq<string>, radix: nat)
    requires radix <= 16 && AreGroups(groups, radix) && Has(s, i, Joined(groups))
    ensures i + |Joined(groups)| <= |s| && s[i..i + |Joined(groups)|] == Joined(groups)
    ensures forall k :: i <= k < i + |Joined(groups)| ==> InRadix(s[k], radix)
    ensures WithoutBars(Joined(groups)) == Flat(groups)
  {
    hide DigitOf, Joined, AreGroups, WithoutBars, Flat;
    SeparatorsVanish(groups, radix);
    var text := Joined(groups);
    forall k | i <= k < i + |text| ensures InRadix(s[k], radix) {
      assert s[i..i + |text|][k - i] == text[k - i];
      DigitOfIs(s[k], radix);
    }
  }

  /** A number with a mark for its radix, digits and separators. */
  lemma RadixNumbersScan(s: string, pos: nat, mark: string, groups: seq<string>, radix: nat)
    requires Marks(mark, radix) && AreGroups(groups, radix) && Has(s, pos, mark + Joined(groups))
    requires radix == 2 ==> Joined(groups) != ""
    requires NoMoreDigits(s, pos + 2 + |Joined(groups)|, radix)
    ensures var e := pos + 2 + |Joined(groups)|; Scan(s, pos) == Worth(Flat(groups), radix, pos, e)
  {
    hide Joined, AreGroups, Flat, WithoutBars, Value, ScanWord, ScanQuoted, ScanTemplate, DigitOf, SymbolLength,
         DecimalEnd, DigitValue;
    var text := Joined(groups);
    var e := pos + 2 + |text|;
    HasBoth(s, pos, mark, text);
    assert s[pos..pos + 2][0] == mark[0] && s[pos..pos + 2][1] == mark[1];
    GroupsRun(s, pos + 2, groups, radix);
    if e < |s| { DigitOfIs(s[e], radix); }
    RunIs(s, pos + 2, c => InRadix(c, radix), e);
  }

  /** A number that is not written in another radix starts here: one that is more than a zero, or
      a zero before no mark. */
  ghost predicate NoMark(s: string, pos: nat) {
    pos + 1 < |s| && s[pos] == '0' ==>
      && s[pos + 1] !in {'x', 'X', 'o', 'O'}
      && (s[pos + 1] in {'b', 'B'} ==> pos + 2 < |s| ==> s[pos + 2] !in {'0', '1', '_'})
  }

  lemma NoMarkIsDecimal(s: string, pos: nat)
    requires pos < |s| && NoMark(s, pos)
    ensures RadixPrefix(s, pos) == 10
  {
  }

  lemma {:induction false} DigitsPass(s: string, i: nat, dotted: bool, e: nat)
    requires i <= e <= |s| && forall k :: i <= k < e ==> InRadix(s[k], 10)
    ensures DecimalEnd(s, i, dotted) == DecimalEnd(s, e, dotted)
    decreases e - i
  {
    if i < e {
      BarOrDigit(s[i]);
      DigitsPass(s, i + 1, dotted, e);
    }
  }

  lemma BarOrDigit(c: char)
    ensures InRadix(c, 10) <==> IsDigitOrBar(c)
    ensures DigitOf(c, 10) <==> IsDigit(c)
  {
    DigitOfIs(c, 10);
    hide DigitOf;
  }

  /** A decimal number without a dot. */
  lemma WholeNumbersScan(s: string, pos: nat, groups: seq<string>)
    requires AreGroups(groups, 10) && Has(s, pos, Joined(groups)) && Joined(groups) != ""
    requires DigitOf(Joined(groups)[0], 10) && NoMark(s, pos)
    requires var e := pos + |Joined(groups)|;
             NoMoreDigits(s, e, 10) && (e + 1 < |s| && s[e] == '.' ==> !DigitOf(s[e + 1], 10))
    ensures var e := pos + |Joined(groups)|; Scan(s, pos) == Worth(Flat(groups), 10, pos, e)
  {
    hide Joined, AreGroups, Flat, WithoutBars, Value, ScanWord, ScanQuoted, ScanTemplate, DigitOf, SymbolLength,
         DigitValue, InRadix, DecimalEnd, RadixPrefix;
    var text := Joined(groups);
    var e := pos + |text|;
    GroupsRun(s, pos, groups, 10);
    assert s[pos] == s[pos..e][0] == text[0];
    BarOrDigit(s[pos]);
    NoMarkIsDecimal(s, pos);
    DigitsPass(s, pos + 1, false, e);
    if e < |s| {
      BarOrDigit(s[e]);
      if e + 1 < |s| { BarOrDigit(s[e + 1]); }
    }
    DecimalStops(s, e, false);
  }

  lemma DecimalStops(s: string, e: nat, dotted: bool)
    requires e <= |s| && (e < |s| ==> !IsDigitOrBar(s[e]))
    requires dotted || (e + 1 < |s| && s[e] == '.' ==> !IsDigit(s[e + 1]))
    ensures DecimalEnd(s, e, dotted) == (e, dotted)
  {
  }

  lemma DotPasses(s: string, i: nat)
    requires i + 1 < |s| && s[i] == '.' && IsDigit(s[i + 1])
    ensures DecimalEnd(s, i, false) == DecimalEnd(s, i + 1, true)
  {
  }

  /** A decimal number with a dot; a second dot is behind it. */
  lemma DottedNumbersScan(s: string, pos: nat, whole: seq<string>, part: seq<string>)
    requires AreGroups(whole, 10) && AreGroups(part, 10) && Has(s, pos, Joined(whole) + ("." + Joined(part)))
    requires Joined(whole) != "" && DigitOf(Joined(whole)[0], 10) && Joined(part) != "" && DigitOf(Joined(part)[0], 10)
    requires NoMoreDigits(s, pos + |Joined(whole)| + 1 + |Joined(part)|, 10)
    ensures Scan(s, pos) == Found(Decimal(Flat(whole) + ("." + Flat(part))), pos + |Joined(whole)| + 1 + |Joined(part)|)
  {
    hide Joined, AreGroups, Flat, WithoutBars, Value, ScanWord, ScanQuoted, ScanTemplate, DigitOf, SymbolLength,
         DigitValue, InRadix, DecimalEnd, RadixPrefix, Has;
    var a, b := Joined(whole), Joined(part);
    var dot := pos + |a|;
    var e := dot + 1 + |b|;
    HasBoth(s, pos, a, "." + b);
    HasFirst(s, dot, '.', b);
    GroupsRun(s, pos, whole, 10);
    GroupsRun(s, dot + 1, part, 10);
    assert s[pos] == s[pos..dot][0] == a[0] && s[dot + 1] == s[dot + 1..e][0] == b[0];
    BarOrDigit(s[pos]);
    BarOrDigit(s[dot + 1]);
    NotMarked(s, pos, dot);
    NoMarkIsDecimal(s, pos);
    DigitsPass(s, pos + 1, false, dot);
    DotPasses(s, dot);
    DigitsPass(s, dot + 1, true, e);
    if e < |s| { BarOrDigit(s[e]); }
    DecimalStops(s, e, true);
    BarsOfDotted(whole, part);
    assert s[pos..e] == a + ("." + b) by { assert Has(s, pos, a + ("." + b)); HasIs(s, pos, a + ("." + b)); }
  }

  lemma HasIs(s: string, i: nat, text: string)
    requires Has(s, i, text)
    ensures i + |text| <= |s| && s[i..i + |text|] == text
  {
  }

  lemma NotMarked(s: string, pos: nat, dot: nat)
    requires pos < dot < |s| && s[dot] == '.' && forall k :: pos <= k < dot ==> InRadix(s[k], 10)
    ensures NoMark(s, pos)
  {
    if pos + 1 < dot { assert InRadix(s[pos + 1], 10); }
  }

  lemma BarsOfDotted(whole: seq<string>, part: seq<string>)
    requires AreGroups(whole, 10) && AreGroups(part, 10)
    ensures WithoutBars(Joined(whole) + ("." + Joined(part))) == Flat(whole) + ("." + Flat(part))
  {
    hide DigitOf, Joined, Flat, WithoutBars, AreGroups;
    SeparatorsVanish(whole, 10);
    SeparatorsVanish(part, 10);
    BarsSplit(Joined(whole), "." + Joined(part));
    BarsVanish(".", Joined(part));
  }

  lemma {:induction false} BarsSplit(a: string, b: string)
    ensures WithoutBars(a + b) == WithoutBars(a) + WithoutBars(b)
    decreases |a|
  {
    if a == [] {
      assert a + b == b;
    } else {
      assert (a + b)[1..] == a[1..] + b;
      BarsSplit(a[1..], b);
    }
  }

  // ---------------------------------------------------------------- words and bytes

  /** The characters that words, blanks and comments are told by, in ASCII. */
  lemma ClassesAre(c: char)
    ensures var n := c as int;
            && (IsDigit(c) <==> 48 <= n <= 57) && (IsBlank(c) <==> n == 32 || n == 9) && (NotNewline(c) <==> n != 10)
            && (StartsWord(c) <==> 65 <= n <= 90 || 97 <= n <= 122 || n == 95)
            && (InWord(c) <==> StartsWord(c) || IsDigit(c))
  {
  }

  ghost predicate IsWord(s: string, pos: nat, text: string) {
    && text != "" && StartsWord(text[0]) && (forall k :: 0 <= k < |text| ==> InWord(text[k]))
    && Has(s, pos, text) && (pos + |text| < |s| ==> !InWord(s[pos + |text|]))
  }

  lemma WordRun(s: string, pos: nat, text: string)
    requires IsWord(s, pos, text)
    ensures pos < |s| && s[pos] == text[0] && RunEnd(s, pos + 1, InWord) == pos + |text|
  {
    var e := pos + |text|;
    assert s[pos..e][0] == s[pos];
    forall k | pos + 1 <= k < e ensures InWord(s[k]) { assert s[pos..e][k - pos] == text[k - pos]; }
    RunIs(s, pos + 1, InWord, e);
  }

  /** The longest word that starts here is a keyword or a name, unless it starts bytes. */
  lemma WordsScan(s: string, pos: nat, text: string)
    requires IsWord(s, pos, text)
    requires !(text in {"b", "B"} && Next(s, pos + |text|, '"'))
    ensures Scan(s, pos) == Found(if text in KEYWORDS then Keyword(text) else Word(text), pos + |text|)
  {
    hide ScanNumber, ScanQuoted, ScanTemplate, SymbolLength, RunEnd;
    WordRun(s, pos, text);
  }

  /** Bytes are a `b` and characters between double quotes, right behind it. */
  lemma BytesScanExactly(s: string, pos: nat, mark: string, kind: TokenKind, e: nat)
    requires mark in {"b", "B"} && Has(s, pos, mark + "\"")
    ensures Scan(s, pos) == Found(kind, e)
            <==> exists gs :: AllWritable(gs, DoubleOfBytes) && kind == Bytes(AllMeant(gs, DoubleOfBytes))
                              && e == pos + 2 + |AllWritten(gs)| + 1 && Has(s, pos + 2, AllWritten(gs) + "\"")
  {
    HasLast(s, pos, mark, '"');
    WordRun(s, pos, mark);
    hide ScanNumber, ScanQuoted, ScanTemplate, SymbolLength, RunEnd, AllWritable, AllMeant, AllWritten;
    var t := ScanQuoted(s, pos + 2, pos, true);
    assert Scan(s, pos) == if t.Lost? then Lost(t.error) else Found(Bytes(t.value), t.end);
    if t.Found? { QuotedScansExactly(s, pos + 2, pos, true, t.value, t.end); }
    forall gs | AllWritable(gs, DoubleOfBytes) && kind == Bytes(AllMeant(gs, DoubleOfBytes))
                && e == pos + 2 + |AllWritten(gs)| + 1 && Has(s, pos + 2, AllWritten(gs) + "\"")
      ensures t == Found(AllMeant(gs, DoubleOfBytes), e)
    {
      QuotedScansExactly(s, pos + 2, pos, true, AllMeant(gs, DoubleOfBytes), e);
    }
  }

  /** A string is characters between double quotes. */
  lemma StringsScanExactly(s: string, pos: nat, kind: TokenKind, e: nat)
    requires Has(s, pos, "\"")
    ensures Scan(s, pos) == Found(kind, e)
            <==> exists gs :: AllWritable(gs, Double) && kind == Text(AllMeant(gs, Double))
                              && e == pos + 1 + |AllWritten(gs)| + 1 && Has(s, pos + 1, AllWritten(gs) + "\"")
  {
    HasChar(s, pos, '"');
    hide ScanNumber, ScanWord, ScanQuoted, ScanTemplate, SymbolLength, AllWritable, AllMeant, AllWritten;
    var t := ScanQuoted(s, pos + 1, pos, false);
    assert Scan(s, pos) == if t.Lost? then Lost(t.error) else Found(Text(t.value), t.end);
    if t.Found? { QuotedScansExactly(s, pos + 1, pos, false, t.value, t.end); }
    forall gs | AllWritable(gs, Double) && kind == Text(AllMeant(gs, Double))
                && e == pos + 1 + |AllWritten(gs)| + 1 && Has(s, pos + 1, AllWritten(gs) + "\"")
      ensures t == Found(AllMeant(gs, Double), e)
    {
      QuotedScansExactly(s, pos + 1, pos, false, AllMeant(gs, Double), e);
    }
  }

  // ---------------------------------------------------------------- placeholders

  /** A placeholder is a dollar sign and the longest run of digits behind it. */
  lemma PlaceholdersScan(s: string, pos: nat, digits: string)
    requires Has(s, pos, "$" + digits) && (forall k :: 0 <= k < |digits| ==> IsDigit(digits[k]))
    requires pos + 1 + |digits| < |s| ==> !IsDigit(s[pos + 1 + |digits|])
    ensures var e, n := pos + 1 + |digits|, Value(digits, 10);
            Scan(s, pos) == if digits == "" then Found(Dollar(0), e)
                            else if n == 0 then Lost(LexError(ZeroPlaceholder, pos, e))
                            else Found(Dollar(if n < 0x1_0000_0000 then n else 0xFFFF_FFFF), e)
  {
    hide ScanNumber, ScanWord, ScanQuoted, ScanTemplate, SymbolLength, Value, Has;
    HasFirst(s, pos, '$', digits);
    HasIs(s, pos + 1, digits);
    var e := pos + 1 + |digits|;
    forall k | pos + 1 <= k < e ensures IsDigit(s[k]) { assert s[pos + 1..e][k - pos - 1] == digits[k - pos - 1]; }
    RunIs(s, pos + 1, IsDigit, e);
    assert digits == "" ==> Value(digits, 10) == 0 by { NoValue(); }
  }

  lemma NoValue()
    ensures Value("", 10) == 0
  {
  }

  // ---------------------------------------------------------------- symbols

  const SYMBOLS: set<string> :=
    {"(", ")", "[", "]", ",", ":", ".", "...", "+", "+=", "-", "-=", "*", "*=", "/", "/=", "%", ">", ">>", ">=",
     "<", "<<", "<=", "&", "|", "^", "~", "?", "!", "!!", "@"}

  predicate IsSymbolAt(s: string, pos: nat, n: nat) { pos + n <= |s| && s[pos..pos + n] in SYMBOLS }

  /** Something other than a number, a word, a placeholder or a quoted literal. */
  predicate StartsOther(c: char) { !IsDigit(c) && !StartsWord(c) && c != '"' && c != '\'' && c != '$' }

  lemma SymbolsMunch(s: string, pos: nat, n: nat)
    requires pos < |s|
    ensures IsSymbolAt(s, pos, n) ==> n <= SymbolLength(s, pos)
    ensures SymbolLength(s, pos) > 0 ==> IsSymbolAt(s, pos, SymbolLength(s, pos))
  {
    SymbolChars(s, pos, n);
    SymbolIs(s, pos);
  }

  lemma SymbolChars(s: string, pos: nat, n: nat)
    requires pos < |s|
    ensures IsSymbolAt(s, pos, n) ==> n <= SymbolLength(s, pos)
  {
    if IsSymbolAt(s, pos, n) {
      var t := s[pos..pos + n];
      assert |t| == n && (n > 0 ==> s[pos] == t[0]) && (n > 1 ==> s[pos + 1] == t[1]) && (n > 2 ==> s[pos + 2] == t[2]);
    }
  }

  lemma SymbolIs(s: string, pos: nat)
    requires pos < |s|
    ensures SymbolLength(s, pos) > 0 ==> IsSymbolAt(s, pos, SymbolLength(s, pos))
  {
    var n := SymbolLength(s, pos);
    var t := s[pos..pos + n];
    assert n == 1 ==> t == [s[pos]];
    assert n == 2 ==> t == [s[pos], s[pos + 1]];
    assert n == 3 ==> t == [s[pos], s[pos + 1], s[pos + 2]];
  }

  /** The longest symbol is read; where there is none, the character is unexpected. */
  lemma SymbolsScan(s: string, pos: nat, r: Scanned<TokenKind>)
    requires pos < |s| && StartsOther(s[pos])
    ensures r.Found? ==> (Scan(s, pos) == r <==>
              exists n: nat :: IsSymbolAt(s, pos, n) && (forall m: nat :: IsSymbolAt(s, pos, m) ==> m <= n)
                          && r == Found(Symbol(s[pos..pos + n]), pos + n))
    ensures (forall m: nat :: !IsSymbolAt(s, pos, m)) ==>
              Scan(s, pos) == Lost(LexError(UnexpectedChar, pos, pos + if Has(s, pos, "==") then 2 else 1))
  {
    hide SymbolLength, IsSymbolAt, ScanNumber, ScanWord, ScanQuoted, ScanTemplate, ScanDollar;
    forall m: nat ensures IsSymbolAt(s, pos, m) ==> m <= SymbolLength(s, pos) { SymbolsMunch(s, pos, m); }
    SymbolsMunch(s, pos, 0);
    NoEmptySymbol(s, pos);
    HasFirst(s, pos, '=', "=");
    HasChar(s, pos + 1, '=');
    assert "=" + "=" == "==";
  }

  lemma NoEmptySymbol(s: string, pos: nat)
    requires pos < |s|
    ensures !IsSymbolAt(s, pos, 0)
  {
  }
}
