/** The grammar of quoted literals: every way to write a string, bytes or a template, with what
    it means. The scanners are measured against it in both directions. */
module Literals {
  import opened Ast
  import opened Scanner

  // ---------------------------------------------------------------- text in place

  ghost predicate Has(s: string, i: nat, text: string) { i + |text| <= |s| && s[i..i + |text|] == text }

  lemma HasBoth(s: string, i: nat, a: string, b: string)
    ensures Has(s, i, a + b) <==> Has(s, i, a) && Has(s, i + |a|, b)
  {
    if Has(s, i, a + b) {
      assert s[i..i + |a + b|][..|a|] == a && s[i..i + |a + b|][|a|..] == b;
    }
    if Has(s, i, a) && Has(s, i + |a|, b) {
      assert s[i..i + |a + b|] == s[i..i + |a|] + s[i + |a|..i + |a| + |b|];
    }
  }

  lemma HasChar(s: string, i: nat, c: char)
    ensures Has(s, i, [c]) <==> i < |s| && s[i] == c
  {
  }

  lemma HasFirst(s: string, i: nat, c: char, b: string)
    ensures Has(s, i, [c] + b) <==> i < |s| && s[i] == c && Has(s, i + 1, b)
  {
    HasBoth(s, i, [c], b);
    HasChar(s, i, c);
  }

  lemma HasLast(s: string, i: nat, a: string, c: char)
    ensures Has(s, i, a + [c]) <==> Has(s, i, a) && i + |a| < |s| && s[i + |a|] == c
  {
    HasBoth(s, i, a, [c]);
    HasChar(s, i + |a|, c);
  }

  // ---------------------------------------------------------------- characters

  datatype Quote = Double | DoubleOfBytes | Single

  /** One character of a literal as it is written: itself, escaped, or by its code point. */
  datatype Glyph = Plain(c: char) | Escaped(letter: char) | Codepoint(digits: string)

  const ESCAPES: map<char, char> :=
    map['n' := '\n', 'r' := '\r', 't' := '\t', '0' := '\0', '\\' := '\\', '"' := '"']

  /** What a backslash may stand before, and what the two mean. */
  function Escapes(q: Quote): map<char, char> {
    match q
    case DoubleOfBytes => ESCAPES
    case Double => ESCAPES['\'' := '\'']
    case Single => ESCAPES['\'' := '\'']['{' := '{']['}' := '}']
  }

  predicate IsHex(c: char) { '0' <= c <= '9' || 'a' <= c <= 'f' || 'A' <= c <= 'F' }

  predicate Writable(g: Glyph, q: Quote) {
    match g
    case Plain(c) => c != '\\' && (if q.Single? then c != '\'' && c != '{' else c != '"')
    case Escaped(letter) => letter in Escapes(q)
    case Codepoint(digits) =>
      && q.Single? && 1 <= |digits| <= 6 && (forall k :: 0 <= k < |digits| ==> IsHex(digits[k]))
      && !(0xD800 <= Value(digits, 16) <= 0xDFFF) && Value(digits, 16) <= 0x10_FFFF
  }

  function Written(g: Glyph): string {
    match g
    case Plain(c) => [c]
    case Escaped(letter) => "\\" + [letter]
    case Codepoint(digits) => "\\u{" + digits + "}"
  }

  function Meant(g: Glyph, q: Quote): char
    requires Writable(g, q)
  {
    match g
    case Plain(c) => c
    case Escaped(letter) => Escapes(q)[letter]
    case Codepoint(digits) => Value(digits, 16) as char
  }

  predicate AllWritable(gs: seq<Glyph>, q: Quote) { forall k :: 0 <= k < |gs| ==> Writable(gs[k], q) }

  function AllWritten(gs: seq<Glyph>): string { if gs == [] then "" else Written(gs[0]) + AllWritten(gs[1..]) }

  function AllMeant(gs: seq<Glyph>, q: Quote): (v: string)
    requires AllWritable(gs, q)
    ensures |v| == |gs|
  {
    if gs == [] then "" else [Meant(gs[0], q)] + AllMeant(gs[1..], q)
  }

  lemma ConsGlyph(g: Glyph, gs: seq<Glyph>, q: Quote)
    requires Writable(g, q) && AllWritable(gs, q)
    ensures AllWritable([g] + gs, q)
    ensures AllMeant([g] + gs, q) == [Meant(g, q)] + AllMeant(gs, q)
    ensures AllWritten([g] + gs) == Written(g) + AllWritten(gs)
  {
    assert ([g] + gs)[1..] == gs;
  }

  // ---------------------------------------------------------------- between double quotes

  function QuoteOf(bytes: bool): Quote { if bytes then DoubleOfBytes else Double }

  lemma UnescapeIs(c: char, bytes: bool)
    ensures var table := Escapes(QuoteOf(bytes));
            Unescape(c, bytes) == if c in table then Some(table[c]) else None
  {
  }

  lemma QuotedGlyph(s: string, i: nat, start: nat, bytes: bool, g: Glyph)
    requires Writable(g, QuoteOf(bytes)) && Has(s, i, Written(g))
    ensures ScanQuoted(s, i, start, bytes)
         == PrependText([Meant(g, QuoteOf(bytes))], ScanQuoted(s, i + |Written(g)|, start, bytes))
  {
    hide Escapes, Unescape;
    if g.Plain? {
      HasChar(s, i, g.c);
    } else {
      HasFirst(s, i, '\\', [g.letter]);
      HasChar(s, i + 1, g.letter);
      UnescapeIs(g.letter, bytes);
    }
  }

  /** What scanning makes of a literal's characters and of what stands behind them. */
  lemma {:induction false} QuotedReads(s: string, i: nat, start: nat, bytes: bool, gs: seq<Glyph>)
    requires AllWritable(gs, QuoteOf(bytes)) && Has(s, i, AllWritten(gs))
    ensures ScanQuoted(s, i, start, bytes)
         == PrependText(AllMeant(gs, QuoteOf(bytes)), ScanQuoted(s, i + |AllWritten(gs)|, start, bytes))
    decreases |gs|
  {
    hide Escapes, Written, Meant, Writable, ScanQuoted;
    var q := QuoteOf(bytes);
    if gs == [] {
      var r := ScanQuoted(s, i, start, bytes);
      assert r.Found? ==> "" + r.value == r.value;
    } else {
      var g, rest := gs[0], gs[1..];
      HasBoth(s, i, Written(g), AllWritten(rest));
      QuotedGlyph(s, i, start, bytes, g);
      var j := i + |Written(g)|;
      QuotedReads(s, j, start, bytes, rest);
      var r := ScanQuoted(s, j + |AllWritten(rest)|, start, bytes);
      assert r.Found? ==> [Meant(g, q)] + (AllMeant(rest, q) + r.value) == AllMeant(gs, q) + r.value;
    }
  }

  /** The literal at `i` is written in these characters up to `j`. */
  ghost predicate WrittenIn(s: string, i: nat, gs: seq<Glyph>, q: Quote, j: nat) {
    AllWritable(gs, q) && Has(s, i, AllWritten(gs)) && j == i + |AllWritten(gs)|
  }

  /** Where a literal between double quotes stops being readable. */
  ghost predicate Halts(s: string, j: nat, bytes: bool) {
    j <= |s| && (j < |s| ==> s[j] == '"' || (s[j] == '\\' && (j + 1 < |s| ==> s[j + 1] !in Escapes(QuoteOf(bytes)))))
  }

  lemma {:induction false} QuotedSplits(s: string, i: nat, bytes: bool) returns (gs: seq<Glyph>, j: nat)
    requires i <= |s|
    ensures WrittenIn(s, i, gs, QuoteOf(bytes), j) && Halts(s, j, bytes)
    decreases |s| - i
  {
    hide Escapes;
    var q := QuoteOf(bytes);
    gs, j := [], i;
    if i < |s| && s[i] != '"' && (s[i] != '\\' || (i + 1 < |s| && s[i + 1] in Escapes(q))) {
      var g := if s[i] == '\\' then Escaped(s[i + 1]) else Plain(s[i]);
      assert Has(s, i, Written(g));
      gs, j := QuotedSplits(s, i + |Written(g)|, bytes);
      HasBoth(s, i, Written(g), AllWritten(gs));
      ConsGlyph(g, gs, q);
      gs := [g] + gs;
    }
  }

  /** Behind an opening quote stand characters as far as they can be read, and then the closing
      quote, an unknown escape, or the end of the source. */
  lemma QuotedHalts(s: string, i: nat, start: nat, bytes: bool, gs: seq<Glyph>, j: nat)
    requires WrittenIn(s, i, gs, QuoteOf(bytes), j) && Halts(s, j, bytes)
    ensures ScanQuoted(s, i, start, bytes)
         == if j < |s| && s[j] == '"' then Found(AllMeant(gs, QuoteOf(bytes)), j + 1)
            else if j + 1 < |s| then Lost(LexError(UnknownEscape, j, j + 2))
            else Lost(LexError(Unterminated, start, |s|))
  {
    QuotedReads(s, i, start, bytes, gs);
    hide Escapes, AllWritten, AllMeant, Unescape;
    var v := AllMeant(gs, QuoteOf(bytes));
    if j < |s| && s[j] == '\\' && j + 1 < |s| { UnescapeIs(s[j + 1], bytes); }
    assert v + "" == v;
  }

  /** Scanning a literal between double quotes succeeds exactly on what is written in its
      characters and closed. */
  lemma QuotedScansExactly(s: string, i: nat, start: nat, bytes: bool, v: string, e: nat)
    requires i <= |s|
    ensures ScanQuoted(s, i, start, bytes) == Found(v, e)
            <==> exists gs :: AllWritable(gs, QuoteOf(bytes)) && AllMeant(gs, QuoteOf(bytes)) == v
                              && e == i + |AllWritten(gs)| + 1 && Has(s, i, AllWritten(gs) + "\"")
  {
    hide ScanQuoted, AllWritable, AllMeant, AllWritten, Escapes;
    var q := QuoteOf(bytes);
    var gs, j := QuotedSplits(s, i, bytes);
    QuotedHalts(s, i, start, bytes, gs, j);
    HasLast(s, i, AllWritten(gs), '"');
    if hs :| AllWritable(hs, q) && AllMeant(hs, q) == v && e == i + |AllWritten(hs)| + 1
             && Has(s, i, AllWritten(hs) + "\"") {
      HasLast(s, i, AllWritten(hs), '"');
      QuotedHalts(s, i, start, bytes, hs, e - 1);
    }
  }
}
