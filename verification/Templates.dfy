/** The grammar of templates: literals and interpolations in turn. A template scans to exactly the
    fragments it was written from, each with its place in the source. */
module Templates {
  import opened Ast
  import opened Scanner
  import opened Literals

  // ---------------------------------------------------------------- interpolations

  /** The source of an interpolation: characters, pairs with a backslash, and matching braces. */
  datatype Atom = Char(c: char) | Pair(c: char) | Braced(inner: seq<Atom>)

  predicate IsAtom(a: Atom)
    decreases a, 0
  {
    match a
    case Char(c) => c != '\\' && c != '{' && c != '}'
    case Pair(_) => true
    case Braced(inner) => AreAtoms(inner)
  }

  predicate AreAtoms(atoms: seq<Atom>)
    decreases atoms, 0
  {
    atoms == [] || (IsAtom(atoms[0]) && AreAtoms(atoms[1..]))
  }

  function AtomText(a: Atom): string
    decreases a, 0
  {
    match a
    case Char(c) => [c]
    case Pair(c) => "\\" + [c]
    case Braced(inner) => "{" + (AtomsText(inner) + "}")
  }

  function AtomsText(atoms: seq<Atom>): string
    decreases atoms, 0
  {
    if atoms == [] then "" else AtomText(atoms[0]) + AtomsText(atoms[1..])
  }

  function Max(a: nat, b: nat): nat { if a < b then b else a }

  /** How deep braces nest. */
  function AtomHeight(a: Atom): nat
    decreases a, 0
  {
    if a.Braced? then 1 + Height(a.inner) else 0
  }

  function Height(atoms: seq<Atom>): nat
    decreases atoms, 0
  {
    if atoms == [] then 0 else Max(AtomHeight(atoms[0]), Height(atoms[1..]))
  }

  lemma ConsAtom(a: Atom, atoms: seq<Atom>)
    ensures AreAtoms([a] + atoms) <==> IsAtom(a) && AreAtoms(atoms)
    ensures AtomsText([a] + atoms) == AtomText(a) + AtomsText(atoms)
    ensures Height([a] + atoms) == Max(AtomHeight(a), Height(atoms))
  {
    assert ([a] + atoms)[1..] == atoms;
  }

  lemma {:induction false} AtomsPass(s: string, i: nat, depth: nat, brace: nat, atoms: seq<Atom>)
    requires AreAtoms(atoms) && 1 <= depth && depth + Height(atoms) <= 64 && Has(s, i, AtomsText(atoms))
    ensures InterpolationEnd(s, i, depth, brace) == InterpolationEnd(s, i + |AtomsText(atoms)|, depth, brace)
    decreases atoms, 1
  {
    hide InterpolationEnd;
    if atoms != [] {
      var a, rest := atoms[0], atoms[1..];
      HasBoth(s, i, AtomText(a), AtomsText(rest));
      AtomPasses(s, i, depth, brace, a);
      AtomsPass(s, i + |AtomText(a)|, depth, brace, rest);
    }
  }

  lemma {:induction false} AtomPasses(s: string, i: nat, depth: nat, brace: nat, a: Atom)
    requires IsAtom(a) && 1 <= depth && depth + AtomHeight(a) <= 64 && Has(s, i, AtomText(a))
    ensures InterpolationEnd(s, i, depth, brace) == InterpolationEnd(s, i + |AtomText(a)|, depth, brace)
    decreases a, 0
  {
    match a
    case Char(c) => HasChar(s, i, c);
    case Pair(c) => HasFirst(s, i, '\\', [c]); HasChar(s, i + 1, c);
    case Braced(inner) =>
      hide AtomsText, AreAtoms, Height;
      var j := i + 1 + |AtomsText(inner)|;
      HasFirst(s, i, '{', AtomsText(inner) + "}");
      HasLast(s, i + 1, AtomsText(inner), '}');
      AtomsPass(s, i + 1, depth + 1, brace, inner);
      BracesClose(s, i, j, depth, brace);
  }

  lemma BracesClose(s: string, i: nat, j: nat, depth: nat, brace: nat)
    requires i < j < |s| && s[i] == '{' && s[j] == '}' && 1 <= depth < 64
    requires InterpolationEnd(s, i + 1, depth + 1, brace) == InterpolationEnd(s, j, depth + 1, brace)
    ensures InterpolationEnd(s, i, depth, brace) == InterpolationEnd(s, j + 1, depth, brace)
  {
  }

  /** The atoms read in each of the braces that are open. */
  function LayersText(layers: seq<seq<Atom>>): string
    requires layers != []
    decreases |layers|, 0
  {
    AtomsText(layers[0]) + Closing(layers[1..])
  }

  function Closing(layers: seq<seq<Atom>>): string
    decreases |layers|, 1
  {
    if layers == [] then "" else "}" + LayersText(layers)
  }

  lemma Assoc(a: string, b: string, c: string)
    ensures a + (b + c) == (a + b) + c
  {
  }

  predicate AreLayers(layers: seq<seq<Atom>>, depth: nat) {
    && |layers| == depth
    && (depth > 0 ==> AreAtoms(layers[0]) && Height(layers[0]) + depth <= 64 && AreLayers(layers[1..], depth - 1))
  }

  lemma LayersCons(layer: seq<Atom>, layers: seq<seq<Atom>>)
    requires AreAtoms(layer) && Height(layer) + |layers| + 1 <= 64 && AreLayers(layers, |layers|)
    ensures var all := [layer] + layers;
            AreLayers(all, |all|) && LayersText(all) == AtomsText(layer) + Closing(layers)
  {
    hide AreAtoms, AtomsText, Height, Closing;
    assert ([layer] + layers)[1..] == layers;
  }

  lemma FirstLayer(layers: seq<seq<Atom>>)
    requires layers != [] && AreLayers(layers, |layers|)
    ensures var rest := layers[1..];
            && AreAtoms(layers[0]) && Height(layers[0]) + |layers| <= 64 && AreLayers(rest, |rest|)
            && LayersText(layers) == AtomsText(layers[0]) + Closing(rest)
  {
    hide AreAtoms, AtomsText, Height, Closing;
  }

  lemma LayersShift(layers: seq<seq<Atom>>, a: Atom)
    requires layers != [] && AreLayers(layers, |layers|) && IsAtom(a) && AtomHeight(a) + |layers| <= 64
    ensures var more := [[a] + layers[0]] + layers[1..];
            AreLayers(more, |layers|) && LayersText(more) == AtomText(a) + LayersText(layers)
  {
    hide AreAtoms, AtomsText, Height, AtomText, IsAtom, AtomHeight, AreLayers, LayersText, Closing;
    FirstLayer(layers);
    ConsAtom(a, layers[0]);
    LayersCons([a] + layers[0], layers[1..]);
    Assoc(AtomText(a), AtomsText(layers[0]), Closing(layers[1..]));
  }

  lemma LayersNest(layers: seq<seq<Atom>>)
    requires |layers| >= 2 && AreLayers(layers, |layers|)
    ensures var a, rest := Braced(layers[0]), layers[1..];
            IsAtom(a) && AtomHeight(a) + |rest| <= 64 && AreLayers(rest, |rest|)
            && "{" + LayersText(layers) == AtomText(a) + LayersText(rest)
  {
    hide AreAtoms, AtomsText, Height, AreLayers, LayersText;
    FirstLayer(layers);
    var t, tail := AtomsText(layers[0]), LayersText(layers[1..]);
    Assoc(t, "}", tail);
    Assoc("{", t + "}", tail);
  }

  lemma LayersOpen(layers: seq<seq<Atom>>)
    requires layers != [] && AreLayers(layers, |layers|) && |layers| < 64
    ensures var more := [[]] + layers; AreLayers(more, |more|) && LayersText(more) == "}" + LayersText(layers)
  {
    LayersCons([], layers);
    hide AreLayers, LayersText;
    Assoc("", "}", LayersText(layers));
  }

  lemma {:induction false} LayersRead(s: string, i: nat, depth: nat, brace: nat) returns (layers: seq<seq<Atom>>)
    requires i <= |s| && 1 <= depth <= 64 && InterpolationEnd(s, i, depth, brace).Found?
    ensures AreLayers(layers, depth) && Has(s, i, LayersText(layers))
    ensures i + |LayersText(layers)| == InterpolationEnd(s, i, depth, brace).end
    decreases |s| - i
  {
    hide AreLayers, LayersText, IsAtom, AtomHeight;
    if s[i] == '{' {
      var inner := LayersRead(s, i + 1, depth + 1, brace);
      LayersCount(inner, depth + 1);
      LayersNest(inner);
      var a, rest := Braced(inner[0]), inner[1..];
      LayersShift(rest, a);
      layers := [[a] + rest[0]] + rest[1..];
      HasFirst(s, i, '{', LayersText(inner));
    } else if s[i] == '}' {
      if depth == 1 {
        layers := [[]];
        NoAtoms();
      } else {
        var outer := LayersRead(s, i + 1, depth - 1, brace);
        LayersCount(outer, depth - 1);
        LayersOpen(outer);
        layers := [[]] + outer;
        HasFirst(s, i, '}', LayersText(outer));
      }
    } else {
      var a := if s[i] == '\\' then Pair(s[i + 1]) else Char(s[i]);
      FlatAtom(s, i, a);
      layers := LayersRead(s, i + |AtomText(a)|, depth, brace);
      LayersCount(layers, depth);
      var tail := LayersText(layers);
      LayersShift(layers, a);
      layers := [[a] + layers[0]] + layers[1..];
      HasBoth(s, i, AtomText(a), tail);
    }
  }

  lemma FlatAtom(s: string, i: nat, a: Atom)
    requires i < |s| && s[i] != '{' && s[i] != '}'
    requires if s[i] == '\\' then i + 1 < |s| && a == Pair(s[i + 1]) else a == Char(s[i])
    ensures IsAtom(a) && AtomHeight(a) == 0 && Has(s, i, AtomText(a))
    ensures |AtomText(a)| == if s[i] == '\\' then 2 else 1
  {
  }

  lemma LayersCount(layers: seq<seq<Atom>>, depth: nat)
    requires AreLayers(layers, depth)
    ensures |layers| == depth && AreLayers(layers, |layers|)
  {
  }

  lemma NoAtoms()
    ensures AreLayers([[]], 1) && LayersText([[]]) == ""
  {
  }

  // ---------------------------------------------------------------- templates

  datatype Part = Prose(glyphs: seq<Glyph>) | Hole(atoms: seq<Atom>)

  predicate IsPart(p: Part) {
    match p
    case Prose(glyphs) => glyphs != [] && AllWritable(glyphs, Single)
    case Hole(atoms) => AreAtoms(atoms) && Height(atoms) < 64 && !AllWhitespace(AtomsText(atoms))
  }

  /** No two literals stand side by side. */
  predicate AreParts(parts: seq<Part>) {
    && (forall k :: 0 <= k < |parts| ==> IsPart(parts[k]))
    && forall k :: 0 < k < |parts| ==> parts[k - 1].Hole? || parts[k].Hole?
  }

  function PartText(p: Part): string {
    match p
    case Prose(glyphs) => AllWritten(glyphs)
    case Hole(atoms) => "{" + (AtomsText(atoms) + "}")
  }

  function PartsText(parts: seq<Part>): string {
    if parts == [] then "" else PartText(parts[0]) + PartsText(parts[1..])
  }

  /** The fragment of a part written at `at`. */
  function FragmentOf(p: Part, at: nat): Fragment
    requires IsPart(p)
  {
    match p
    case Prose(glyphs) => Literal(AllMeant(glyphs, Single), at, at + |PartText(p)|)
    case Hole(atoms) => Interpolation(AtomsText(atoms), at + 1, at + |PartText(p)| - 1)
  }

  function FragmentsOf(parts: seq<Part>, at: nat): seq<Fragment>
    requires AreParts(parts)
  {
    if parts == [] then [] else [FragmentOf(parts[0], at)] + FragmentsOf(parts[1..], at + |PartText(parts[0])|)
  }

  // ---------------------------------------------------------------- what is written is read

  lemma {:induction false} RunIs(s: string, i: nat, accepts: char -> bool, e: nat)
    requires i <= e < |s| && !accepts(s[e]) && forall k :: i <= k < e ==> accepts(s[k])
    ensures RunEnd(s, i, accepts) == e
    decreases e - i
  {
    if i < e { RunIs(s, i + 1, accepts, e); }
  }

  lemma HexIs(c: char)
    ensures IsHex(c) <==> DigitValue(c) < 16
  {
  }

  lemma EscapeIs(s: string, i: nat, start: nat)
    requires i < |s| && s[i] != 'u'
    ensures var table := Escapes(Single);
            ScanEscape(s, i, start) == if s[i] in table then Found(table[s[i]], i + 1)
                                       else Lost(LexError(UnknownEscape, if i > 0 then i - 1 else 0, i + 1))
  {
  }

  lemma CodepointIs(s: string, i: nat, start: nat, digits: string)
    requires Writable(Codepoint(digits), Single) && Has(s, i, "\\u{" + digits + "}")
    ensures ScanEscape(s, i + 1, start) == Found(Value(digits, 16) as char, i + 4 + |digits|)
  {
    hide Value, ScanCodepoint, Writable;
    var tail := "{" + (digits + "}");
    assert "\\u{" + digits + "}" == "\\" + ("u" + tail);
    HasFirst(s, i, '\\', "u" + tail);
    HasFirst(s, i + 1, 'u', tail);
    BracedDigits(s, i + 2, start, digits);
  }

  lemma BracedDigits(s: string, i: nat, start: nat, digits: string)
    requires Writable(Codepoint(digits), Single) && Has(s, i, "{" + (digits + "}"))
    ensures ScanCodepoint(s, i, start) == Found(Value(digits, 16) as char, i + 2 + |digits|)
  {
    hide Value, Has, IsHex;
    HasFirst(s, i, '{', digits + "}");
    HasLast(s, i + 1, digits, '}');
    var e := i + 1 + |digits|;
    DigitsRun(s, i + 1, digits);
    HexIs('}');
    RunIs(s, i + 1, c => DigitValue(c) < 16, e);
  }

  lemma DigitsRun(s: string, i: nat, digits: string)
    requires Has(s, i, digits) && forall k :: 0 <= k < |digits| ==> IsHex(digits[k])
    ensures i + |digits| <= |s| && s[i..i + |digits|] == digits
    ensures forall k :: i <= k < i + |digits| ==> DigitValue(s[k]) < 16
  {
    forall k | i <= k < i + |digits| ensures DigitValue(s[k]) < 16 {
      assert s[i..i + |digits|][k - i] == digits[k - i];
      HexIs(s[k]);
    }
  }

  lemma GlyphStep(s: string, i: nat, start: nat, fragments: seq<Fragment>, literal: string, from: nat, g: Glyph)
    requires Writable(g, Single) && Has(s, i, Written(g))
    ensures ScanTemplate(s, i, start, fragments, literal, from)
         == ScanTemplate(s, i + |Written(g)|, start, fragments, literal + [Meant(g, Single)], from)
  {
    hide Value, Escapes, ScanEscape, ScanInterpolation, IsHex;
    match g
    case Plain(c) => HasChar(s, i, c);
    case Escaped(letter) =>
      HasFirst(s, i, '\\', [letter]);
      HasChar(s, i + 1, letter);
      NoEscapedU();
      EscapeIs(s, i + 1, start);
    case Codepoint(digits) =>
      CodepointIs(s, i, start, digits);
      assert s[i..i + |Written(g)|][0] == '\\';
  }

  lemma NoEscapedU()
    ensures 'u' !in Escapes(Single)
  {
  }

  lemma {:induction false} GlyphsRead(s: string, i: nat, start: nat, fragments: seq<Fragment>, literal: string,
                                      from: nat, gs: seq<Glyph>)
    requires AllWritable(gs, Single) && Has(s, i, AllWritten(gs))
    ensures ScanTemplate(s, i, start, fragments, literal, from)
         == ScanTemplate(s, i + |AllWritten(gs)|, start, fragments, literal + AllMeant(gs, Single), from)
    decreases |gs|
  {
    hide Writable, Written, Meant, ScanTemplate;
    if gs == [] {
      assert literal + "" == literal;
    } else {
      var g, rest := gs[0], gs[1..];
      HasBoth(s, i, Written(g), AllWritten(rest));
      GlyphStep(s, i, start, fragments, literal, from, g);
      var more := literal + [Meant(g, Single)];
      GlyphsRead(s, i + |Written(g)|, start, fragments, more, from, rest);
      assert literal + AllMeant(gs, Single) == more + AllMeant(rest, Single);
    }
  }

  lemma HoleIs(s: string, i: nat, atoms: seq<Atom>)
    requires AreAtoms(atoms) && Height(atoms) < 64 && Has(s, i, "{" + (AtomsText(atoms) + "}"))
    ensures var text := AtomsText(atoms);
            && i < |s| && s[i] == '{'
            && ScanInterpolation(s, i) ==
                 if AllWhitespace(text) then Lost(LexError(EmptyInterpolation, i, i + 2 + |text|))
                 else Found(text, i + 2 + |text|)
  {
    hide AreAtoms, Height, AllWhitespace;
    var text := AtomsText(atoms);
    HasFirst(s, i, '{', text + "}");
    HasLast(s, i + 1, text, '}');
    AtomsPass(s, i + 1, 1, i, atoms);
    hide AtomsText;
    assert s[i + 1..i + 1 + |text|] == text;
  }

  lemma HoleStep(s: string, i: nat, start: nat, fragments: seq<Fragment>, literal: string, from: nat, p: Part)
    requires p.Hole? && IsPart(p) && Has(s, i, PartText(p))
    ensures var j := i + |PartText(p)|;
            ScanTemplate(s, i, start, fragments, literal, from)
            == ScanTemplate(s, j, start, AddLiteral(fragments, literal, from, i) + [FragmentOf(p, i)], [], j)
  {
    hide AreAtoms, Height, AllWhitespace, AtomsText, ScanInterpolation;
    HoleIs(s, i, p.atoms);
  }

  lemma TailParts(parts: seq<Part>)
    requires parts != [] && AreParts(parts)
    ensures AreParts(parts[1..]) && IsPart(parts[0])
    ensures parts[0].Prose? && |parts| > 1 ==> parts[1].Hole?
  {
  }

  /** A template's parts, up to the closing quote. */
  lemma {:induction false} PartsRead(s: string, i: nat, start: nat, done: seq<Fragment>, parts: seq<Part>)
    requires AreParts(parts) && Has(s, i, PartsText(parts) + "'")
    ensures ScanTemplate(s, i, start, done, [], i)
         == Found(done + FragmentsOf(parts, i), i + |PartsText(parts)| + 1)
    decreases |parts|
  {
    hide IsPart, PartText, FragmentOf;
    if parts == [] {
      HasChar(s, i, '\'');
      assert PartsText(parts) + "'" == "'" && done + [] == done;
    } else {
      hide ScanTemplate;
      TailParts(parts);
      PartStep(s, i, start, done, parts);
      var p, rest := parts[0], parts[1..];
      var j := i + |PartText(p)|;
      PartsRead(s, j, start, done + [FragmentOf(p, i)], rest);
      assert done + [FragmentOf(p, i)] + FragmentsOf(rest, j) == done + ([FragmentOf(p, i)] + FragmentsOf(rest, j));
    }
  }

  lemma PartStep(s: string, i: nat, start: nat, done: seq<Fragment>, parts: seq<Part>)
    requires parts != [] && AreParts(parts) && Has(s, i, PartsText(parts) + "'")
    ensures IsPart(parts[0]) && Has(s, i + |PartText(parts[0])|, PartsText(parts[1..]) + "'")
    ensures var j := i + |PartText(parts[0])|;
            ScanTemplate(s, i, start, done, [], i)
            == ScanTemplate(s, j, start, done + [FragmentOf(parts[0], i)], [], j)
  {
    hide IsPart, PartText, FragmentOf, ScanTemplate;
    TailParts(parts);
    var p, rest := parts[0], parts[1..];
    FirstPart(s, i, parts);
    if p.Hole? {
      HoleStep(s, i, start, done, [], i, p);
    } else {
      TextRead(s, i, start, done, p);
      BehindText(s, i, i + |PartText(p)|, start, done, p, rest);
    }
  }

  lemma TextRead(s: string, i: nat, start: nat, done: seq<Fragment>, p: Part)
    requires p.Prose? && IsPart(p) && Has(s, i, PartText(p))
    ensures var j, literal := i + |PartText(p)|, AllMeant(p.glyphs, Single);
            && ScanTemplate(s, i, start, done, [], i) == ScanTemplate(s, j, start, done, literal, i)
            && AddLiteral(done, literal, i, j) == done + [FragmentOf(p, i)]
  {
    hide ScanTemplate, AllWritable, AllMeant;
    GlyphsRead(s, i, start, done, [], i, p.glyphs);
    assert [] + AllMeant(p.glyphs, Single) == AllMeant(p.glyphs, Single);
  }

  /** Behind a literal, an interpolation or the closing quote adds the literal to the fragments. */
  lemma BehindText(s: string, i: nat, j: nat, start: nat, done: seq<Fragment>, p: Part, rest: seq<Part>)
    requires p.Prose? && IsPart(p) && AreParts(rest) && (rest != [] ==> rest[0].Hole?)
    requires j == i + |PartText(p)| && Has(s, j, PartsText(rest) + "'")
    requires AddLiteral(done, AllMeant(p.glyphs, Single), i, j) == done + [FragmentOf(p, i)]
    ensures ScanTemplate(s, j, start, done, AllMeant(p.glyphs, Single), i)
         == ScanTemplate(s, j, start, done + [FragmentOf(p, i)], [], j)
  {
    var literal, more := AllMeant(p.glyphs, Single), done + [FragmentOf(p, i)];
    hide IsPart, PartText, FragmentOf, AllMeant, ScanTemplate, Has, AddLiteral;
    if rest == [] {
      assert PartsText(rest) + "'" == ['\''];
      HasChar(s, j, '\'');
      LiteralEnds(s, j, start, done, literal, i, more);
    } else {
      TailParts(rest);
      FirstPart(s, j, rest);
      HoleBehind(s, j, start, done, literal, i, more, rest[0]);
    }
  }

  lemma FirstPart(s: string, i: nat, parts: seq<Part>)
    requires parts != [] && AreParts(parts) && Has(s, i, PartsText(parts) + "'")
    ensures Has(s, i, PartText(parts[0])) && Has(s, i + |PartText(parts[0])|, PartsText(parts[1..]) + "'")
  {
    hide AreParts, PartText, Has;
    var p, rest := parts[0], parts[1..];
    HasBoth(s, i, PartText(p), PartsText(rest) + "'");
    assert PartText(p) + (PartsText(rest) + "'") == PartsText(parts) + "'";
  }

  lemma HoleBehind(s: string, j: nat, start: nat, done: seq<Fragment>, literal: string, from: nat,
                   more: seq<Fragment>, q: Part)
    requires q.Hole? && IsPart(q) && Has(s, j, PartText(q)) && AddLiteral(done, literal, from, j) == more
    ensures ScanTemplate(s, j, start, done, literal, from) == ScanTemplate(s, j, start, more, [], j)
  {
    hide IsPart, PartText, FragmentOf, ScanTemplate, Has, AddLiteral;
    HoleStep(s, j, start, done, literal, from, q);
    HoleStep(s, j, start, more, [], j, q);
    NoLiteral(more, j);
  }

  lemma NoLiteral(done: seq<Fragment>, at: nat)
    ensures AddLiteral(done, [], at, at) == done
  {
  }

  lemma LiteralEnds(s: string, j: nat, start: nat, done: seq<Fragment>, literal: string, from: nat, more: seq<Fragment>)
    requires j < |s| && s[j] == '\'' && AddLiteral(done, literal, from, j) == more
    ensures ScanTemplate(s, j, start, done, literal, from) == ScanTemplate(s, j, start, more, [], j)
  {
  }

  // ---------------------------------------------------------------- what is read is written

  lemma EscapeDerives(s: string, i: nat, start: nat) returns (g: Glyph)
    requires i < |s| && s[i] == '\\' && ScanEscape(s, i + 1, start).Found?
    ensures var c := ScanEscape(s, i + 1, start);
            && Writable(g, Single) && Has(s, i, Written(g)) && i + |Written(g)| == c.end && Meant(g, Single) == c.value
  {
    hide Value, ScanCodepoint, IsHex;
    if s[i + 1] == 'u' {
      g := CodepointDerives(s, i, start);
    } else {
      EscapeIs(s, i + 1, start);
      g := Escaped(s[i + 1]);
    }
  }

  lemma CodepointDerives(s: string, i: nat, start: nat) returns (g: Glyph)
    requires i + 1 < |s| && s[i] == '\\' && s[i + 1] == 'u' && ScanCodepoint(s, i + 2, start).Found?
    ensures var c := ScanCodepoint(s, i + 2, start);
            && Writable(g, Single) && Has(s, i, Written(g)) && i + |Written(g)| == c.end && Meant(g, Single) == c.value
  {
    hide Value;
    var e := RunEnd(s, i + 3, c => DigitValue(c) < 16);
    var digits := s[i + 3..e];
    forall k | 0 <= k < |digits| ensures IsHex(digits[k]) {
      assert digits[k] == s[i + 3 + k];
      HexIs(digits[k]);
    }
    g := Codepoint(digits);
    assert s[i..e + 1] == "\\u{" + digits + "}";
  }

  lemma InterpolationDerives(s: string, brace: nat) returns (p: Part)
    requires brace < |s| && s[brace] == '{' && ScanInterpolation(s, brace).Found?
    ensures var x := ScanInterpolation(s, brace);
            && p.Hole? && IsPart(p) && Has(s, brace, PartText(p)) && brace + |PartText(p)| == x.end
            && FragmentOf(p, brace) == Interpolation(x.value, brace + 1, x.end - 1)
  {
    var layers := LayersRead(s, brace + 1, 1, brace);
    var atoms := layers[0];
    var x := ScanInterpolation(s, brace);
    assert LayersText(layers) == AtomsText(atoms);
    hide AreAtoms, Height, AtomsText, LayersText, InterpolationEnd, AllWhitespace;
    p := Hole(atoms);
    var text := AtomsText(atoms);
    assert s[brace + 1..x.end - 1] == text;
    HasLast(s, brace + 1, text, '}');
    HasFirst(s, brace, '{', text + "}");
  }

  function WithText(gs: seq<Glyph>, parts: seq<Part>): seq<Part> {
    if gs == [] then parts else [Prose(gs)] + parts
  }

  /** The rest of a template: characters that continue the literal, and then parts that start with
      an interpolation. */
  ghost predicate Continues(s: string, i: nat, fragments: seq<Fragment>, literal: string, from: nat,
                            gs: seq<Glyph>, parts: seq<Part>, r: Scanned<seq<Fragment>>)
    requires r.Found?
  {
    var j := i + |AllWritten(gs)|;
    && AllWritable(gs, Single) && AreParts(parts) && (parts != [] ==> parts[0].Hole?)
    && Has(s, i, AllWritten(gs)) && Has(s, j, PartsText(parts) + "'") && r.end == j + |PartsText(parts)| + 1
    && r.value == AddLiteral(fragments, literal + AllMeant(gs, Single), from, j) + FragmentsOf(parts, j)
  }

  lemma {:induction false} TemplateDerives(s: string, i: nat, start: nat, fragments: seq<Fragment>, literal: string,
                                           from: nat)
    returns (gs: seq<Glyph>, parts: seq<Part>)
    requires i <= |s| && ScanTemplate(s, i, start, fragments, literal, from).Found?
    ensures Continues(s, i, fragments, literal, from, gs, parts,
                      ScanTemplate(s, i, start, fragments, literal, from))
    decreases |s| - i
  {
    hide Continues, ScanEscape, ScanInterpolation, Writable, Written, Meant, IsPart, PartText, FragmentOf;
    var r := ScanTemplate(s, i, start, fragments, literal, from);
    if s[i] == '\'' {
      gs, parts := [], [];
      ContinuesWithNothing(s, i, fragments, literal, from, r);
    } else if s[i] == '{' {
      var p := InterpolationDerives(s, i);
      var j := i + |PartText(p)|;
      var done := AddLiteral(fragments, literal, from, i) + [FragmentOf(p, i)];
      var hs, rest := TemplateDerives(s, j, start, done, [], j);
      ContinuesWithHole(s, i, fragments, literal, from, p, hs, rest, r);
      gs, parts := [], [p] + WithText(hs, rest);
    } else {
      var g;
      if s[i] == '\\' {
        g := EscapeDerives(s, i, start);
      } else {
        g := Plain(s[i]);
        PlainIs(s, i);
      }
      var hs;
      hs, parts := TemplateDerives(s, i + |Written(g)|, start, fragments, literal + [Meant(g, Single)], from);
      ContinuesWithGlyph(s, i, fragments, literal, from, g, hs, parts, r);
      gs := [g] + hs;
    }
  }

  lemma PlainIs(s: string, i: nat)
    requires i < |s| && s[i] != '\\' && s[i] != '\'' && s[i] != '{'
    ensures var g := Plain(s[i]); Writable(g, Single) && Has(s, i, Written(g)) && |Written(g)| == 1
    ensures Meant(Plain(s[i]), Single) == s[i]
  {
  }

  lemma ContinuesWithNothing(s: string, i: nat, fragments: seq<Fragment>, literal: string, from: nat,
                             r: Scanned<seq<Fragment>>)
    requires i < |s| && s[i] == '\'' && r == Found(AddLiteral(fragments, literal, from, i), i + 1)
    ensures Continues(s, i, fragments, literal, from, [], [], r)
  {
    assert literal + [] == literal && r.value + [] == r.value;
  }

  lemma ContinuesWithGlyph(s: string, i: nat, fragments: seq<Fragment>, literal: string, from: nat,
                           g: Glyph, gs: seq<Glyph>, parts: seq<Part>, r: Scanned<seq<Fragment>>)
    requires r.Found? && Writable(g, Single) && Has(s, i, Written(g))
    requires Continues(s, i + |Written(g)|, fragments, literal + [Meant(g, Single)], from, gs, parts, r)
    ensures Continues(s, i, fragments, literal, from, [g] + gs, parts, r)
  {
    hide Writable, Written, Meant, IsPart, AllMeant, AllWritten, PartsText, FragmentsOf, AddLiteral;
    ConsGlyph(g, gs, Single);
    HasBoth(s, i, Written(g), AllWritten(gs));
    assert literal + [Meant(g, Single)] + AllMeant(gs, Single) == literal + ([Meant(g, Single)] + AllMeant(gs, Single));
  }

  lemma ConsPart(p: Part, parts: seq<Part>, at: nat)
    requires IsPart(p) && AreParts(parts) && (p.Hole? || parts == [] || parts[0].Hole?)
    ensures AreParts([p] + parts) && PartsText([p] + parts) == PartText(p) + PartsText(parts)
    ensures FragmentsOf([p] + parts, at) == [FragmentOf(p, at)] + FragmentsOf(parts, at + |PartText(p)|)
  {
    hide IsPart, PartText, FragmentOf;
    var all := [p] + parts;
    ConsAreParts(p, parts);
    hide AreParts;
    assert all[1..] == parts;
  }

  lemma ConsAreParts(p: Part, parts: seq<Part>)
    requires IsPart(p) && AreParts(parts) && (p.Hole? || parts == [] || parts[0].Hole?)
    ensures AreParts([p] + parts)
  {
    hide IsPart;
    var all := [p] + parts;
    assert forall k :: 0 < k < |all| ==> all[k] == parts[k - 1];
  }

  lemma WithTextIs(gs: seq<Glyph>, parts: seq<Part>, at: nat)
    requires AllWritable(gs, Single) && AreParts(parts) && (parts != [] ==> parts[0].Hole?)
    ensures var all, j := WithText(gs, parts), at + |AllWritten(gs)|;
            && AreParts(all) && PartsText(all) == AllWritten(gs) + PartsText(parts)
            && FragmentsOf(all, at) == AddLiteral([], AllMeant(gs, Single), at, j) + FragmentsOf(parts, j)
  {
    if gs == [] {
      assert AllWritten(gs) + PartsText(parts) == PartsText(parts);
    } else {
      var p := Prose(gs);
      assert IsPart(p) && PartText(p) == AllWritten(gs);
      hide IsPart, PartsText, FragmentsOf, AllMeant, AllWritable, AllWritten, AreParts;
      ConsPart(p, parts, at);
    }
  }

  lemma LiteralsAppend(fragments: seq<Fragment>, literal: string, from: nat, at: nat)
    ensures AddLiteral(fragments, literal, from, at) == fragments + AddLiteral([], literal, from, at)
  {
  }

  lemma ContinuesWithHole(s: string, i: nat, fragments: seq<Fragment>, literal: string, from: nat, p: Part,
                          gs: seq<Glyph>, parts: seq<Part>, r: Scanned<seq<Fragment>>)
    requires r.Found? && p.Hole? && IsPart(p) && Has(s, i, PartText(p))
    requires var j := i + |PartText(p)|;
             Continues(s, j, AddLiteral(fragments, literal, from, i) + [FragmentOf(p, i)], [], j, gs, parts, r)
    ensures Continues(s, i, fragments, literal, from, [], [p] + WithText(gs, parts), r)
  {
    hide IsPart, AllMeant, AllWritten, PartsText, FragmentsOf, AddLiteral, PartText, FragmentOf, AllWritable, WithText;
    var j := i + |PartText(p)|;
    var k := j + |AllWritten(gs)|;
    var all := WithText(gs, parts);
    WithTextIs(gs, parts, j);
    ConsPart(p, all, i);
    assert [] + AllMeant(gs, Single) == AllMeant(gs, Single);
    LiteralsAppend(AddLiteral(fragments, literal, from, i) + [FragmentOf(p, i)], AllMeant(gs, Single), j, k);
    NoGlyphs(literal);
    TextsJoin(s, i, PartText(p), AllWritten(gs), PartsText(parts));
    assert r.value == AddLiteral(fragments, literal, from, i) + ([FragmentOf(p, i)] + FragmentsOf(all, j));
  }

  lemma NoGlyphs(literal: string)
    ensures AllWritable([], Single) && AllWritten([]) == "" && literal + AllMeant([], Single) == literal
  {
  }

  lemma TextsJoin(s: string, i: nat, a: string, b: string, c: string)
    requires Has(s, i, a) && Has(s, i + |a|, b) && Has(s, i + |a| + |b|, c + "'")
    ensures Has(s, i, a + (b + c) + "'") && Has(s, i, "")
  {
    HasBoth(s, i + |a|, b, c + "'");
    HasBoth(s, i, a, b + (c + "'"));
    assert a + (b + (c + "'")) == a + (b + c) + "'";
  }

  // ---------------------------------------------------------------- exactly the written templates

  /** What a template written in these parts is: fragments, or a plain string if it has no
      interpolation. */
  function MeaningOf(parts: seq<Part>, at: nat): TokenKind
    requires AreParts(parts)
  {
    if exists k :: 0 <= k < |parts| && parts[k].Hole? then Template(FragmentsOf(parts, at))
    else if parts == [] then Text("")
    else Text(AllMeant(parts[0].glyphs, Single))
  }

  lemma {:induction false} FragmentAt(parts: seq<Part>, at: nat)
    requires AreParts(parts)
    ensures |FragmentsOf(parts, at)| == |parts|
    ensures forall k :: 0 <= k < |parts| ==> (FragmentsOf(parts, at)[k].Interpolation? <==> parts[k].Hole?)
    decreases |parts|
  {
    hide IsPart, PartText;
    if parts != [] {
      TailParts(parts);
      FragmentAt(parts[1..], at + |PartText(parts[0])|);
    }
  }

  lemma TokenIs(parts: seq<Part>, at: nat)
    requires AreParts(parts)
    ensures TemplateToken(FragmentsOf(parts, at)) == MeaningOf(parts, at)
  {
    hide IsPart, PartText, AllMeant;
    FragmentAt(parts, at);
    var fragments := FragmentsOf(parts, at);
    if exists k :: 0 <= k < |parts| && parts[k].Hole? {
      var k :| 0 <= k < |parts| && parts[k].Hole?;
      assert fragments[k].Interpolation?;
    } else if parts != [] {
      TailParts(parts);
      assert |parts| == 1;
      var v := AllMeant(parts[0].glyphs, Single);
      assert fragments[0].value == v && fragments[1..] == [] && v + [] == v;
    }
  }

  /** Scanning a template succeeds exactly on a single quote, parts and a single quote, and gives
      what they mean, each in its place. */
  lemma TemplatesScanExactly(s: string, pos: nat, kind: TokenKind, e: nat)
    requires pos < |s| && s[pos] == '\''
    ensures Scan(s, pos) == Found(kind, e)
            <==> exists parts :: AreParts(parts) && Has(s, pos + 1, PartsText(parts) + "'")
                                 && e == pos + 1 + |PartsText(parts)| + 1 && kind == MeaningOf(parts, pos + 1)
  {
    hide AreParts, PartsText, MeaningOf, TemplateToken, FragmentsOf;
    TemplateScan(s, pos);
    var t := ScanTemplate(s, pos + 1, pos, [], [], pos + 1);
    if t.Found? {
      var parts := WholeTemplate(s, pos);
      TokenIs(parts, pos + 1);
    }
    if parts :| AreParts(parts) && Has(s, pos + 1, PartsText(parts) + "'")
                && e == pos + 1 + |PartsText(parts)| + 1 && kind == MeaningOf(parts, pos + 1) {
      PartsRead(s, pos + 1, pos, [], parts);
      assert [] + FragmentsOf(parts, pos + 1) == FragmentsOf(parts, pos + 1);
      TokenIs(parts, pos + 1);
    }
  }

  lemma TemplateScan(s: string, pos: nat)
    requires pos < |s| && s[pos] == '\''
    ensures var t := ScanTemplate(s, pos + 1, pos, [], [], pos + 1);
            Scan(s, pos) == if t.Lost? then Lost(t.error) else Found(TemplateToken(t.value), t.end)
  {
    hide ScanTemplate;
  }

  lemma WholeTemplate(s: string, pos: nat) returns (parts: seq<Part>)
    requires pos < |s| && s[pos] == '\'' && ScanTemplate(s, pos + 1, pos, [], [], pos + 1).Found?
    ensures var t := ScanTemplate(s, pos + 1, pos, [], [], pos + 1);
            && AreParts(parts) && Has(s, pos + 1, PartsText(parts) + "'")
            && t == Found(FragmentsOf(parts, pos + 1), pos + 1 + |PartsText(parts)| + 1)
  {
    hide ScanTemplate, IsPart, AllMeant, AllWritten, PartsText, FragmentsOf, AllWritable, WithText, AreParts, Has;
    var gs, rest := TemplateDerives(s, pos + 1, pos, [], [], pos + 1);
    parts := WithText(gs, rest);
    WithTextIs(gs, rest, pos + 1);
    assert [] + AllMeant(gs, Single) == AllMeant(gs, Single);
    NoGlyphs("");
    HasBoth(s, pos + 1, AllWritten(gs), PartsText(rest) + "'");
    assert AllWritten(gs) + (PartsText(rest) + "'") == PartsText(parts) + "'";
  }

  // ---------------------------------------------------------------- what is wrong with the others

  /** Braces that stay open, each with what stands in it so far. */
  function OpensText(layers: seq<seq<Atom>>): string
    requires layers != []
    decreases |layers|, 0
  {
    AtomsText(layers[0]) + Opening(layers[1..])
  }

  function Opening(layers: seq<seq<Atom>>): string
    decreases |layers|, 1
  {
    if layers == [] then "" else "{" + OpensText(layers)
  }

  predicate AreOpen(layers: seq<seq<Atom>>, depth: nat) {
    layers == [] || (AreAtoms(layers[0]) && depth + Height(layers[0]) <= 64 && AreOpen(layers[1..], depth + 1))
  }

  lemma {:induction false} OpensPass(s: string, i: nat, depth: nat, brace: nat, layers: seq<seq<Atom>>)
    requires layers != [] && 1 <= depth && depth + |layers| <= 65 && AreOpen(layers, depth)
    requires Has(s, i, OpensText(layers))
    ensures InterpolationEnd(s, i, depth, brace)
         == InterpolationEnd(s, i + |OpensText(layers)|, depth + |layers| - 1, brace)
    decreases |layers|
  {
    hide AtomsText, AreAtoms, Height, InterpolationEnd, Has, OpensText;
    var text, rest := AtomsText(layers[0]), layers[1..];
    OpensAre(layers);
    HasBoth(s, i, text, Opening(rest));
    AtomsPass(s, i, depth, brace, layers[0]);
    if rest != [] {
      HasFirst(s, i + |text|, '{', OpensText(rest));
      BraceOpens(s, i + |text|, depth, brace);
      OpensPass(s, i + |text| + 1, depth + 1, brace, rest);
    }
  }

  lemma OpensAre(layers: seq<seq<Atom>>)
    requires layers != []
    ensures OpensText(layers) == AtomsText(layers[0]) + Opening(layers[1..])
  {
  }

  lemma BraceOpens(s: string, i: nat, depth: nat, brace: nat)
    requires i < |s| && s[i] == '{' && depth < 64
    ensures InterpolationEnd(s, i, depth, brace) == InterpolationEnd(s, i + 1, depth + 1, brace)
  {
  }

  /** An interpolation that the source ends in is not terminated, and the sixty-fifth open brace is
      one too many; both are reported at the brace that opened it. */
  lemma InterpolationFails(s: string, brace: nat, layers: seq<seq<Atom>>)
    requires brace < |s| && s[brace] == '{' && 1 <= |layers| <= 64 && AreOpen(layers, 1)
    requires Has(s, brace + 1, OpensText(layers))
    ensures var j, r := brace + 1 + |OpensText(layers)|, ScanInterpolation(s, brace);
            && (s[j..] in {"", "\\"} ==> r == Lost(LexError(Unterminated, brace, |s|)))
            && (|layers| == 64 && j < |s| && s[j] == '{' ==> r == Lost(LexError(TooDeep, brace, j)))
  {
    OpensPass(s, brace + 1, 1, brace, layers);
    hide OpensText, AreOpen;
    var j := brace + 1 + |OpensText(layers)|;
    if s[j..] == "\\" { assert s[j] == s[j..][0]; }
  }

  /** What is wrong with an escape. */
  function EscapeFault(s: string, i: nat, start: nat): Option<LexError>
    requires i < |s| && s[i] == '\\'
  {
    if i + 1 == |s| then Some(LexError(Unterminated, start, |s|))
    else if s[i + 1] == 'u' then
      if i + 2 == |s| then Some(LexError(Unterminated, start, |s|))
      else if s[i + 2] != '{' then Some(LexError(BadCodepoint, i + 1, i + 3))
      else CodepointFault(s, i + 3, RunEnd(s, i + 3, IsHex))
    else if s[i + 1] !in Escapes(Single) then Some(LexError(UnknownEscape, i, i + 2))
    else None
  }

  /** What is wrong with a code point whose digits end at `e`. */
  function CodepointFault(s: string, i: nat, e: nat): Option<LexError>
    requires i <= e <= |s|
  {
    if e == |s| then Some(LexError(Unterminated, i, e))
    else if s[e] == '}' && 1 <= e - i <= 6 && Writable(Codepoint(s[i..e]), Single) then None
    else Some(LexError(BadCodepoint, i, e + 1))
  }

  lemma {:induction false} RunsAgree(s: string, i: nat, f: char -> bool, g: char -> bool)
    requires i <= |s| && forall c :: f(c) == g(c)
    ensures RunEnd(s, i, f) == RunEnd(s, i, g)
    decreases |s| - i
  {
    if i < |s| { RunsAgree(s, i + 1, f, g); }
  }

  lemma CodepointFails(s: string, i: nat, start: nat)
    requires i < |s| && s[i] == '{'
    ensures var r := ScanCodepoint(s, i, start);
            var fault := CodepointFault(s, i + 1, RunEnd(s, i + 1, IsHex));
            r.Lost? == fault.Some? && (r.Lost? ==> fault == Some(r.error))
  {
    hide Value;
    forall c ensures IsHex(c) == (DigitValue(c) < 16) { HexIs(c); }
    RunsAgree(s, i + 1, IsHex, c => DigitValue(c) < 16);
    var e := RunEnd(s, i + 1, IsHex);
    var digits := s[i + 1..e];
    forall k | 0 <= k < |digits| ensures IsHex(digits[k]) { assert digits[k] == s[i + 1 + k]; }
  }

  lemma EscapeFails(s: string, i: nat, start: nat)
    requires i < |s| && s[i] == '\\'
    ensures var r, fault := ScanEscape(s, i + 1, start), EscapeFault(s, i, start);
            r.Lost? == fault.Some? && (r.Lost? ==> fault == Some(r.error))
  {
    hide CodepointFault, Escapes;
    if i + 2 < |s| && s[i + 1] == 'u' && s[i + 2] == '{' {
      CodepointFails(s, i + 2, start);
    } else if i + 1 < |s| && s[i + 1] != 'u' {
      EscapeIs(s, i + 1, start);
    }
  }

  /** What is wrong with a template at a character of it. */
  function Fault(s: string, i: nat, start: nat): Option<LexError>
    requires i <= |s|
  {
    if i == |s| then Some(LexError(Unterminated, start, |s|))
    else if s[i] == '\\' then EscapeFault(s, i, start)
    else if s[i] == '{' && ScanInterpolation(s, i).Lost? then Some(ScanInterpolation(s, i).error)
    else None
  }

  /** A template that does not scan is refused for what is wrong with it at some character. */
  lemma {:induction false} TemplateFailsRightly(s: string, i: nat, start: nat, fragments: seq<Fragment>,
                                                literal: string, from: nat)
    returns (j: nat)
    requires i <= |s| && ScanTemplate(s, i, start, fragments, literal, from).Lost?
    ensures i <= j <= |s| && Fault(s, j, start) == Some(ScanTemplate(s, i, start, fragments, literal, from).error)
    decreases |s| - i
  {
    hide EscapeFault, ScanEscape, ScanInterpolation;
    j := i;
    if i < |s| {
      if s[i] == '\\' {
        EscapeFails(s, i, start);
        var c := ScanEscape(s, i + 1, start);
        if c.Found? { j := TemplateFailsRightly(s, c.end, start, fragments, literal + [c.value], from); }
      } else if s[i] == '{' {
        var x := ScanInterpolation(s, i);
        if x.Found? {
          var inner := Interpolation(x.value, i + 1, x.end - 1);
          j := TemplateFailsRightly(s, x.end, start, AddLiteral(fragments, literal, from, i) + [inner], [], x.end);
        }
      } else {
        j := TemplateFailsRightly(s, i + 1, start, fragments, literal + [s[i]], from);
      }
    }
  }
}
