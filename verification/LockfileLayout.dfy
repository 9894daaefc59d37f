/** What a lockfile may look like when it was not printed: white space around lines, keys and
    values, other line ends, missing or doubled quotes, other keys and other lines. */
module LockfileLayout {
  import opened Ast
  import opened Lockfile
  import Scanner

  predicate Blank(s: string) { forall k :: 0 <= k < |s| ==> Scanner.IsWhitespace(s[k]) }

  predicate AllQuotes(s: string) { forall k :: 0 <= k < |s| ==> s[k] == '"' }

  /** No white space at either end. */
  predicate Tight(s: string) {
    s != "" ==> !Scanner.IsWhitespace(s[0]) && !Scanner.IsWhitespace(s[|s| - 1])
  }

  lemma {:induction false} TrimsStart(a: string, s: string)
    requires Blank(a) && (s != "" ==> !Scanner.IsWhitespace(s[0]))
    ensures TrimStart(a + s) == s
    decreases |a|
  {
    if a == "" {
      assert a + s == s;
    } else {
      assert (a + s)[1..] == a[1..] + s && (a + s)[0] == a[0];
      TrimsStart(a[1..], s);
    }
  }

  lemma {:induction false} TrimsEnd(s: string, b: string)
    requires Blank(b) && (s != "" ==> !Scanner.IsWhitespace(s[|s| - 1]))
    ensures TrimEnd(s + b) == s
    decreases |b|
  {
    if b == "" {
      assert s + b == s;
    } else {
      var n := |b| - 1;
      assert (s + b)[..|s + b| - 1] == s + b[..n] && (s + b)[|s + b| - 1] == b[n];
      TrimsEnd(s, b[..n]);
    }
  }

  /** Trimming takes off all white space at both ends. */
  lemma TrimsBoth(a: string, s: string, b: string)
    requires Blank(a) && Tight(s) && Blank(b)
    ensures Trim(a + s + b) == s
  {
    if s == "" {
      assert a + s + b == (a + b) + "";
      TrimsStart(a + b, "");
    } else {
      assert a + s + b == a + (s + b) && (s + b)[0] == s[0];
      TrimsStart(a, s + b);
      TrimsEnd(s, b);
    }
  }

  lemma {:induction false} DropsQuotes(a: string, s: string)
    requires AllQuotes(a) && (s != "" ==> s[0] != '"')
    ensures DropQuotes(a + s) == s
    decreases |a|
  {
    if a == "" {
      assert a + s == s;
    } else {
      assert (a + s)[1..] == a[1..] + s && (a + s)[0] == a[0];
      DropsQuotes(a[1..], s);
    }
  }

  lemma {:induction false} DropsEndQuotes(s: string, b: string)
    requires AllQuotes(b) && (s != "" ==> s[|s| - 1] != '"')
    ensures DropEndQuotes(s + b) == s
    decreases |b|
  {
    if b == "" {
      assert s + b == s;
    } else {
      var n := |b| - 1;
      assert (s + b)[..|s + b| - 1] == s + b[..n] && (s + b)[|s + b| - 1] == b[n];
      DropsEndQuotes(s, b[..n]);
    }
  }

  /** All quotes come off both ends, however many. */
  lemma QuotesComeOffBoth(a: string, s: string, b: string)
    requires AllQuotes(a) && NoEdgeQuotes(s) && AllQuotes(b)
    ensures TrimQuotes(a + s + b) == s
  {
    if s == "" {
      assert a + s + b == (a + b) + "";
      DropsQuotes(a + b, "");
    } else {
      assert a + s + b == a + (s + b) && (s + b)[0] == s[0];
      DropsQuotes(a, s + b);
      DropsEndQuotes(s, b);
    }
  }

  lemma {:induction false} FindsEquals(a: string, b: string)
    requires '=' !in a
    ensures FindEquals(a + " = " + b) == Some(|a|)
    decreases |a|
  {
    var s := a + " = " + b;
    if a == "" {
      assert s[..3] == " = ";
    } else {
      assert s[1..] == a[1..] + " = " + b;
      FindsEquals(a[1..], b);
      assert s[..3][1] == s[1] && (|a| > 1 ==> s[1] == a[1]) && (|a| == 1 ==> s[1] == ' ');
    }
  }

  lemma {:induction false} FindsNone(s: string)
    requires '=' !in s
    ensures FindEquals(s) == None
    decreases |s|
  {
    if |s| >= 3 {
      assert s[..3][1] == s[1] && s[1] in s;
      FindsNone(s[1..]);
    }
  }

  // ---------------------------------------------------------------- lines

  /** A line as it may be written: what it says, with white space at the ends. A field has its
      value in any number of quotes, and white space on both sides of ` = `. */
  datatype Written =
    | Opens(a: string, b: string)
    | Sets(a: string, key: string, before: string, after: string, open: string, value: string, close: string, b: string)
    | Says(a: string, text: string, b: string)

  predicate WellWritten(w: Written) {
    && Blank(w.a) && Blank(w.b)
    && match w
       case Opens(_, _) => true
       case Sets(_, key, before, after, open, value, close, _) =>
         && key != "" && Tight(key) && '=' !in key && Blank(before) && Blank(after)
         && AllQuotes(open) && NoEdgeQuotes(value) && AllQuotes(close)
         && open + value + close != "" && Tight(open + value + close)
       case Says(_, text, _) => Tight(text) && '=' !in text && text != DEPENDENCY
  }

  function LineOf(w: Written): string {
    match w
    case Opens(a, b) => a + DEPENDENCY + b
    case Sets(a, key, before, after, open, value, close, b) =>
      a + (key + before + " = " + (after + (open + value + close))) + b
    case Says(a, text, b) => a + text + b
  }

  /** What a line does to the dependency being read. */
  function Does(st: State, w: Written): State {
    match w
    case Opens(_, _) =>
      if st.inDep && st.name != "" then
        State(st.entries + [Entry(st.name, st.version, st.source)], "", "", "", true)
      else State(st.entries, st.name, st.version, st.source, true)
    case Sets(_, key, _, _, _, value, _, _) =>
      if !st.inDep then st
      else if key == "name" then State(st.entries, value, st.version, st.source, true)
      else if key == "version" then State(st.entries, st.name, value, st.source, true)
      else if key == "source" then State(st.entries, st.name, st.version, value, true)
      else st
    case Says(_, _, _) => st
  }

  lemma FieldReads(w: Written)
    requires w.Sets? && WellWritten(w)
    ensures var trimmed, k := Trim(LineOf(w)), |w.key + w.before|;
            && trimmed != DEPENDENCY && FindEquals(trimmed) == Some(k) && k + 3 <= |trimmed|
            && Trim(trimmed[..k]) == w.key && TrimQuotes(Trim(trimmed[k + 3..])) == w.value
  {
    hide Trim, TrimQuotes, FindEquals, Scanner.IsWhitespace;
    var key, value := w.key + w.before, w.open + w.value + w.close;
    var all := key + " = " + (w.after + value);
    assert all[0] == w.key[0] && all[|all| - 1] == value[|value| - 1];
    TrimsBoth(w.a, all, w.b);
    NoEqualsInBlank(w.before);
    FindsEquals(key, w.after + value);
    assert all[..|key|] == key && all[|key| + 3..] == w.after + value;
    assert "" + w.key + w.before == key && w.after + value + "" == w.after + value;
    TrimsBoth("", w.key, w.before);
    TrimsBoth(w.after, value, "");
    QuotesComeOffBoth(w.open, w.value, w.close);
    assert all[|key| + 1] == '=' && '=' !in DEPENDENCY;
  }

  lemma NoEqualsInBlank(s: string)
    requires Blank(s)
    ensures '=' !in s
  {
  }

  /** Each line does what it says, whatever white space and quotes it is written with. */
  lemma LineDoes(st: State, w: Written)
    requires WellWritten(w)
    ensures Step(st, LineOf(w)) == Does(st, w)
  {
    hide Trim, TrimQuotes, FindEquals, Scanner.IsWhitespace;
    match w
    case Opens(a, b) => DependencyIsTight(); TrimsBoth(a, DEPENDENCY, b);
    case Sets(_, _, _, _, _, _, _, _) => FieldReads(w);
    case Says(a, text, b) => TrimsBoth(a, text, b); FindsNone(text);
  }

  lemma DependencyIsTight()
    ensures Tight(DEPENDENCY)
  {
  }

  // ---------------------------------------------------------------- texts

  /** Lines, each ended by a line feed with or without a carriage return. */
  function Ended(lines: seq<string>, crlf: seq<bool>): string
    requires |lines| == |crlf|
  {
    if lines == [] then ""
    else lines[0] + (if crlf[0] then "\r" else "") + "\n" + Ended(lines[1..], crlf[1..])
  }

  lemma {:induction false} LinesOfEnded(lines: seq<string>, crlf: seq<bool>)
    requires |lines| == |crlf| && forall i :: 0 <= i < |lines| ==> Plain(lines[i])
    ensures Lines(Ended(lines, crlf)) == lines
    decreases |lines|
  {
    hide Lines;
    if lines == [] {
      NoLines();
    } else {
      var head := lines[0] + if crlf[0] then "\r" else "";
      FirstLine(head, Ended(lines[1..], crlf[1..]));
      assert StripReturn(head) == lines[0];
      LinesOfEnded(lines[1..], crlf[1..]);
    }
  }

  function AllLines(ws: seq<Written>): seq<string> { if ws == [] then [] else [LineOf(ws[0])] + AllLines(ws[1..]) }

  function DoesAll(st: State, ws: seq<Written>): State
    decreases |ws|
  {
    if ws == [] then st else DoesAll(Does(st, ws[0]), ws[1..])
  }

  lemma {:induction false} AllDo(st: State, ws: seq<Written>)
    requires forall i :: 0 <= i < |ws| ==> WellWritten(ws[i])
    ensures Run(st, AllLines(ws)) == DoesAll(st, ws)
    decreases |ws|
  {
    hide Step, Does, LineOf, WellWritten;
    if ws != [] {
      LineDoes(st, ws[0]);
      AllDo(Does(st, ws[0]), ws[1..]);
      RunOne(st, LineOf(ws[0]), AllLines(ws[1..]));
    }
  }

  /** A text of such lines reads as what they say: each dependency with the values last set in it,
      and those without a name left out. */
  lemma LayoutReads(ws: seq<Written>, crlf: seq<bool>)
    requires (forall i :: 0 <= i < |ws| ==> WellWritten(ws[i])) && |AllLines(ws)| == |crlf|
    requires forall i :: 0 <= i < |AllLines(ws)| ==> Plain(AllLines(ws)[i])
    ensures var st := DoesAll(START, ws);
            Parsed(Ended(AllLines(ws), crlf)) ==
            if st.inDep && st.name != "" then st.entries + [Entry(st.name, st.version, st.source)] else st.entries
  {
    hide WellWritten, Ended, DoesAll, Run, AllLines, Lines;
    LinesOfEnded(AllLines(ws), crlf);
    AllDo(START, ws);
  }
}
