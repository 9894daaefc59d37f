/** The lockfile printer and parser (src/package.rs). */
module Lockfile {
  import opened Ast
  import Scanner

  datatype Entry = Entry(name: string, version: string, source: string)

  datatype Package = Package(name: string, version: string)

  // ---------------------------------------------------------------- printing

  function FieldLine(key: string, value: string): string { key + " = \"" + value + "\"" }

  const HEADER: string := "# coral.lock \U{2014} auto-generated, do not edit"
  const DEPENDENCY: string := "[[dependency]]"

  /** Lines, each ended. */
  function Unlines(lines: seq<string>): string {
    if lines == [] then "" else lines[0] + "\n" + Unlines(lines[1..])
  }

  function RootLines(root: Package): seq<string> {
    [HEADER, "", "[root]", FieldLine("name", root.name), FieldLine("version", root.version), ""]
  }

  function EntryLines(e: Entry): seq<string> {
    [DEPENDENCY, FieldLine("name", e.name), FieldLine("version", e.version), FieldLine("source", e.source), ""]
  }

  function AllEntryLines(es: seq<Entry>): seq<string> {
    if es == [] then [] else EntryLines(es[0]) + AllEntryLines(es[1..])
  }

  function Generated(root: Package, resolved: seq<Entry>): string {
    Unlines(RootLines(root) + AllEntryLines(resolved))
  }

  lemma {:induction false} UnlinesConcat(a: seq<string>, b: seq<string>)
    ensures Unlines(a + b) == Unlines(a) + Unlines(b)
    decreases |a|
  {
    if a == [] {
      assert a + b == b;
    } else {
      UnlinesConcat(a[1..], b);
      assert (a + b)[1..] == a[1..] + b;
    }
  }

  lemma {:induction false} AllEntryLinesNext(es: seq<Entry>, e: Entry)
    ensures AllEntryLines(es + [e]) == AllEntryLines(es) + EntryLines(e)
    decreases |es|
  {
    if es == [] {
      assert [] + [e] == [e] && [e][1..] == [];
      assert AllEntryLines([e]) == EntryLines(e) + AllEntryLines([]);
      assert EntryLines(e) + [] == EntryLines(e);
    } else {
      AllEntryLinesNext(es[1..], e);
      assert (es + [e])[1..] == es[1..] + [e];
      assert EntryLines(es[0]) + (AllEntryLines(es[1..]) + EntryLines(e)) == AllEntryLines(es) + EntryLines(e);
    }
  }

  method GenerateLockfile(root: Package, resolved: seq<Entry>) returns (text: string)
    ensures text == Generated(root, resolved)
  {
    text := HEADER + "\n\n";
    text := text + ("[root]\n" + FieldLine("name", root.name) + "\n" + FieldLine("version", root.version) + "\n\n");
    assert text == Unlines(RootLines(root)) by { RootText(root); }
    var i := 0;
    assert resolved[..0] == [] && RootLines(root) + [] == RootLines(root);
    while i < |resolved|
      invariant i <= |resolved| && text == Unlines(RootLines(root) + AllEntryLines(resolved[..i]))
    {
      var dep := resolved[i];
      text := text + (DEPENDENCY + "\n" + FieldLine("name", dep.name) + "\n" + FieldLine("version", dep.version)
                      + "\n" + FieldLine("source", dep.source) + "\n\n");
      EntryText(dep);
      AllEntryLinesNext(resolved[..i], dep);
      assert resolved[..i + 1] == resolved[..i] + [dep];
      UnlinesConcat(RootLines(root) + AllEntryLines(resolved[..i]), EntryLines(dep));
      assert RootLines(root) + (AllEntryLines(resolved[..i]) + EntryLines(dep))
          == RootLines(root) + AllEntryLines(resolved[..i]) + EntryLines(dep);
      i := i + 1;
    }
    assert resolved[..i] == resolved;
  }

  lemma Unlines1(a: string, rest: seq<string>)
    ensures Unlines([a] + rest) == a + "\n" + Unlines(rest)
  {
    assert ([a] + rest)[1..] == rest;
  }

  lemma RootText(root: Package)
    ensures Unlines(RootLines(root)) ==
            HEADER + "\n\n"
            + ("[root]\n" + FieldLine("name", root.name) + "\n" + FieldLine("version", root.version) + "\n\n")
  {
    hide Unlines, FieldLine;
    var n, v := FieldLine("name", root.name), FieldLine("version", root.version);
    Unlines1("", []);
    Unlines1(v, [""]);
    Unlines1(n, [v, ""]);
    Unlines1("[root]", [n, v, ""]);
    Unlines1("", ["[root]", n, v, ""]);
    Unlines1(HEADER, ["", "[root]", n, v, ""]);
    assert Unlines([]) == "" by { UnlinesNothing(); }
    assert [""] + [] == [""];
    assert [v] + [""] == [v, ""];
    assert [n] + [v, ""] == [n, v, ""];
    assert ["[root]"] + [n, v, ""] == ["[root]", n, v, ""];
    assert [""] + ["[root]", n, v, ""] == ["", "[root]", n, v, ""];
    assert [HEADER] + ["", "[root]", n, v, ""] == RootLines(root);
  }

  lemma UnlinesNothing()
    ensures Unlines([]) == ""
  {
  }

  lemma EntryText(e: Entry)
    ensures Unlines(EntryLines(e)) ==
            DEPENDENCY + "\n" + FieldLine("name", e.name) + "\n" + FieldLine("version", e.version)
            + "\n" + FieldLine("source", e.source) + "\n\n"
  {
    hide Unlines, FieldLine;
    var n, v, s := FieldLine("name", e.name), FieldLine("version", e.version), FieldLine("source", e.source);
    UnlinesNothing();
    Unlines1("", []);
    Unlines1(s, [""]);
    Unlines1(v, [s, ""]);
    Unlines1(n, [v, s, ""]);
    Unlines1(DEPENDENCY, [n, v, s, ""]);
    assert [""] + [] == [""];
    assert [s] + [""] == [s, ""];
    assert [v] + [s, ""] == [v, s, ""];
    assert [n] + [v, s, ""] == [n, v, s, ""];
    assert [DEPENDENCY] + [n, v, s, ""] == EntryLines(e);
  }

  // ---------------------------------------------------------------- reading lines and fields

  function IndexOf(s: string, c: char): (i: nat)
    ensures i <= |s| && (i < |s| ==> s[i] == c) && c !in s[..i]
  {
    if s == [] || s[0] == c then 0
    else
      var i := IndexOf(s[1..], c) + 1;
      assert s[..i] == [s[0]] + s[1..][..i - 1];
      i
  }

  function StripReturn(line: string): string {
    if line != [] && line[|line| - 1] == '\r' then line[..|line| - 1] else line
  }

  /** The lines of a text, without their line ends. */
  function Lines(s: string): seq<string>
    decreases |s|
  {
    if s == [] then []
    else
      var i := IndexOf(s, '\n');
      if i == |s| then [s] else [StripReturn(s[..i])] + Lines(s[i + 1..])
  }

  function TrimStart(s: string): string {
    if s != [] && Scanner.IsWhitespace(s[0]) then TrimStart(s[1..]) else s
  }

  function TrimEnd(s: string): string {
    if s != [] && Scanner.IsWhitespace(s[|s| - 1]) then TrimEnd(s[..|s| - 1]) else s
  }

  function Trim(s: string): string { TrimEnd(TrimStart(s)) }

  function DropQuotes(s: string): string {
    if s != [] && s[0] == '"' then DropQuotes(s[1..]) else s
  }

  function DropEndQuotes(s: string): string {
    if s != [] && s[|s| - 1] == '"' then DropEndQuotes(s[..|s| - 1]) else s
  }

  /** All double quotes off both ends. */
  function TrimQuotes(s: string): string { DropEndQuotes(DropQuotes(s)) }

  /** The first place of ` = `. */
  function FindEquals(s: string): (i: Option<nat>)
    ensures i.Some? ==> i.value + 3 <= |s|
  {
    if |s| < 3 then None
    else if s[..3] == " = " then Some(0)
    else
      var i := FindEquals(s[1..]);
      if i.None? then None else Some(i.value + 1)
  }

  // ---------------------------------------------------------------- parsing

  datatype State = State(entries: seq<Entry>, name: string, version: string, source: string, inDep: bool)

  const START: State := State([], "", "", "", false)

  function Closed(st: State): seq<Entry> {
    if st.inDep && st.name != "" then st.entries + [Entry(st.name, st.version, st.source)] else st.entries
  }

  /** What one line does. A block without a name is dropped, but what it set stays set. */
  function Step(st: State, line: string): State {
    var trimmed := Trim(line);
    if trimmed == DEPENDENCY then
      if st.inDep && st.name != "" then State(Closed(st), "", "", "", true) else st.(inDep := true)
    else if !st.inDep then st
    else
      var eq := FindEquals(trimmed);
      if eq.None? then st
      else
        var key, val := Trim(trimmed[..eq.value]), TrimQuotes(Trim(trimmed[eq.value + 3..]));
        if key == "name" then st.(name := val)
        else if key == "version" then st.(version := val)
        else if key == "source" then st.(source := val)
        else st
  }

  function Run(st: State, lines: seq<string>): State
    decreases |lines|
  {
    if lines == [] then st else Run(Step(st, lines[0]), lines[1..])
  }

  function Parsed(content: string): seq<Entry> { Closed(Run(START, Lines(content))) }

  method ParseLockfile(content: string) returns (entries: seq<Entry>)
    ensures entries == Parsed(content)
  {
    entries := [];
    var name, version, source, inDep := "", "", "", false;
    var lines := Lines(content);
    var i := 0;
    while i < |lines|
      invariant i <= |lines|
      invariant Run(START, lines) == Run(State(entries, name, version, source, inDep), lines[i..])
    {
      assert lines[i..][1..] == lines[i + 1..];
      var trimmed := Trim(lines[i]);
      i := i + 1;
      if trimmed == DEPENDENCY {
        if inDep && name != "" {
          entries := entries + [Entry(name, version, source)];
          name, version, source := "", "", "";
        }
        inDep := true;
        continue;
      }
      if !inDep { continue; }
      var eq := FindEquals(trimmed);
      if eq.Some? {
        var key, val := Trim(trimmed[..eq.value]), TrimQuotes(Trim(trimmed[eq.value + 3..]));
        if key == "name" {
          name := val;
        } else if key == "version" {
          version := val;
        } else if key == "source" {
          source := val;
        }
      }
    }
    if inDep && name != "" { entries := entries + [Entry(name, version, source)]; }
  }

  // ---------------------------------------------------------------- what parsing can produce

  predicate OneLine(s: string) { '\n' !in s }

  predicate NoEdgeQuotes(s: string) { s != [] ==> s[0] != '"' && s[|s| - 1] != '"' }

  predicate Field(s: string) { OneLine(s) && NoEdgeQuotes(s) }

  predicate Representable(e: Entry) { e.name != "" && Field(e.name) && Field(e.version) && Field(e.source) }

  predicate AllRepresentable(es: seq<Entry>) { forall i :: 0 <= i < |es| ==> Representable(es[i]) }

  lemma {:induction false} LinesAreOneLine(s: string)
    ensures forall i :: 0 <= i < |Lines(s)| ==> OneLine(Lines(s)[i])
    decreases |s|
  {
    if s != [] {
      var i := IndexOf(s, '\n');
      if i < |s| {
        LinesAreOneLine(s[i + 1..]);
      } else {
        assert s[..i] == s;
      }
    }
  }

  lemma {:induction false} TrimKeepsOneLine(s: string)
    requires OneLine(s)
    ensures OneLine(TrimStart(s)) && OneLine(TrimEnd(s))
    decreases |s|
  {
    if s != [] {
      TrimKeepsOneLine(s[1..]);
      TrimKeepsOneLine(s[..|s| - 1]);
    }
  }

  lemma {:induction false} DropIsField(s: string)
    requires OneLine(s)
    ensures OneLine(DropQuotes(s)) && (DropQuotes(s) != [] ==> DropQuotes(s)[0] != '"')
    decreases |s|
  {
    if s != [] { DropIsField(s[1..]); }
  }

  lemma {:induction false} DropEndIsField(s: string)
    requires OneLine(s) && (s != [] ==> s[0] != '"')
    ensures Field(DropEndQuotes(s))
    decreases |s|
  {
    if s != [] && s[|s| - 1] == '"' { DropEndIsField(s[..|s| - 1]); }
  }

  predicate CleanState(st: State) {
    AllRepresentable(st.entries) && Field(st.name) && Field(st.version) && Field(st.source)
  }

  lemma StepKeepsClean(st: State, line: string)
    requires CleanState(st) && OneLine(line)
    ensures CleanState(Step(st, line))
  {
    hide TrimStart, TrimEnd, DropQuotes, DropEndQuotes, FindEquals;
    TrimKeepsOneLine(line);
    TrimKeepsOneLine(TrimStart(line));
    var trimmed := Trim(line);
    var eq := FindEquals(trimmed);
    if eq.Some? {
      var rest := trimmed[eq.value + 3..];
      TrimKeepsOneLine(rest);
      TrimKeepsOneLine(TrimStart(rest));
      DropIsField(Trim(rest));
      DropEndIsField(DropQuotes(Trim(rest)));
    }
  }

  lemma {:induction false} RunKeepsClean(st: State, lines: seq<string>)
    requires CleanState(st) && forall i :: 0 <= i < |lines| ==> OneLine(lines[i])
    ensures CleanState(Run(st, lines))
    decreases |lines|
  {
    if lines != [] {
      StepKeepsClean(st, lines[0]);
      RunKeepsClean(Step(st, lines[0]), lines[1..]);
    }
  }

  /** Whatever the text, a parsed entry has a name, and no field holds a line break or begins or
      ends with a double quote. */
  lemma ParsedIsRepresentable(content: string)
    ensures AllRepresentable(Parsed(content))
  {
    LinesAreOneLine(content);
    RunKeepsClean(START, Lines(content));
  }

  // ---------------------------------------------------------------- when nothing is read

  predicate StartsEntry(line: string) { Trim(line) == DEPENDENCY }

  /** The name a line gives to the dependency it stands in. */
  function NameSet(line: string): Option<string> {
    var trimmed := Trim(line);
    var eq := FindEquals(trimmed);
    if trimmed == DEPENDENCY || eq.None? || Trim(trimmed[..eq.value]) != "name" then None
    else Some(TrimQuotes(Trim(trimmed[eq.value + 3..])))
  }

  /** No dependency starts on these lines. */
  predicate Within(lines: seq<string>, from: nat, to: nat)
    requires from <= to <= |lines|
  {
    forall k :: from <= k < to ==> !StartsEntry(lines[k])
  }

  /** The `i`th line sets a name, and none is set after it before the next dependency starts. */
  predicate LastName(lines: seq<string>, i: nat) {
    && i < |lines| && NameSet(lines[i]).Some?
    && forall j :: i < j < |lines| && NameSet(lines[j]).Some? ==> !Within(lines, i + 1, j)
  }

  /** The dependency that starts on the `d`th line is given a name on the `i`th. */
  predicate Names(lines: seq<string>, d: nat, i: nat) {
    && d < i && LastName(lines, i) && NameSet(lines[i]) != Some("")
    && StartsEntry(lines[d]) && Within(lines, d + 1, i)
  }

  ghost predicate NamesAny(lines: seq<string>) { exists d: nat, i: nat :: Names(lines, d, i) }

  /** The same for a dependency that has started before these lines. */
  predicate NamesHere(lines: seq<string>, i: nat) {
    LastName(lines, i) && NameSet(lines[i]) != Some("") && Within(lines, 0, i)
  }

  ghost predicate NamesOpen(lines: seq<string>) { exists i: nat :: NamesHere(lines, i) }

  predicate SetsHere(lines: seq<string>, j: nat) { j < |lines| && NameSet(lines[j]).Some? && Within(lines, 0, j) }

  ghost predicate SetsOpen(lines: seq<string>) { exists j: nat :: SetsHere(lines, j) }

  lemma Later(x: string, rest: seq<string>)
    ensures var more := [x] + rest;
            forall a: nat, b: nat | a <= b <= |rest| :: Within(more, a + 1, b + 1) == Within(rest, a, b)
  {
    hide StartsEntry;
    var more := [x] + rest;
    forall a: nat, b: nat | a <= b <= |rest| ensures Within(more, a + 1, b + 1) == Within(rest, a, b) {
      if Within(more, a + 1, b + 1) {
        forall k | a <= k < b ensures !StartsEntry(rest[k]) { assert more[k + 1] == rest[k]; }
      }
    }
  }

  lemma LaterOpen(x: string, rest: seq<string>, b: nat)
    requires b <= |rest|
    ensures Within([x] + rest, 0, b + 1) == (!StartsEntry(x) && Within(rest, 0, b))
  {
    hide StartsEntry, Within;
    var more := [x] + rest;
    Later(x, rest);
    assert Within(more, 0 + 1, b + 1) == Within(rest, 0, b);
    WithinNext(more, b);
    assert more[0] == x;
  }

  lemma WithinNext(lines: seq<string>, b: nat)
    requires b < |lines|
    ensures Within(lines, 0, b + 1) == (!StartsEntry(lines[0]) && Within(lines, 1, b + 1))
  {
  }

  lemma LastNameLater(x: string, rest: seq<string>, i: nat)
    ensures LastName([x] + rest, i + 1) == LastName(rest, i)
  {
    hide NameSet, Within;
    Later(x, rest);
    var more := [x] + rest;
    if LastName(rest, i) {
      forall j | i + 1 < j < |more| && NameSet(more[j]).Some? ensures !Within(more, i + 2, j) {
        assert more[j] == rest[j - 1] && Within(more, (i + 1) + 1, (j - 1) + 1) == Within(rest, i + 1, j - 1);
      }
    }
    if LastName(more, i + 1) {
      forall j | i < j < |rest| && NameSet(rest[j]).Some? ensures !Within(rest, i + 1, j) {
        assert more[j + 1] == rest[j] && Within(more, (i + 1) + 1, j + 1) == Within(rest, i + 1, j);
      }
    }
  }

  lemma FirstLineIsLast(x: string, rest: seq<string>)
    ensures LastName([x] + rest, 0) <==> NameSet(x).Some? && !SetsOpen(rest)
  {
    hide NameSet, Within;
    Later(x, rest);
    var more := [x] + rest;
    if SetsOpen(rest) {
      var j: nat :| SetsHere(rest, j);
      assert more[j + 1] == rest[j] && Within(more, 1, j + 1) == Within(rest, 0, j);
    }
    if NameSet(x).Some? && !SetsOpen(rest) {
      forall j | 0 < j < |more| && NameSet(more[j]).Some? ensures !Within(more, 1, j) {
        assert more[j] == rest[j - 1] && Within(more, 0 + 1, (j - 1) + 1) == Within(rest, 0, j - 1);
        assert !SetsHere(rest, j - 1);
      }
    }
  }

  /** What is open behind one more line in front. */
  lemma OpenLater(x: string, rest: seq<string>)
    ensures SetsOpen([x] + rest) <==> NameSet(x).Some? || (!StartsEntry(x) && SetsOpen(rest))
    ensures NamesOpen([x] + rest) <==>
            || (NameSet(x).Some? && NameSet(x) != Some("") && !SetsOpen(rest))
            || (!StartsEntry(x) && NamesOpen(rest))
  {
    hide NameSet, Within, LastName;
    var more := [x] + rest;
    Later(x, rest);
    FirstLineIsLast(x, rest);
    assert Within(more, 0, 0) by { WithinNothing(more); }
    assert more[0] == x && forall k: nat :: k < |rest| ==> more[k + 1] == rest[k];
    if SetsOpen(more) {
      var j: nat :| SetsHere(more, j);
      if j > 0 { assert SetsHere(rest, j - 1) && !StartsEntry(x) by { OpenAt(x, rest, j - 1); } }
    }
    if NameSet(x).Some? { assert SetsHere(more, 0); }
    if !StartsEntry(x) && SetsOpen(rest) {
      var j: nat :| SetsHere(rest, j);
      OpenAt(x, rest, j);
    }
    if NamesOpen(more) {
      var i: nat :| NamesHere(more, i);
      if i > 0 { OpenAt(x, rest, i - 1); }
    }
    if NameSet(x).Some? && NameSet(x) != Some("") && !SetsOpen(rest) { assert NamesHere(more, 0); }
    if !StartsEntry(x) && NamesOpen(rest) {
      var i: nat :| NamesHere(rest, i);
      OpenAt(x, rest, i);
    }
  }

  lemma OpenAt(x: string, rest: seq<string>, i: nat)
    ensures SetsHere([x] + rest, i + 1) <==> !StartsEntry(x) && SetsHere(rest, i)
    ensures NamesHere([x] + rest, i + 1) <==> !StartsEntry(x) && NamesHere(rest, i)
  {
    hide NameSet, StartsEntry;
    var more := [x] + rest;
    Later(x, rest);
    LastNameLater(x, rest, i);
    if i < |rest| {
      assert more[i + 1] == rest[i];
      LaterOpen(x, rest, i);
    }
  }

  lemma WithinNothing(lines: seq<string>)
    ensures Within(lines, 0, 0)
  {
  }

  /** What is named behind one more line in front. */
  lemma AnyLater(x: string, rest: seq<string>)
    ensures NamesAny([x] + rest) <==> NamesAny(rest) || (StartsEntry(x) && NamesOpen(rest))
  {
    hide NameSet;
    var more := [x] + rest;
    assert more[0] == x && forall k: nat :: k < |rest| ==> more[k + 1] == rest[k];
    if NamesAny(more) {
      var d: nat, i: nat :| Names(more, d, i);
      LastNameLater(x, rest, i - 1);
      Later(x, rest);
      if d > 0 {
        assert Within(more, d + 1, i) == Within(rest, d, i - 1);
        assert Names(rest, d - 1, i - 1);
      } else {
        assert Within(more, 1, i) == Within(rest, 0, i - 1);
        assert NamesHere(rest, i - 1);
      }
    }
    if NamesAny(rest) {
      var d: nat, i: nat :| Names(rest, d, i);
      LastNameLater(x, rest, i);
      Later(x, rest);
      assert Within(more, d + 2, i + 1) == Within(rest, d + 1, i);
      assert Names(more, d + 1, i + 1);
    }
    if StartsEntry(x) && NamesOpen(rest) {
      var i: nat :| NamesHere(rest, i);
      LastNameLater(x, rest, i);
      Later(x, rest);
      assert Within(more, 1, i + 1) == Within(rest, 0, i);
      assert Names(more, 0, i + 1);
    }
  }

  lemma StepNames(st: State, x: string)
    ensures var next := Step(st, x);
            if StartsEntry(x) then
              && next.inDep
              && if st.inDep && st.name != "" then next.entries != []
                 else next.entries == st.entries && next.name == st.name
            else
              && next.inDep == st.inDep && next.entries == st.entries
              && next.name == if st.inDep && NameSet(x).Some? then NameSet(x).value else st.name
    ensures StartsEntry(x) ==> NameSet(x).None?
  {
    hide Trim, TrimQuotes, FindEquals;
  }

  lemma NothingNamed()
    ensures !NamesAny([]) && !NamesOpen([]) && !SetsOpen([])
  {
  }

  /** From any state without entries, lines are read as no dependency exactly when they name
      none and leave the open one without a name. */
  lemma {:induction false} SilentRun(st: State, lines: seq<string>)
    requires st.inDep || st.name == ""
    ensures Closed(Run(st, lines)) == [] <==>
            && st.entries == [] && !NamesAny(lines)
            && !(st.inDep && (NamesOpen(lines) || (st.name != "" && !SetsOpen(lines))))
    decreases |lines|
  {
    hide Step, NamesAny, NamesOpen, SetsOpen, StartsEntry, NameSet;
    if lines == [] {
      NothingNamed();
    } else {
      var x, rest := lines[0], lines[1..];
      assert lines == [x] + rest;
      StepNames(st, x);
      OpenLater(x, rest);
      AnyLater(x, rest);
      SilentRun(Step(st, x), rest);
    }
  }

  /** Any text is read as no dependency exactly when no `[[dependency]]` in it is given a name
      that is not empty. */
  lemma ParsedIsEmpty(content: string)
    ensures Parsed(content) == [] <==> !NamesAny(Lines(content))
  {
    hide Run, Lines, NamesAny;
    SilentRun(START, Lines(content));
  }

  // ---------------------------------------------------------------- the round trip

  predicate Plain(line: string) { OneLine(line) && (line != [] ==> line[|line| - 1] != '\r') }

  lemma {:induction false} IndexOfFirst(a: string, b: string, c: char)
    requires c !in a
    ensures IndexOf(a + [c] + b, c) == |a|
  {
    var s := a + [c] + b;
    if a != [] {
      assert s[0] == a[0] != c;
      assert s[1..] == a[1..] + [c] + b;
      IndexOfFirst(a[1..], b, c);
    }
  }

  lemma FirstLine(head: string, rest: string)
    requires OneLine(head)
    ensures Lines(head + "\n" + rest) == [StripReturn(head)] + Lines(rest)
  {
    hide IndexOf, StripReturn;
    var s := head + "\n" + rest;
    IndexOfFirst(head, rest, '\n');
    assert s[..|head|] == head && s[|head| + 1..] == rest;
  }

  lemma {:induction false} LinesOfUnlines(lines: seq<string>)
    requires forall i :: 0 <= i < |lines| ==> Plain(lines[i])
    ensures Lines(Unlines(lines)) == lines
    decreases |lines|
  {
    hide Lines;
    if lines == [] {
      assert Lines("") == [] by { NoLines(); }
    } else {
      FirstLine(lines[0], Unlines(lines[1..]));
      LinesOfUnlines(lines[1..]);
    }
  }

  lemma NoLines()
    ensures Lines("") == []
  {
  }

  lemma TrimsNothing(s: string)
    requires s != [] && !Scanner.IsWhitespace(s[0]) && !Scanner.IsWhitespace(s[|s| - 1])
    ensures Trim(s) == s
  {
  }

  lemma {:induction false} FindsFirst(s: string, k: nat)
    requires k + 3 <= |s| && s[k..k + 3] == " = " && forall i :: 0 <= i < k ==> s[i] != ' '
    ensures FindEquals(s) == Some(k)
    decreases k
  {
    if k > 0 {
      assert s[..3][0] == s[0] != ' ';
      assert s[1..][k - 1..k - 1 + 3] == s[k..k + 3];
      FindsFirst(s[1..], k - 1);
    } else {
      assert s[..3] == s[0..3];
    }
  }

  lemma QuotesComeOff(v: string)
    requires NoEdgeQuotes(v)
    ensures TrimQuotes("\"" + v + "\"") == v
  {
    var s := "\"" + v + "\"";
    assert s[1..] == v + "\"";
    if v == [] {
      assert s[1..] == "\"";
      assert DropQuotes("\"") == DropQuotes("\""[1..]);
    } else {
      assert DropQuotes(v + "\"") == v + "\"";
      assert (v + "\"")[..|v|] == v;
      assert DropEndQuotes(v) == v;
    }
  }

  predicate IsKey(key: string) { key == "name" || key == "version" || key == "source" }

  lemma FieldLineParts(key: string, v: string)
    ensures var line := FieldLine(key, v);
            && |line| == |key| + 3 + |v| + 2
            && line[..|key|] == key && line[|key|..|key| + 3] == " = " && line[|key| + 3..] == "\"" + v + "\""
  {
    var tail := "\"" + v + "\"";
    assert FieldLine(key, v) == key + " = " + tail;
  }

  /** A printed field line sets its field. */
  lemma FieldLineReads(key: string, v: string)
    requires IsKey(key) && NoEdgeQuotes(v)
    ensures var line := FieldLine(key, v);
            && Trim(line) == line && line != DEPENDENCY && FindEquals(line) == Some(|key|)
            && Trim(line[..|key|]) == key && TrimQuotes(Trim(line[|key| + 3..])) == v
  {
    hide TrimQuotes;
    var line := FieldLine(key, v);
    TrimsNothing(line);
    FieldLineParts(key, v);
    forall i | 0 <= i < |key| ensures line[i] != ' ' { assert line[i] == key[i]; }
    FindsFirst(line, |key|);
    TrimsNothing(key);
    TrimsNothing("\"" + v + "\"");
    QuotesComeOff(v);
    assert line[0] == key[0] != DEPENDENCY[0];
  }

  lemma DependencyLineReads()
    ensures Trim(DEPENDENCY) == DEPENDENCY && Trim("") == "" && FindEquals("").None?
  {
    TrimsNothing(DEPENDENCY);
  }

  lemma RunOne(st: State, line: string, rest: seq<string>)
    ensures Run(st, [line] + rest) == Run(Step(st, line), rest)
  {
    assert ([line] + rest)[1..] == rest;
  }

  /** The lines of an entry close the entry before it and leave it open itself. */
  lemma EntryLinesRead(st: State, e: Entry, rest: seq<string>)
    requires Representable(e)
    ensures Run(st, EntryLines(e) + rest) == Run(State(Closed(st), e.name, e.version, e.source, true), rest)
  {
    hide Run, Trim, TrimQuotes, FindEquals, FieldLine;
    var n, v, s := FieldLine("name", e.name), FieldLine("version", e.version), FieldLine("source", e.source);
    DependencyLineReads();
    FieldLineReads("name", e.name);
    FieldLineReads("version", e.version);
    FieldLineReads("source", e.source);
    assert EntryLines(e) + rest == [DEPENDENCY] + ([n] + ([v] + ([s] + ([""] + rest))));
    var s0 := Step(st, DEPENDENCY);
    RunOne(st, DEPENDENCY, [n] + ([v] + ([s] + ([""] + rest))));
    RunOne(s0, n, [v] + ([s] + ([""] + rest)));
    var s1 := Step(s0, n);
    RunOne(s1, v, [s] + ([""] + rest));
    var s2 := Step(s1, v);
    RunOne(s2, s, [""] + rest);
    var s3 := Step(s2, s);
    RunOne(s3, "", rest);
    assert Step(s3, "") == s3;
  }

  lemma {:induction false} EntriesRead(st: State, es: seq<Entry>)
    requires AllRepresentable(es)
    ensures Closed(Run(st, AllEntryLines(es))) == Closed(st) + es
    decreases |es|
  {
    hide Step;
    if es == [] {
      assert Closed(st) + [] == Closed(st);
    } else {
      var e := es[0];
      EntryLinesRead(st, e, AllEntryLines(es[1..]));
      EntriesRead(State(Closed(st), e.name, e.version, e.source, true), es[1..]);
      assert Closed(st) + [e] + es[1..] == Closed(st) + es;
    }
  }

  lemma {:induction false} RunSkips(st: State, lines: seq<string>, rest: seq<string>)
    requires forall i :: 0 <= i < |lines| ==> Step(st, lines[i]) == st
    ensures Run(st, lines + rest) == Run(st, rest)
    decreases |lines|
  {
    hide Step;
    if lines == [] {
      assert lines + rest == rest;
    } else {
      assert (lines + rest)[1..] == lines[1..] + rest;
      RunSkips(st, lines[1..], rest);
    }
  }

  /** Nothing before the first dependency counts. */
  lemma OutsideLines(root: Package)
    ensures forall i :: 0 <= i < |RootLines(root)| ==> Step(START, RootLines(root)[i]) == START
  {
    hide FindEquals, TrimQuotes;
    TrimsNothing(HEADER);
    TrimsNothing("[root]");
    TrimsNothing(FieldLine("name", root.name));
    TrimsNothing(FieldLine("version", root.version));
    DependencyLineReads();
  }

  lemma FieldLineIsPlain(key: string, v: string)
    requires IsKey(key) && OneLine(v)
    ensures Plain(FieldLine(key, v))
  {
  }

  lemma RootLinesArePlain(root: Package)
    requires OneLine(root.name) && OneLine(root.version)
    ensures forall i :: 0 <= i < |RootLines(root)| ==> Plain(RootLines(root)[i])
  {
    hide FieldLine;
    FieldLineIsPlain("name", root.name);
    FieldLineIsPlain("version", root.version);
  }

  lemma {:induction false} EntryLinesArePlain(es: seq<Entry>)
    requires AllRepresentable(es)
    ensures forall i :: 0 <= i < |AllEntryLines(es)| ==> Plain(AllEntryLines(es)[i])
    decreases |es|
  {
    hide FieldLine;
    if es != [] {
      FieldLineIsPlain("name", es[0].name);
      FieldLineIsPlain("version", es[0].version);
      FieldLineIsPlain("source", es[0].source);
      EntryLinesArePlain(es[1..]);
    }
  }

  lemma {:induction false} RunConcat(st: State, a: seq<string>, b: seq<string>)
    ensures Run(st, a + b) == Run(Run(st, a), b)
    decreases |a|
  {
    hide Step;
    if a == [] {
      assert a + b == b;
    } else {
      assert (a + b)[1..] == a[1..] + b;
      RunConcat(Step(st, a[0]), a[1..], b);
    }
  }

  /** Where a line ends, lines are read separately on both sides. */
  lemma {:induction false} LinesConcat(a: string, b: string)
    requires a != [] ==> a[|a| - 1] == '\n'
    ensures Lines(a + b) == Lines(a) + Lines(b)
    decreases |a|
  {
    hide Lines, StripReturn;
    if a == [] {
      NoLines();
      assert a + b == b;
    } else {
      var i := IndexOf(a, '\n');
      assert a[|a| - 1] in a && a[..|a|] == a;
      var head, rest := a[..i], a[i + 1..];
      assert a == head + "\n" + rest && a + b == head + "\n" + (rest + b);
      FirstLine(head, rest);
      FirstLine(head, rest + b);
      LinesConcat(rest, b);
    }
  }

  /** Representable dependencies are read behind whatever the root's lines are read as. */
  lemma EntriesFollowRoot(root: Package, resolved: seq<Entry>)
    requires AllRepresentable(resolved)
    ensures Parsed(Generated(root, resolved)) == Parsed(Generated(root, [])) + resolved
  {
    hide Lines, Unlines, Run, FieldLine, RootLines, EntryLines, Step;
    var text, lines := Unlines(RootLines(root)), AllEntryLines(resolved);
    RootText(root);
    UnlinesConcat(RootLines(root), lines);
    LinesConcat(text, Unlines(lines));
    EntryLinesArePlain(resolved);
    LinesOfUnlines(lines);
    RunConcat(START, Lines(text), lines);
    EntriesRead(Run(START, Lines(text)), resolved);
    assert RootLines(root) + AllEntryLines([]) == RootLines(root);
  }

  /** Parsing a generated lockfile gives the resolved dependencies back, in order, exactly when
      every name is nonempty, no field holds a line break or begins or ends with a double quote,
      and no line of the root gives a nonempty name behind a `[[dependency]]` line. */
  lemma RoundTrips(root: Package, resolved: seq<Entry>)
    ensures Parsed(Generated(root, resolved)) == resolved <==>
            AllRepresentable(resolved) && !NamesAny(Lines(Unlines(RootLines(root))))
  {
    hide Parsed, Lines, Unlines, NamesAny, RootLines;
    assert RootLines(root) + AllEntryLines([]) == RootLines(root);
    ParsedIsEmpty(Generated(root, []));
    ParsedIsRepresentable(Generated(root, resolved));
    if AllRepresentable(resolved) { EntriesFollowRoot(root, resolved); }
  }

  /** It is not when its name and version hold no line break. */
  lemma OneLineRootIsSilent(root: Package)
    requires OneLine(root.name) && OneLine(root.version)
    ensures Parsed(Generated(root, [])) == []
  {
    hide Lines, Unlines, Run, FieldLine, RootLines, Step;
    RootLinesArePlain(root);
    LinesOfUnlines(RootLines(root));
    OutsideLines(root);
    assert RootLines(root) + AllEntryLines([]) == RootLines(root) == RootLines(root) + [];
    RunSkips(START, RootLines(root), []);
    RunNothing(START);
  }

  /** The condition on the root is needed. With a line break in its name, a lockfile without
      dependencies parses to one. */
  lemma RootBreaksThrough(root: Package)
    requires root.name == "x\"\n" + DEPENDENCY + "\nname = \"y" && root.version == "1"
    ensures Parsed(Generated(root, [])) == [Entry("y", "1", "")]
  {
    hide Lines, Unlines, Run, FieldLine, Step, Trim;
    var before := [HEADER, "", "[root]", FieldLine("name", "x")];
    var after := [DEPENDENCY, FieldLine("name", "y"), FieldLine("version", "1"), ""];
    assert RootLines(root) + [] == RootLines(root);
    SameText(root);
    FieldLineIsPlain("name", "x");
    FieldLineIsPlain("name", "y");
    FieldLineIsPlain("version", "1");
    LinesOfUnlines(before + after);
    OutsideLines(Package("x", "1"));
    assert forall i :: 0 <= i < 4 ==> before[i] == RootLines(Package("x", "1"))[i];
    RunSkips(START, before, after);
    BlockReads();
  }

  lemma SameText(root: Package)
    requires root.name == "x\"\n" + DEPENDENCY + "\nname = \"y" && root.version == "1"
    ensures Unlines(RootLines(root)) ==
            Unlines([HEADER, "", "[root]", FieldLine("name", "x")] +
                    [DEPENDENCY, FieldLine("name", "y"), FieldLine("version", "1"), ""])
  {
    hide Unlines;
    var a, b := [HEADER, "", "[root]"], [FieldLine("version", "1"), ""];
    var x, y := FieldLine("name", "x"), FieldLine("name", "y");
    assert FieldLine("name", root.name) == x + "\n" + DEPENDENCY + "\n" + y;
    assert RootLines(root) == a + ([FieldLine("name", root.name)] + b);
    UnlinesConcat(a, [FieldLine("name", root.name)] + b);
    Unlines1(FieldLine("name", root.name), b);
    assert [HEADER, "", "[root]", x] + [DEPENDENCY, y, FieldLine("version", "1"), ""] ==
             a + ([x] + ([DEPENDENCY] + ([y] + b)));
    UnlinesConcat(a, [x] + ([DEPENDENCY] + ([y] + b)));
    Unlines1(x, [DEPENDENCY] + ([y] + b));
    Unlines1(DEPENDENCY, [y] + b);
    Unlines1(y, b);
    assert x + "\n" + DEPENDENCY + "\n" + y + "\n" + Unlines(b) ==
             x + "\n" + (DEPENDENCY + "\n" + (y + "\n" + Unlines(b)));
  }

  lemma BlockReads()
    ensures Run(START, [DEPENDENCY, FieldLine("name", "y"), FieldLine("version", "1"), ""]) ==
              State([], "y", "1", "", true)
  {
    hide Run, FieldLine, Trim, FindEquals, TrimQuotes;
    var n, v := FieldLine("name", "y"), FieldLine("version", "1");
    DependencyLineReads();
    FieldLineReads("name", "y");
    FieldLineReads("version", "1");
    assert [DEPENDENCY, n, v, ""] == [DEPENDENCY] + ([n] + ([v] + ([""] + [])));
    RunOne(START, DEPENDENCY, [n] + ([v] + ([""] + [])));
    var s0 := Step(START, DEPENDENCY);
    RunOne(s0, n, [v] + ([""] + []));
    RunOne(Step(s0, n), v, [""] + []);
    RunOne(Step(Step(s0, n), v), "", []);
    RunNothing(Step(Step(s0, n), v));
  }

  lemma RunNothing(st: State)
    ensures Run(st, []) == st
  {
  }

  /** What a lockfile looks like. */
  lemma GeneratedText(root: Package, e: Entry)
    ensures Generated(root, [e]) ==
            ("# coral.lock \U{2014} auto-generated, do not edit" + "\n\n"
             + ("[root]\n" + Quoted("name", root.name) + "\n" + Quoted("version", root.version) + "\n\n"))
            + ("[[dependency]]" + "\n" + Quoted("name", e.name) + "\n" + Quoted("version", e.version) + "\n"
               + Quoted("source", e.source) + "\n\n")
  {
    hide Unlines, RootLines, EntryLines;
    RootText(root);
    EntryText(e);
    assert AllEntryLines([e]) == EntryLines(e) + AllEntryLines([]) == EntryLines(e);
    UnlinesConcat(RootLines(root), EntryLines(e));
    hide FieldLine, Quoted;
    QuotedIs("name", root.name);
    QuotedIs("version", root.version);
    QuotedIs("name", e.name);
    QuotedIs("version", e.version);
    QuotedIs("source", e.source);
  }

  /** A key, an equals sign between spaces, and the value in quotes. */
  function Quoted(key: string, value: string): string { key + (" = " + ("\"" + (value + "\""))) }

  lemma QuotedIs(key: string, value: string)
    ensures FieldLine(key, value) == Quoted(key, value)
  {
  }
}
