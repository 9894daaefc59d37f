/** Collecting modules in import order (src/module_loader.rs). The file system is a map from
    canonical paths to lines, in which every `use` line already says where it resolves to. */
module Modules {
  import opened Ast

  type Path = string

  /** A line is an import, with the file it resolves to if any, or source text. */
  datatype Line = Use(name: string, target: Option<Path>) | Source(text: string)

  type Files = map<Path, seq<Line>>

  datatype LoadError =
    | Circular(trail: seq<Path>)
    | Unreadable(path: Path)
    | Unresolved(path: Path, line: nat)

  datatype Module = Module(path: Path, source: seq<string>, imports: seq<string>)

  type Loaded = Result<seq<Module>, LoadError>

  /** The lines of a file that are not imports. */
  function OwnSource(lines: seq<Line>): seq<string> {
    if lines == [] then []
    else OwnSource(lines[..|lines| - 1]) + (if lines[|lines| - 1].Source? then [lines[|lines| - 1].text] else [])
  }

  function ImportNames(lines: seq<Line>): seq<string> {
    if lines == [] then []
    else ImportNames(lines[..|lines| - 1]) + (if lines[|lines| - 1].Use? then [lines[|lines| - 1].name] else [])
  }

  function ModuleOf(files: Files, path: Path): Module
    requires path in files
  {
    Module(path, OwnSource(files[path]), ImportNames(files[path]))
  }

  predicate Collected(done: seq<Module>, path: Path) { exists k :: 0 <= k < |done| && done[k].path == path }

  function Members(s: seq<Path>): set<Path> { set p | p in s }

  /** The cycle that `path` closes when it is already on the stack. */
  function Trail(stack: seq<Path>, path: Path): seq<Path> {
    if stack == [] then [path] else if stack[0] == path then stack + [path] else Trail(stack[1..], path)
  }

  // ---------------------------------------------------------------- the search

  /** The modules behind those already done, once `path` and its imports are collected; the files
      on the stack are being read. */
  function Visit(files: Files, path: Path, stack: seq<Path>, done: seq<Module>): Loaded
    decreases files.Keys - Members(stack), 0, 0
  {
    if path in stack then Failure(Circular(Trail(stack, path)))
    else if Collected(done, path) then Success(done)
    else if path !in files then Failure(Unreadable(path))
    else
      assert path in files.Keys - Members(stack) && path !in files.Keys - Members(stack + [path]);
      var r := VisitLines(files, path, 0, stack + [path], done);
      if r.Failure? then r else Success(r.value + [ModuleOf(files, path)])
  }

  function VisitLines(files: Files, path: Path, i: nat, stack: seq<Path>, done: seq<Module>): Loaded
    requires path in files && i <= |files[path]|
    decreases files.Keys - Members(stack), 1, |files[path]| - i
  {
    if i == |files[path]| then Success(done)
    else
      match files[path][i]
      case Source(_) => VisitLines(files, path, i + 1, stack, done)
      case Use(_, target) =>
        if target.None? then Failure(Unresolved(path, i + 1))
        else
          var r := Visit(files, target.value, stack, done);
          if r.Failure? then r else VisitLines(files, path, i + 1, stack, r.value)
  }

  /** The prelude first, where there is one, then the entry file. */
  function Load(files: Files, prelude: Option<Path>, entry: Path): Loaded {
    var first := if prelude.Some? then Visit(files, prelude.value, [], []) else Success([]);
    if first.Failure? then first else Visit(files, entry, [], first.value)
  }

  // ---------------------------------------------------------------- the loader

  class ModuleLoader {
    const files: Files
    var stack: seq<Path>
    var visited: set<Path>
    var modules: seq<Module>

    ghost predicate Valid()
      reads this
    {
      forall p :: p in visited <==> Collected(modules, p)
    }

    constructor (files: Files)
      ensures this.files == files && Valid() && stack == [] && modules == []
    {
      this.files := files;
      stack, visited, modules := [], {}, [];
    }

    method CollectModules(path: Path) returns (r: Result<(), LoadError>)
      requires Valid()
      modifies this
      ensures match Visit(files, path, old(stack), old(modules))
              case Success(all) => r == Success(()) && Valid() && modules == all && stack == old(stack)
              case Failure(error) => r == Failure(error)
      decreases files.Keys - Members(stack), 0
    {
      if path in stack {
        var start := 0;
        while stack[start] != path
          invariant start < |stack| && path in stack[start..]
          invariant Trail(stack, path) == Trail(stack[start..], path)
          decreases |stack| - start
        {
          assert stack[start..][1..] == stack[start + 1..];
          start := start + 1;
        }
        return Failure(Circular(stack[start..] + [path]));
      }
      if path in visited { return Success(()); }
      stack := stack + [path];
      if path !in files { return Failure(Unreadable(path)); }
      assert path in files.Keys - Members(old(stack)) && path !in files.Keys - Members(stack);
      var lines := files[path];
      var own: seq<string>, names: seq<string> := [], [];
      var index := 0;
      while index < |lines|
        invariant 0 <= index <= |lines| && Valid() && stack == old(stack) + [path]
        invariant own == OwnSource(lines[..index]) && names == ImportNames(lines[..index])
        invariant VisitLines(files, path, 0, stack, old(modules)) == VisitLines(files, path, index, stack, modules)
      {
        assert lines[..index + 1][..index] == lines[..index];
        match lines[index] {
          case Use(name, target) =>
            if target.None? { return Failure(Unresolved(path, index + 1)); }
            names := names + [name];
            var inner := CollectModules(target.value);
            if inner.Failure? { return inner; }
            assert own + [] == own;
          case Source(text) =>
            own := own + [text];
            assert names + [] == names;
        }
        index := index + 1;
      }
      assert lines[..index] == lines;
      ghost var before := modules;
      stack := stack[..|stack| - 1];
      visited := visited + {path};
      modules := modules + [Module(path, own, names)];
      CollectedNext(before, Module(path, own, names));
      r := Success(());
    }

    method LoadModules(prelude: Option<Path>, entry: Path) returns (r: Loaded)
      requires Valid() && stack == [] && modules == []
      modifies this
      ensures r == Load(files, prelude, entry)
    {
      if prelude.Some? {
        var first := CollectModules(prelude.value);
        if first.Failure? { return Failure(first.error); }
      }
      var second := CollectModules(entry);
      r := if second.Failure? then Failure(second.error) else Success(modules);
    }
  }

  lemma CollectedNext(done: seq<Module>, m: Module)
    ensures forall p :: Collected(done + [m], p) <==> p == m.path || Collected(done, p)
  {
    forall p ensures Collected(done + [m], p) <==> p == m.path || Collected(done, p) {
      if Collected(done, p) {
        var k :| 0 <= k < |done| && done[k].path == p;
        assert (done + [m])[k].path == p;
      }
      assert (done + [m])[|done|] == m;
    }
  }

  // ---------------------------------------------------------------- the import graph

  predicate Imports(files: Files, a: Path, b: Path) {
    a in files && exists i :: 0 <= i < |files[a]| && files[a][i].Use? && files[a][i].target == Some(b)
  }

  predicate Walk(files: Files, w: seq<Path>) {
    w != [] && forall i :: 0 <= i < |w| - 1 ==> Imports(files, w[i], w[i + 1])
  }

  ghost predicate Reaches(files: Files, a: Path, b: Path) {
    exists w: seq<Path> :: Walk(files, w) && w[0] == a && w[|w| - 1] == b
  }

  predicate Cycle(files: Files, w: seq<Path>) { Walk(files, w) && |w| >= 2 && w[0] == w[|w| - 1] }

  predicate Resolved(files: Files, p: Path) {
    p in files && forall i :: 0 <= i < |files[p]| && files[p][i].Use? ==> files[p][i].target.Some?
  }

  /** Nothing reachable is missing, unresolved or on a cycle. */
  ghost predicate Sound(files: Files, a: Path) {
    && (forall p :: Reaches(files, a, p) ==> Resolved(files, p))
    && (forall w :: Cycle(files, w) ==> !Reaches(files, a, w[0]))
  }

  lemma ReachesSelf(files: Files, a: Path)
    ensures Reaches(files, a, a)
  {
    assert Walk(files, [a]);
  }

  lemma ReachesThrough(files: Files, a: Path, b: Path, c: Path)
    requires Imports(files, a, b) && Reaches(files, b, c)
    ensures Reaches(files, a, c)
  {
    var w: seq<Path> :| Walk(files, w) && w[0] == b && w[|w| - 1] == c;
    assert Walk(files, [a] + w) by {
      forall i | 0 <= i < |w| ensures Imports(files, ([a] + w)[i], ([a] + w)[i + 1]) {
        if i > 0 { assert Imports(files, w[i - 1], w[i]); }
      }
    }
  }

  // ---------------------------------------------------------------- what success means

  /** Each module is its file's, stands once, and comes after everything it imports. */
  ghost predicate InOrder(files: Files, done: seq<Module>) {
    && (forall k :: 0 <= k < |done| ==> Resolved(files, done[k].path) && done[k] == ModuleOf(files, done[k].path))
    && (forall i, j :: 0 <= i < j < |done| ==> done[i].path != done[j].path)
    && (forall k, b :: 0 <= k < |done| && Imports(files, done[k].path, b) ==> Collected(done[..k], b))
  }

  /** The modules added to `done` come from below `path` and are not on the stack. */
  ghost predicate Grows(files: Files, path: Path, stack: seq<Path>, done: seq<Module>, all: seq<Module>) {
    && done <= all
    && forall k :: |done| <= k < |all| ==> Reaches(files, path, all[k].path) && all[k].path !in stack
  }

  lemma CollectedInMore(done: seq<Module>, more: seq<Module>, p: Path)
    requires Collected(done, p) && done <= more
    ensures Collected(more, p)
  {
    var k :| 0 <= k < |done| && done[k].path == p;
    assert more[k].path == p;
  }

  lemma {:induction false} VisitKeepsOrder(files: Files, path: Path, stack: seq<Path>, done: seq<Module>)
    requires InOrder(files, done) && Visit(files, path, stack, done).Success?
    ensures var all := Visit(files, path, stack, done).value;
            InOrder(files, all) && Grows(files, path, stack, done, all) && Collected(all, path)
    decreases files.Keys - Members(stack), 0, 0
  {
    hide InOrder;
    if !Collected(done, path) {
      assert path in files.Keys - Members(stack) && path !in files.Keys - Members(stack + [path]);
      VisitLinesKeepsOrder(files, path, 0, stack + [path], done);
      var below := VisitLines(files, path, 0, stack + [path], done).value;
      ReachesSelf(files, path);
      forall k | 0 <= k < |below| ensures below[k].path != path {
        if k < |done| { assert below[k] == done[k]; }
      }
      InOrderNext(files, below, path);
      assert (below + [ModuleOf(files, path)])[|below|].path == path;
    }
  }

  lemma InOrderNext(files: Files, done: seq<Module>, path: Path)
    requires InOrder(files, done) && !Collected(done, path) && Resolved(files, path)
    requires forall b :: Imports(files, path, b) ==> Collected(done, b)
    ensures InOrder(files, done + [ModuleOf(files, path)])
  {
    var all := done + [ModuleOf(files, path)];
    forall k, b | 0 <= k < |all| && Imports(files, all[k].path, b) ensures Collected(all[..k], b) {
      if k < |done| {
        assert all[..k] == done[..k] && all[k] == done[k];
      } else {
        assert all[..k] == done;
      }
    }
    forall i, j | 0 <= i < j < |all| ensures all[i].path != all[j].path {
      if j == |done| { assert all[i] == done[i]; }
    }
  }

  lemma {:induction false} VisitLinesKeepsOrder(files: Files, path: Path, i: nat, stack: seq<Path>, done: seq<Module>)
    requires path in files && i <= |files[path]| && InOrder(files, done)
    requires VisitLines(files, path, i, stack, done).Success?
    ensures var all := VisitLines(files, path, i, stack, done).value;
            && InOrder(files, all) && Grows(files, path, stack, done, all)
            && forall k :: i <= k < |files[path]| && files[path][k].Use? ==>
                 files[path][k].target.Some? && Collected(all, files[path][k].target.value)
    decreases files.Keys - Members(stack), 1, |files[path]| - i
  {
    hide InOrder, Collected;
    if i < |files[path]| {
      match files[path][i]
      case Source(_) => VisitLinesKeepsOrder(files, path, i + 1, stack, done);
      case Use(_, target) =>
        var b := target.value;
        VisitKeepsOrder(files, b, stack, done);
        var mid := Visit(files, b, stack, done).value;
        VisitLinesKeepsOrder(files, path, i + 1, stack, mid);
        var all := VisitLines(files, path, i, stack, done).value;
        CollectedInMore(mid, all, b);
        assert Imports(files, path, b);
        forall k | |done| <= k < |mid| ensures Reaches(files, path, all[k].path) && all[k].path !in stack {
          ReachesThrough(files, path, b, mid[k].path);
        }
    }
  }

  /** From a collected module every walk leads to modules collected before it. */
  lemma {:induction false} WalksLeadBack(files: Files, done: seq<Module>, w: seq<Path>, k: nat)
    requires InOrder(files, done) && k < |done| && Walk(files, w) && w[0] == done[k].path
    ensures exists j :: 0 <= j <= k && done[j].path == w[|w| - 1] && (|w| > 1 ==> j < k)
    decreases |w|
  {
    if |w| > 1 {
      assert Imports(files, w[0], w[1]);
      assert Collected(done[..k], w[1]);
      var n :| 0 <= n < k && done[..k][n].path == w[1];
      assert done[n].path == w[1];
      assert Walk(files, w[1..]) by {
        forall i | 0 <= i < |w| - 2 ensures Imports(files, w[1..][i], w[1..][i + 1]) {
          assert Imports(files, w[i + 1], w[i + 2]);
        }
      }
      WalksLeadBack(files, done, w[1..], n);
    }
  }

  lemma CollectedIsSound(files: Files, done: seq<Module>, a: Path)
    requires InOrder(files, done) && Collected(done, a)
    ensures Sound(files, a) && forall p :: Reaches(files, a, p) ==> Collected(done, p)
  {
    var k :| 0 <= k < |done| && done[k].path == a;
    forall p | Reaches(files, a, p) ensures Collected(done, p) && Resolved(files, p) {
      var w: seq<Path> :| Walk(files, w) && w[0] == a && w[|w| - 1] == p;
      WalksLeadBack(files, done, w, k);
    }
    forall w | Cycle(files, w) ensures !Reaches(files, a, w[0]) {
      if Reaches(files, a, w[0]) {
        var n :| 0 <= n < |done| && done[n].path == w[0];
        WalksLeadBack(files, done, w, n);
      }
    }
  }

  // ---------------------------------------------------------------- what failure means

  /** The error names something wrong that `path` reaches. */
  ghost predicate Justified(files: Files, path: Path, error: LoadError) {
    match error
    case Circular(trail) => Cycle(files, trail) && Reaches(files, path, trail[0])
    case Unreadable(p) => Reaches(files, path, p) && p !in files
    case Unresolved(p, line) =>
      && Reaches(files, path, p) && p in files && 1 <= line <= |files[p]|
      && files[p][line - 1].Use? && files[p][line - 1].target.None?
  }

  /** The stack is a walk that ends with an import of `path`. */
  predicate LeadsTo(files: Files, stack: seq<Path>, path: Path) {
    stack == [] || (Walk(files, stack) && Imports(files, stack[|stack| - 1], path))
  }

  lemma {:induction false} TrailIsCycle(files: Files, stack: seq<Path>, path: Path)
    requires LeadsTo(files, stack, path) && path in stack
    ensures Cycle(files, Trail(stack, path)) && Trail(stack, path)[0] == path
    decreases |stack|
  {
    if stack[0] == path {
      var w := stack + [path];
      forall i | 0 <= i < |w| - 1 ensures Imports(files, w[i], w[i + 1]) {
        if i < |stack| - 1 { assert Imports(files, stack[i], stack[i + 1]); }
      }
    } else {
      var rest := stack[1..];
      forall i | 0 <= i < |rest| - 1 ensures Imports(files, rest[i], rest[i + 1]) {
        assert Imports(files, stack[i + 1], stack[i + 2]);
      }
      TrailIsCycle(files, rest, path);
    }
  }

  lemma WalkNext(files: Files, stack: seq<Path>, path: Path)
    requires LeadsTo(files, stack, path)
    ensures Walk(files, stack + [path])
  {
    var w := stack + [path];
    forall i | 0 <= i < |w| - 1 ensures Imports(files, w[i], w[i + 1]) {
      if i < |stack| - 1 { assert Imports(files, stack[i], stack[i + 1]); }
    }
  }

  lemma {:induction false} VisitFailsRightly(files: Files, path: Path, stack: seq<Path>, done: seq<Module>)
    requires LeadsTo(files, stack, path) && Visit(files, path, stack, done).Failure?
    ensures Justified(files, path, Visit(files, path, stack, done).error)
    decreases files.Keys - Members(stack), 0, 0
  {
    ReachesSelf(files, path);
    if path in stack {
      TrailIsCycle(files, stack, path);
    } else if path in files {
      assert path in files.Keys - Members(stack) && path !in files.Keys - Members(stack + [path]);
      WalkNext(files, stack, path);
      VisitLinesFailsRightly(files, path, 0, stack + [path], done);
    }
  }

  lemma {:induction false} VisitLinesFailsRightly(files: Files, path: Path, i: nat, stack: seq<Path>, done: seq<Module>)
    requires path in files && i <= |files[path]| && Walk(files, stack) && stack[|stack| - 1] == path
    requires VisitLines(files, path, i, stack, done).Failure?
    ensures Justified(files, path, VisitLines(files, path, i, stack, done).error)
    decreases files.Keys - Members(stack), 1, |files[path]| - i
  {
    hide Walk, Reaches;
    match files[path][i]
    case Source(_) => VisitLinesFailsRightly(files, path, i + 1, stack, done);
    case Use(_, target) =>
      if target.None? {
        ReachesSelf(files, path);
      } else {
        var b := target.value;
        assert Imports(files, path, b);
        var r := Visit(files, b, stack, done);
        if r.Failure? {
          VisitFailsRightly(files, b, stack, done);
          match r.error
          case Circular(trail) => ReachesThrough(files, path, b, trail[0]);
          case Unreadable(p) => ReachesThrough(files, path, b, p);
          case Unresolved(p, _) => ReachesThrough(files, path, b, p);
        } else {
          VisitLinesFailsRightly(files, path, i + 1, stack, r.value);
        }
      }
  }

  lemma JustifiedIsUnsound(files: Files, path: Path, error: LoadError)
    requires Justified(files, path, error)
    ensures !Sound(files, path)
  {
    match error
    case Circular(trail) => assert Cycle(files, trail);
    case Unreadable(p) => assert !Resolved(files, p);
    case Unresolved(p, line) =>
      assert files[p][line - 1].Use? && files[p][line - 1].target.None?;
      assert !Resolved(files, p);
  }

  // ---------------------------------------------------------------- the main theorem

  /** Collecting succeeds exactly when nothing that the prelude or the entry reaches is missing,
      unresolved or on a cycle. Then every file they reach is collected exactly once, with its
      own source, after everything it imports; otherwise the error names something wrong that
      one of them reaches, and a circular import is reported with an actual cycle. */
  lemma LoadIsTopological(files: Files, prelude: Option<Path>, entry: Path)
    ensures var r := Load(files, prelude, entry);
            && (r.Success? <==> Sound(files, entry) && (prelude.Some? ==> Sound(files, prelude.value)))
            && (r.Success? ==> InOrder(files, r.value) && forall p :: Collected(r.value, p) <==>
                  Reaches(files, entry, p) || (prelude.Some? && Reaches(files, prelude.value, p)))
            && (r.Failure? ==>
                  (Justified(files, entry, r.error) || (prelude.Some? && Justified(files, prelude.value, r.error))))
  {
    hide Visit, InOrder, Sound, Reaches, Collected;
    var none: seq<Module> := [];
    assert InOrder(files, none) by { NothingInOrder(files); }
    var first := if prelude.Some? then Visit(files, prelude.value, [], none) else Success(none);
    if prelude.Some? { VisitOnce(files, prelude.value, none); }
    if first.Success? {
      VisitOnce(files, entry, first.value);
      var r := Visit(files, entry, [], first.value);
      if r.Success? {
        if prelude.Some? {
          CollectedInMore(first.value, r.value, prelude.value);
          CollectedIsSound(files, r.value, prelude.value);
        }
        forall p | Collected(r.value, p) && !Reaches(files, entry, p)
          ensures prelude.Some? && Reaches(files, prelude.value, p)
        {
          CollectedSplits(files, entry, first.value, r.value, p);
          if prelude.Some? {
            CollectedSplits(files, prelude.value, none, first.value, p);
            NothingCollected(p);
          } else {
            NothingCollected(p);
          }
        }
      }
    }
  }

  lemma NothingInOrder(files: Files)
    ensures InOrder(files, [])
  {
  }

  lemma NothingCollected(p: Path)
    ensures !Collected([], p)
  {
  }

  lemma CollectedSplits(files: Files, path: Path, done: seq<Module>, all: seq<Module>, p: Path)
    requires Grows(files, path, [], done, all) && Collected(all, p)
    ensures Collected(done, p) || Reaches(files, path, p)
  {
    var k :| 0 <= k < |all| && all[k].path == p;
    if k < |done| { assert done[k].path == p; }
  }

  lemma VisitOnce(files: Files, path: Path, done: seq<Module>)
    requires InOrder(files, done)
    ensures var r := Visit(files, path, [], done);
            && (r.Success? <==> Sound(files, path))
            && (r.Success? ==> InOrder(files, r.value) && Grows(files, path, [], done, r.value)
                               && Collected(r.value, path)
                               && forall p :: Reaches(files, path, p) ==> Collected(r.value, p))
            && (r.Failure? ==> Justified(files, path, r.error))
  {
    hide Visit, InOrder, Sound, Reaches, Collected;
    var r := Visit(files, path, [], done);
    if r.Success? {
      VisitKeepsOrder(files, path, [], done);
      CollectedIsSound(files, r.value, path);
    } else {
      VisitFailsRightly(files, path, [], done);
      JustifiedIsUnsound(files, path, r.error);
    }
  }

  // ---------------------------------------------------------------- the order of the modules

  predicate Before(all: seq<Module>, x: Path, q: nat)
    requires q <= |all|
  {
    Collected(all[..q], x)
  }

  lemma BeforeLater(all: seq<Module>, more: seq<Module>, x: Path, q: nat)
    requires Collected(all, x) && all <= more && |all| <= q <= |more|
    ensures Before(more, x, q)
  {
    var k :| 0 <= k < |all| && all[k].path == x;
    assert more[..q][k].path == x;
  }

  /** An import from line `i` on, up to line `l`, leads to `y`. */
  ghost predicate LedTo(files: Files, path: Path, i: nat, l: nat, y: Path)
    requires path in files && l < |files[path]|
  {
    exists n :: i <= n <= l && LineReaches(files, path, n, y)
  }

  ghost predicate LineReaches(files: Files, path: Path, n: nat, y: Path)
    requires path in files && n < |files[path]|
  {
    var line := files[path][n];
    line.Use? && line.target.Some? && Reaches(files, line.target.value, y)
  }

  /** Of the modules behind those already done, what a line leads to comes before what only later
      lines lead to. */
  ghost predicate LineOrder(files: Files, path: Path, i: nat, done: nat, all: seq<Module>)
    requires path in files && done <= |all|
  {
    forall l: nat, x, q: nat ::
      && i <= l < |files[path]| && done <= q < |all|
      && LineReaches(files, path, l, x) && !LedTo(files, path, i, l, all[q].path)
      ==> Before(all, x, q)
  }

  lemma {:induction false} VisitLinesInOrder(files: Files, path: Path, i: nat, stack: seq<Path>, done: seq<Module>)
    requires path in files && i <= |files[path]| && InOrder(files, done)
    requires VisitLines(files, path, i, stack, done).Success?
    ensures var all := VisitLines(files, path, i, stack, done).value;
            && InOrder(files, all) && Grows(files, path, stack, done, all) && LineOrder(files, path, i, |done|, all)
            && forall l, x :: i <= l < |files[path]| && LineReaches(files, path, l, x) ==> Collected(all, x)
    decreases |files[path]| - i
  {
    hide InOrder, Collected, Reaches, Before;
    VisitLinesKeepsOrder(files, path, i, stack, done);
    if i < |files[path]| {
      var line := files[path][i];
      if line.Source? {
        VisitLinesInOrder(files, path, i + 1, stack, done);
        var all := VisitLines(files, path, i, stack, done).value;
        SourceInOrder(files, path, i, |done|, all);
      } else {
        var b := line.target.value;
        VisitKeepsOrder(files, b, stack, done);
        var mid := Visit(files, b, stack, done).value;
        CollectedIsSound(files, mid, b);
        VisitLinesInOrder(files, path, i + 1, stack, mid);
        var all := VisitLines(files, path, i, stack, done).value;
        UseInOrder(files, path, i, done, mid, all, stack);
        forall x | LineReaches(files, path, i, x) ensures Collected(all, x) { CollectedInMore(mid, all, x); }
      }
    }
  }

  lemma SourceInOrder(files: Files, path: Path, i: nat, done: nat, all: seq<Module>)
    requires path in files && done <= |all| && i < |files[path]| && files[path][i].Source?
    requires LineOrder(files, path, i + 1, done, all)
    ensures LineOrder(files, path, i, done, all)
  {
    hide Before;
    forall l: nat, x, q: nat | i <= l < |files[path]| && done <= q < |all| && LineReaches(files, path, l, x)
                               && !LedTo(files, path, i, l, all[q].path)
      ensures Before(all, x, q)
    {
      assert l > i && !LedTo(files, path, i + 1, l, all[q].path);
    }
  }

  lemma UseInOrder(files: Files, path: Path, i: nat, done: seq<Module>, mid: seq<Module>, all: seq<Module>,
                   stack: seq<Path>)
    requires path in files && i < |files[path]| && files[path][i].Use? && files[path][i].target.Some?
    requires Grows(files, files[path][i].target.value, stack, done, mid) && mid <= all
    requires forall x :: Reaches(files, files[path][i].target.value, x) ==> Collected(mid, x)
    requires LineOrder(files, path, i + 1, |mid|, all)
    ensures LineOrder(files, path, i, |done|, all)
  {
    hide Before, Collected, Reaches;
    forall n | |done| <= n < |mid| ensures LineReaches(files, path, i, all[n].path) { assert all[n] == mid[n]; }
    forall l: nat, x, q: nat | i <= l < |files[path]| && |done| <= q < |all| && LineReaches(files, path, l, x)
                               && !LedTo(files, path, i, l, all[q].path)
      ensures Before(all, x, q)
    {
      assert q >= |mid|;
      if l == i {
        BeforeLater(mid, all, x, q);
      } else {
        assert !LedTo(files, path, i + 1, l, all[q].path);
      }
    }
  }

  /** What is collected below a file keeps the order of its lines, and the file comes last. */
  lemma VisitInOrder(files: Files, path: Path, stack: seq<Path>, done: seq<Module>)
    requires InOrder(files, done) && Visit(files, path, stack, done).Success? && !Collected(done, path)
    ensures var all := Visit(files, path, stack, done).value;
            && path in files && done <= all && LineOrder(files, path, 0, |done|, all)
            && all != [] && all[|all| - 1].path == path
  {
    hide InOrder, Reaches, Collected, Before, Visit;
    VisitKeepsOrder(files, path, stack, done);
    assert path in files && path !in stack && VisitLines(files, path, 0, stack + [path], done).Success?
           && Visit(files, path, stack, done).value
              == VisitLines(files, path, 0, stack + [path], done).value + [ModuleOf(files, path)] by {
      VisitUnfolds(files, path, stack, done);
    }
    VisitLinesInOrder(files, path, 0, stack + [path], done);
    var below := VisitLines(files, path, 0, stack + [path], done).value;
    var all := Visit(files, path, stack, done).value;
    forall l: nat, x, q: nat | l < |files[path]| && |done| <= q < |all| && LineReaches(files, path, l, x)
                               && !LedTo(files, path, 0, l, all[q].path)
      ensures Before(all, x, q)
    {
      if q < |below| {
        assert Before(below, x, q);
        BeforeSame(below, all, x, q);
      } else {
        BeforeLater(below, all, x, q);
      }
    }
  }

  lemma BeforeSame(all: seq<Module>, more: seq<Module>, x: Path, q: nat)
    requires q < |all| && all <= more && Before(all, x, q)
    ensures Before(more, x, q)
  {
    assert more[..q] == all[..q];
  }

  lemma VisitUnfolds(files: Files, path: Path, stack: seq<Path>, done: seq<Module>)
    requires Visit(files, path, stack, done).Success? && !Collected(done, path)
    ensures path in files && path !in stack && VisitLines(files, path, 0, stack + [path], done).Success?
    ensures Visit(files, path, stack, done).value
         == VisitLines(files, path, 0, stack + [path], done).value + [ModuleOf(files, path)]
  {
  }

  /** What the prelude reaches comes first. Behind it, what a line of the entry file leads to comes
      before what only later lines lead to, and the entry file is last; and so it is again below
      every file, when it is collected. */
  lemma LoadIsInOrder(files: Files, prelude: Option<Path>, entry: Path)
    requires Load(files, prelude, entry).Success?
    ensures var all := Load(files, prelude, entry).value;
            var first := if prelude.Some? then Visit(files, prelude.value, [], []) else Success([]);
            && first.Success? && first.value <= all
            && (forall p :: Collected(first.value, p) <==> prelude.Some? && Reaches(files, prelude.value, p))
            && (!Collected(first.value, entry) ==>
                  && entry in files && LineOrder(files, entry, 0, |first.value|, all)
                  && all != [] && all[|all| - 1].path == entry)
            && (Collected(first.value, entry) ==> all == first.value)
  {
    hide Visit, InOrder, Reaches, Collected, Sound, LineOrder;
    var none: seq<Module> := [];
    assert InOrder(files, none) by { NothingInOrder(files); }
    var first := if prelude.Some? then Visit(files, prelude.value, [], none) else Success(none);
    forall p ensures !Collected(none, p) { NothingCollected(p); }
    if prelude.Some? {
      VisitOnce(files, prelude.value, none);
      forall p | Collected(first.value, p) ensures Reaches(files, prelude.value, p) {
        CollectedSplits(files, prelude.value, none, first.value, p);
      }
    }
    if Collected(first.value, entry) {
      AlreadyCollected(files, entry, first.value);
    } else {
      VisitInOrder(files, entry, [], first.value);
    }
  }

  lemma AlreadyCollected(files: Files, path: Path, done: seq<Module>)
    requires Collected(done, path)
    ensures Visit(files, path, [], done) == Success(done)
  {
  }

  // ---------------------------------------------------------------- which error is reported

  /** Line `l` is the first of the file's imports that leads to something wrong, and the error is
      about what it leads to. */
  ghost predicate FirstWrong(files: Files, path: Path, i: nat, l: nat, error: LoadError) {
    && path in files && i <= l < |files[path]| && files[path][l].Use?
    && (forall n :: i <= n < l && files[path][n].Use? ==>
          files[path][n].target.Some? && Sound(files, files[path][n].target.value))
    && match files[path][l].target
       case None => error == Unresolved(path, l + 1)
       case Some(b) => !Sound(files, b) && Justified(files, b, error)
  }

  lemma {:induction false} FirstWrongLine(files: Files, path: Path, i: nat, stack: seq<Path>, done: seq<Module>)
    returns (l: nat)
    requires path in files && i <= |files[path]| && Walk(files, stack) && stack[|stack| - 1] == path
    requires InOrder(files, done) && VisitLines(files, path, i, stack, done).Failure?
    ensures FirstWrong(files, path, i, l, VisitLines(files, path, i, stack, done).error)
    decreases |files[path]| - i
  {
    hide Walk, Sound, InOrder, Justified, Visit;
    match files[path][i]
    case Source(_) => l := FirstWrongLine(files, path, i + 1, stack, done);
    case Use(_, target) =>
      l := i;
      if target.Some? {
        var b := target.value;
        assert Imports(files, path, b);
        var r := Visit(files, b, stack, done);
        if r.Failure? {
          VisitFailsRightly(files, b, stack, done);
          JustifiedIsUnsound(files, b, r.error);
        } else {
          VisitKeepsOrder(files, b, stack, done);
          CollectedIsSound(files, r.value, b);
          l := FirstWrongLine(files, path, i + 1, stack, r.value);
        }
      }
  }

  /** When a file that is not being read and can be read fails to load, the error is about its first
      wrong import; and so it is in the file that import names. */
  lemma FirstErrorIsReported(files: Files, path: Path, stack: seq<Path>, done: seq<Module>) returns (l: nat)
    requires LeadsTo(files, stack, path) && InOrder(files, done) && path in files && path !in stack
    requires Visit(files, path, stack, done).Failure?
    ensures FirstWrong(files, path, 0, l, Visit(files, path, stack, done).error)
  {
    hide InOrder, FirstWrong, Walk;
    WalkNext(files, stack, path);
    l := FirstWrongLine(files, path, 0, stack + [path], done);
  }

  /** The prelude's error comes before the entry's. */
  lemma PreludeErrorsFirst(files: Files, prelude: Option<Path>, entry: Path)
    requires Load(files, prelude, entry).Failure?
    ensures var error := Load(files, prelude, entry).error;
            if prelude.Some? && !Sound(files, prelude.value) then Justified(files, prelude.value, error)
            else Justified(files, entry, error)
  {
    hide Visit, InOrder, Sound, Reaches, Collected, Justified;
    var none: seq<Module> := [];
    assert InOrder(files, none) by { NothingInOrder(files); }
    if prelude.Some? { VisitOnce(files, prelude.value, none); }
    var first := if prelude.Some? then Visit(files, prelude.value, [], none) else Success(none);
    if first.Success? { VisitOnce(files, entry, first.value); }
  }

  // ---------------------------------------------------------------- the source of a module

  /** A module's source is its lines that are not imports, and its imports are the others, both in
      the order of the lines. */
  lemma {:induction false} LinesAreSplit(a: seq<Line>, b: seq<Line>, name: string, target: Option<Path>, text: string)
    ensures OwnSource(a + b) == OwnSource(a) + OwnSource(b) && ImportNames(a + b) == ImportNames(a) + ImportNames(b)
    ensures OwnSource([Source(text)]) == [text] && ImportNames([Source(text)]) == []
    ensures OwnSource([Use(name, target)]) == [] && ImportNames([Use(name, target)]) == [name]
    decreases |b|
  {
    if b == [] {
      assert a + b == a;
    } else {
      var n := |b| - 1;
      assert (a + b)[..|a + b| - 1] == a + b[..n];
      LinesAreSplit(a, b[..n], name, target, text);
    }
  }
}
