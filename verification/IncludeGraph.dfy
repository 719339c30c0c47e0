/** What expansion does with the graph of includes: which programs it accepts, what the
    combined text consists of. */
module IncludeGraph {
  import opened Includes
  import opened Options

  // ---------------------------------------------------------------------------
  // The graph
  // ---------------------------------------------------------------------------

  /** Line `i` of file `a` (counting from 0) includes file `b`. */
  ghost predicate LineIncludes(fs: Files, a: Path, i: nat, b: Path) {
    a in fs.lines && i < |fs.lines[a]| && IncludeOf(fs.lines[a][i]).Some? &&
    (a, IncludeOf(fs.lines[a][i]).value) in fs.search &&
    fs.Canon(fs.search[(a, IncludeOf(fs.lines[a][i]).value)]) == b
  }

  ghost predicate Edge(fs: Files, a: Path, b: Path) {
    exists i :: LineIncludes(fs, a, i, b)
  }

  /** The file does not exist, or an include in it leads nowhere. */
  ghost predicate Broken(fs: Files, a: Path) {
    a !in fs.lines ||
    exists i :: 0 <= i < |fs.lines[a]| && IncludeOf(fs.lines[a][i]).Some? &&
      (a, IncludeOf(fs.lines[a][i]).value) !in fs.search
  }

  ghost predicate Walk(fs: Files, w: seq<Path>) {
    |w| > 0 && forall k :: 1 <= k < |w| ==> Edge(fs, w[k - 1], w[k])
  }

  ghost predicate OnCycle(fs: Files, a: Path) {
    exists w :: Walk(fs, w) && |w| > 1 && w[0] == a && w[|w| - 1] == a
  }

  ghost predicate Reaches(fs: Files, a: Path, b: Path) {
    exists w :: Walk(fs, w) && w[0] == a && w[|w| - 1] == b
  }

  lemma {:induction false} ReachesSelf(fs: Files, a: Path)
    ensures Reaches(fs, a, a)
  {
    assert Walk(fs, [a]) && [a][0] == a;
  }

  lemma {:induction false} ReachesThen(fs: Files, a: Path, b: Path, c: Path)
    requires Edge(fs, a, b) && Reaches(fs, b, c)
    ensures Reaches(fs, a, c)
  {
    var w :| Walk(fs, w) && w[0] == b && w[|w| - 1] == c;
    var v := [a] + w;
    assert Walk(fs, v) && v[0] == a && v[|v| - 1] == c;
  }

  /** A set closed under includes is not left. */
  lemma {:induction false} WalkStays(fs: Files, w: seq<Path>, s: set<Path>, k: nat)
    requires Walk(fs, w) && k < |w| && w[0] in s
    requires forall a, b :: a in s && Edge(fs, a, b) ==> b in s
    ensures w[k] in s
  {
    if k > 0 {
      WalkStays(fs, w, s, k - 1);
    }
  }

  // ---------------------------------------------------------------------------
  // Success means no cycle and nothing missing
  // ---------------------------------------------------------------------------

  /** Files that are done and no longer being expanded are finished: what they include is
      finished too, nothing is missing, and no chain of includes leads back. */
  ghost predicate Finished(fs: Files, done: set<Path>, stack: seq<Path>) {
    forall f :: f in done && f !in stack ==> Settled(fs, f, done, stack) && !OnCycle(fs, f)
  }

  ghost predicate Settled(fs: Files, f: Path, done: set<Path>, stack: seq<Path>) {
    !Broken(fs, f) && forall b :: Edge(fs, f, b) ==> b in done && b !in stack
  }

  /** The lines before `i` of file `f` include finished files only. */
  ghost predicate SettledFrom(fs: Files, f: Path, i: nat, done: set<Path>, stack: seq<Path>) {
    f in fs.lines &&
    forall j :: i <= j < |fs.lines[f]| && IncludeOf(fs.lines[f][j]).Some? ==> LineSettled(fs, f, j, done, stack)
  }

  ghost predicate LineSettled(fs: Files, f: Path, j: nat, done: set<Path>, stack: seq<Path>)
    requires f in fs.lines && j < |fs.lines[f]| && IncludeOf(fs.lines[f][j]).Some?
  {
    (f, IncludeOf(fs.lines[f][j]).value) in fs.search &&
    var b := fs.Canon(fs.search[(f, IncludeOf(fs.lines[f][j]).value)]);
    b in done && b !in stack
  }

  lemma {:induction false} SettledWhole(fs: Files, f: Path, done: set<Path>, stack: seq<Path>)
    requires SettledFrom(fs, f, 0, done, stack)
    ensures Settled(fs, f, done, stack)
  {
    hide IncludeOf;
    forall b | Edge(fs, f, b)
      ensures b in done && b !in stack
    {
      var i :| LineIncludes(fs, f, i, b);
      assert LineSettled(fs, f, i, done, stack);
    }
  }

  /** A file on the stack whose includes are all finished is on no cycle. */
  lemma {:induction false} NoWayBack(fs: Files, c: Path, done: set<Path>, stack: seq<Path>)
    requires Finished(fs, done, stack) && Settled(fs, c, done, stack) && c in stack
    ensures !OnCycle(fs, c)
  {
    hide Broken, OnCycle;
    var s := set f | f in done && f !in stack;
    if OnCycle(fs, c) {
      CycleInside(fs, c, s);
    }
  }

  lemma {:induction false} CycleInside(fs: Files, c: Path, s: set<Path>)
    requires OnCycle(fs, c)
    requires forall a, b :: a in s && Edge(fs, a, b) ==> b in s
    requires forall b :: Edge(fs, c, b) ==> b in s
    ensures c in s
  {
    var w :| Walk(fs, w) && |w| > 1 && w[0] == c && w[|w| - 1] == c;
    var v := w[1..];
    assert Edge(fs, w[0], w[1]);
    assert Walk(fs, v) by {
      forall k | 1 <= k < |v|
        ensures Edge(fs, v[k - 1], v[k])
      {
        assert Edge(fs, w[k], w[k + 1]);
      }
    }
    WalkStays(fs, v, s, |v| - 1);
  }

  /** The file leaves the stack. */
  lemma {:induction false} PopFinished(fs: Files, c: Path, done: set<Path>, stack: seq<Path>)
    requires Finished(fs, done, stack + [c]) && Settled(fs, c, done, stack + [c]) && c !in stack
    ensures Finished(fs, done, stack) && !OnCycle(fs, c) && Settled(fs, c, done, stack)
  {
    hide OnCycle, Broken;
    NoWayBack(fs, c, done, stack + [c]);
  }

  lemma {:induction false} ExpandFinished(fs: Files, path: Path, included: bool, stack: seq<Path>, done: set<Path>)
    requires Finished(fs, done, stack) && (!included ==> fs.Canon(path) !in done)
    ensures var r, c := ExpandSpec(fs, path, included, stack, done), fs.Canon(path);
            r.Expanded? ==>
              && Finished(fs, r.done, stack) && c !in stack
              && (included ==> c in r.done)
              && (!included ==> Settled(fs, c, r.done, stack) && !OnCycle(fs, c))
    decreases 2 * |fs.lines.Keys - done| + (if included then 0 else 2), 0
  {
    hide LinesSpec, Settled, OnCycle;
    var c := fs.Canon(path);
    if c !in stack && !(included && c in done) && c in fs.lines {
      Shrinks(fs.lines.Keys, done, c);
      var d := if included then done + {c} else done;
      var r := LinesSpec(fs, path, 0, stack + [c], d);
      PushFinished(fs, c, done, stack, d);
      LinesFinished(fs, path, 0, stack + [c], d);
      if r.Expanded? {
        SettledWhole(fs, c, r.done, stack + [c]);
        PopFinished(fs, c, r.done, stack);
      }
    }
  }

  /** The file enters the stack, and is marked done when it is an include. */
  lemma {:induction false} PushFinished(fs: Files, c: Path, done: set<Path>, stack: seq<Path>, d: set<Path>)
    requires Finished(fs, done, stack) && c !in done && c !in stack && (d == done || d == done + {c})
    ensures Finished(fs, d, stack + [c])
  {
    hide OnCycle, Broken;
    forall f | f in d && f !in stack + [c]
      ensures Settled(fs, f, d, stack + [c]) && !OnCycle(fs, f)
    {
      assert f in done && f !in stack;
    }
  }

  lemma {:induction false} LinesFinished(fs: Files, path: Path, i: nat, stack: seq<Path>, done: set<Path>)
    requires fs.Canon(path) in fs.lines && i <= |fs.lines[fs.Canon(path)]|
    requires Finished(fs, done, stack)
    ensures var r := LinesSpec(fs, path, i, stack, done);
            r.Expanded? ==> Finished(fs, r.done, stack) && SettledFrom(fs, fs.Canon(path), i, r.done, stack)
    decreases 2 * |fs.lines.Keys - done| + 1, |fs.lines[fs.Canon(path)]| - i
  {
    hide ExpandSpec, IncludeOf, Finished;
    var c := fs.Canon(path);
    var lines := fs.lines[c];
    if i < |lines| {
      match IncludeOf(lines[i])
      case None =>
        LinesFinished(fs, path, i + 1, stack, done);
      case Some(inc) =>
        if fs.Search(path, inc).Some? {
          var child := fs.Search(path, inc).value;
          ExpandFinished(fs, child, true, stack, done);
          var e := ExpandSpec(fs, child, true, stack, done);
          if e.Expanded? {
            Subset(fs.lines.Keys - e.done, fs.lines.Keys - done);
            LinesFinished(fs, path, i + 1, stack, e.done);
          }
        }
    }
  }

  // ---------------------------------------------------------------------------
  // Failure means a cycle or something missing
  // ---------------------------------------------------------------------------

  /** The files being expanded include each other in turn, and the last one includes `c`. */
  ghost predicate LeadsTo(fs: Files, stack: seq<Path>, c: Path) {
    |stack| > 0 ==> Walk(fs, stack) && Edge(fs, stack[|stack| - 1], c)
  }

  lemma {:induction false} BackOnStack(fs: Files, stack: seq<Path>, c: Path)
    requires LeadsTo(fs, stack, c) && c in stack
    ensures OnCycle(fs, c)
  {
    hide Edge;
    var k :| 0 <= k < |stack| && stack[k] == c;
    var w := stack[k..] + [c];
    assert Walk(fs, w) by {
      forall j | 1 <= j < |w|
        ensures Edge(fs, w[j - 1], w[j])
      {
        assert w[j - 1] == stack[k + j - 1];
      }
    }
    assert w[0] == c && w[|w| - 1] == c;
  }

  lemma {:induction false} OntoStack(fs: Files, stack: seq<Path>, c: Path)
    requires LeadsTo(fs, stack, c)
    ensures Walk(fs, stack + [c])
  {}

  /** A failure names its cause: a file reached from `c` that includes itself through others,
      or one that is missing or includes a missing file. */
  ghost predicate TrueCause(fs: Files, c: Path, r: Expansion)
    requires !r.Expanded?
  {
    var x := fs.Canon(r.file);
    Reaches(fs, c, x) && if r.Circular? then OnCycle(fs, x) else Broken(fs, x)
  }

  lemma {:induction false} ExpandFails(fs: Files, path: Path, included: bool, stack: seq<Path>, done: set<Path>)
    requires LeadsTo(fs, stack, fs.Canon(path)) && !ExpandSpec(fs, path, included, stack, done).Expanded?
    ensures TrueCause(fs, fs.Canon(path), ExpandSpec(fs, path, included, stack, done))
    decreases 2 * |fs.lines.Keys - done| + (if included then 0 else 2), 0
  {
    hide LinesSpec, OnCycle, Reaches, LeadsTo, Walk;
    var x := fs.Canon(path);
    ReachesSelf(fs, x);
    if x in stack {
      BackOnStack(fs, stack, x);
    } else if x in fs.lines {
      Shrinks(fs.lines.Keys, done, x);
      OntoStack(fs, stack, x);
      LinesFail(fs, path, 0, stack + [x], if included then done + {x} else done);
    }
  }

  lemma {:induction false} LinesFail(fs: Files, path: Path, i: nat, stack: seq<Path>, done: set<Path>)
    requires fs.Canon(path) in fs.lines && i <= |fs.lines[fs.Canon(path)]|
    requires Walk(fs, stack) && stack[|stack| - 1] == fs.Canon(path)
    requires !LinesSpec(fs, path, i, stack, done).Expanded?
    ensures TrueCause(fs, fs.Canon(path), LinesSpec(fs, path, i, stack, done))
    decreases 2 * |fs.lines.Keys - done| + 1, |fs.lines[fs.Canon(path)]| - i
  {
    hide ExpandSpec, OnCycle, Reaches, IncludeOf, Walk, Edge;
    var c := fs.Canon(path);
    match IncludeOf(fs.lines[c][i])
    case None =>
      LinesFail(fs, path, i + 1, stack, done);
    case Some(inc) =>
      if fs.Search(path, inc).None? {
        ReachesSelf(fs, c);
      } else {
        var child := fs.Search(path, inc).value;
        var e := ExpandSpec(fs, child, true, stack, done);
        LineEdge(fs, c, i, fs.Canon(child));
        if e.Expanded? {
          Subset(fs.lines.Keys - e.done, fs.lines.Keys - done);
          LinesFail(fs, path, i + 1, stack, e.done);
        } else {
          ExpandFails(fs, child, true, stack, done);
          ReachesThen(fs, c, fs.Canon(child), fs.Canon(e.file));
        }
      }
  }

  lemma {:induction false} LineEdge(fs: Files, a: Path, i: nat, b: Path)
    requires LineIncludes(fs, a, i, b)
    ensures Edge(fs, a, b)
  {}

  /** Expansion succeeds exactly when no file it can reach includes itself, directly or through
      others, and none is missing. */
  lemma {:induction false} ExpandsIffSound(fs: Files, entry: Path)
    ensures ExpandSpec(fs, entry, false, [], {}).Expanded? <==>
            forall x :: Reaches(fs, fs.Canon(entry), x) ==> !OnCycle(fs, x) && !Broken(fs, x)
  {
    hide ExpandSpec, OnCycle, Broken, Reaches;
    var r, c := ExpandSpec(fs, entry, false, [], {}), fs.Canon(entry);
    if r.Expanded? {
      ExpandFinished(fs, entry, false, [], {});
      forall x | Reaches(fs, c, x)
        ensures !OnCycle(fs, x) && !Broken(fs, x)
      {
        ReachedIsDone(fs, c, r.done, x);
      }
    } else {
      ExpandFails(fs, entry, false, [], {});
    }
  }

  lemma {:induction false} ReachedIsDone(fs: Files, c: Path, done: set<Path>, x: Path)
    requires Finished(fs, done, []) && Settled(fs, c, done, []) && !OnCycle(fs, c) && Reaches(fs, c, x)
    ensures x in done || x == c
    ensures !OnCycle(fs, x) && !Broken(fs, x)
  {
    hide OnCycle, Broken, Edge;
    var w :| Walk(fs, w) && w[0] == c && w[|w| - 1] == x;
    WalkStays(fs, w, done + {c}, |w| - 1);
  }

  // ---------------------------------------------------------------------------
  // What the combined text consists of
  // ---------------------------------------------------------------------------

  /** Files that become done are reached from the file expanded. */
  lemma {:induction false} DoneReached(fs: Files, path: Path, included: bool, stack: seq<Path>, done: set<Path>,
      x: Path)
    requires ExpandSpec(fs, path, included, stack, done).Expanded?
    requires x in ExpandSpec(fs, path, included, stack, done).done && x !in done
    ensures Reaches(fs, fs.Canon(path), x)
    decreases 2 * |fs.lines.Keys - done| + (if included then 0 else 2), 0
  {
    hide LinesSpec, Reaches;
    var c := fs.Canon(path);
    if x == c {
      ReachesSelf(fs, c);
    } else {
      Shrinks(fs.lines.Keys, done, c);
      LinesDoneReached(fs, path, 0, stack + [c], if included then done + {c} else done, x);
    }
  }

  lemma {:induction false} LinesDoneReached(fs: Files, path: Path, i: nat, stack: seq<Path>, done: set<Path>, x: Path)
    requires fs.Canon(path) in fs.lines && i <= |fs.lines[fs.Canon(path)]|
    requires LinesSpec(fs, path, i, stack, done).Expanded?
    requires x in LinesSpec(fs, path, i, stack, done).done && x !in done
    ensures Reaches(fs, fs.Canon(path), x)
    decreases 2 * |fs.lines.Keys - done| + 1, |fs.lines[fs.Canon(path)]| - i
  {
    hide ExpandSpec, Reaches, IncludeOf, Edge;
    var c := fs.Canon(path);
    match IncludeOf(fs.lines[c][i])
    case None =>
      LinesDoneReached(fs, path, i + 1, stack, done, x);
    case Some(inc) =>
      var child := fs.Search(path, inc).value;
      var e := ExpandSpec(fs, child, true, stack, done);
      LineEdge(fs, c, i, fs.Canon(child));
      Subset(fs.lines.Keys - e.done, fs.lines.Keys - done);
      if x in e.done {
        DoneReached(fs, child, true, stack, done, x);
        ReachesThen(fs, c, fs.Canon(child), x);
      } else {
        LinesDoneReached(fs, path, i + 1, stack, e.done, x);
      }
  }

  /** The lines that come from file `x`, in order. */
  ghost function Of(fs: Files, lines: seq<Line>, x: Path): seq<Line> {
    if |lines| == 0 then []
    else if fs.Canon(lines[0].file) == x then [lines[0]] + Of(fs, lines[1..], x)
    else Of(fs, lines[1..], x)
  }

  lemma {:induction false} OfTwo(fs: Files, a: seq<Line>, b: seq<Line>, x: Path)
    ensures Of(fs, a + b, x) == Of(fs, a, x) + Of(fs, b, x)
    decreases |a|
  {
    if |a| == 0 {
      assert a + b == b;
    } else {
      assert (a + b)[1..] == a[1..] + b;
      OfTwo(fs, a[1..], b, x);
    }
  }

  /** The lines of a file from line `i` on, without its directives, recorded as lines of
      `path`. */
  ghost function Plain(fs: Files, path: Path, i: nat): seq<Line>
    requires fs.Canon(path) in fs.lines && i <= |fs.lines[fs.Canon(path)]|
    decreases |fs.lines[fs.Canon(path)]| - i
  {
    var lines := fs.lines[fs.Canon(path)];
    if i == |lines| then []
    else if IncludeOf(lines[i]).Some? then Plain(fs, path, i + 1)
    else [Line(path, i + 1, lines[i])] + Plain(fs, path, i + 1)
  }

  /** The lines are those of file `x`, all of them in order, once. */
  ghost predicate Once(fs: Files, lines: seq<Line>, x: Path) {
    x in fs.lines && exists p :: fs.Canon(p) == x && Of(fs, lines, x) == Plain(fs, p, 0)
  }

  /** The part of file `x` in an expansion: nothing when the file was done or is being
      expanded further out, the whole file when it becomes done. */
  ghost predicate Share(fs: Files, lines: seq<Line>, x: Path, before: set<Path>, after: set<Path>) {
    if x in after && x !in before then Once(fs, lines, x) else |Of(fs, lines, x)| == 0
  }

  lemma {:induction false} ShareTwo(fs: Files, a: seq<Line>, b: seq<Line>, x: Path,
                                    before: set<Path>, between: set<Path>, after: set<Path>)
    requires before <= between <= after && Share(fs, a, x, before, between) && Share(fs, b, x, between, after)
    ensures Share(fs, a + b, x, before, after)
  {
    hide Of, Plain;
    OfTwo(fs, a, b, x);
    var s, t := Of(fs, a, x), Of(fs, b, x);
    if |s| == 0 {
      assert s + t == t;
    } else {
      assert s + t == s;
    }
  }

  lemma {:induction false} ExpandShare(fs: Files, path: Path, included: bool, stack: seq<Path>, done: set<Path>,
      x: Path)
    requires !included ==> fs.Canon(path) !in done
    requires ExpandSpec(fs, path, included, stack, done).Expanded?
    ensures var r := ExpandSpec(fs, path, included, stack, done);
            if x in stack then |Of(fs, r.lines, x)| == 0
            else if !included && x == fs.Canon(path) then Once(fs, r.lines, x)
            else Share(fs, r.lines, x, done, r.done)
    decreases 2 * |fs.lines.Keys - done| + (if included then 0 else 2), 0
  {
    hide LinesSpec, Plain;
    var c := fs.Canon(path);
    if !(included && c in done) {
      Shrinks(fs.lines.Keys, done, c);
      LinesShare(fs, path, 0, stack + [c], if included then done + {c} else done, x);
    }
  }

  lemma {:induction false} LinesShare(fs: Files, path: Path, i: nat, stack: seq<Path>, done: set<Path>, x: Path)
    requires fs.Canon(path) in fs.lines && i <= |fs.lines[fs.Canon(path)]| && fs.Canon(path) in stack
    requires LinesSpec(fs, path, i, stack, done).Expanded?
    ensures var r := LinesSpec(fs, path, i, stack, done);
            if x == fs.Canon(path) then Of(fs, r.lines, x) == Plain(fs, path, i)
            else if x in stack then |Of(fs, r.lines, x)| == 0
            else Share(fs, r.lines, x, done, r.done)
    decreases 2 * |fs.lines.Keys - done| + 1, |fs.lines[fs.Canon(path)]| - i
  {
    hide ExpandSpec, IncludeOf, Share, Of, Once;
    var c := fs.Canon(path);
    var lines := fs.lines[c];
    if i == |lines| {
      ShareNothing(fs, x, done);
    } else {
      match IncludeOf(lines[i])
      case None =>
        LinesShare(fs, path, i + 1, stack, done, x);
        var r := LinesSpec(fs, path, i + 1, stack, done);
        OwnLine(fs, Line(path, i + 1, lines[i]), r.lines, x, done, r.done);
      case Some(inc) =>
        var child := fs.Search(path, inc).value;
        var e := ExpandSpec(fs, child, true, stack, done);
        ExpandShare(fs, child, true, stack, done, x);
        Subset(fs.lines.Keys - e.done, fs.lines.Keys - done);
        LinesShare(fs, path, i + 1, stack, e.done, x);
        var r := LinesSpec(fs, path, i + 1, stack, e.done);
        if x in stack {
          OfTwo(fs, e.lines, r.lines, x);
          assert Of(fs, e.lines, x) + Of(fs, r.lines, x) == Of(fs, r.lines, x);
        } else {
          ShareTwo(fs, e.lines, r.lines, x, done, e.done, r.done);
        }
    }
  }

  lemma {:induction false} ShareNothing(fs: Files, x: Path, done: set<Path>)
    ensures Of(fs, [], x) == [] && Share(fs, [], x, done, done)
  {}

  lemma {:induction false} OwnLine(fs: Files, line: Line, rest: seq<Line>, x: Path, before: set<Path>, after: set<Path>)
    ensures Of(fs, [line] + rest, x) ==
            if fs.Canon(line.file) == x then [line] + Of(fs, rest, x) else Of(fs, rest, x)
    ensures fs.Canon(line.file) != x && Share(fs, rest, x, before, after) ==> Share(fs, [line] + rest, x, before, after)
  {
    hide Plain;
    assert ([line] + rest)[1..] == rest;
  }

  /** A file that is reached is in the combined text exactly once, whole and in order except
      for its directives; a file that is not reached is not in it at all. */
  lemma {:induction false} SplicedOnce(fs: Files, entry: Path, x: Path)
    requires ExpandSpec(fs, entry, false, [], {}).Expanded?
    ensures var lines := ExpandSpec(fs, entry, false, [], {}).lines;
            if Reaches(fs, fs.Canon(entry), x) then Once(fs, lines, x) else |Of(fs, lines, x)| == 0
  {
    hide ExpandSpec, Reaches, Of, Once, OnCycle, Broken, Settled;
    var r, c := ExpandSpec(fs, entry, false, [], {}), fs.Canon(entry);
    ExpandFinished(fs, entry, false, [], {});
    ExpandShare(fs, entry, false, [], {}, x);
    if Reaches(fs, c, x) {
      ReachedIsDone(fs, c, r.done, x);
    } else {
      if x == c {
        ReachesSelf(fs, c);
      }
      if x in r.done {
        DoneReached(fs, entry, false, [], {}, x);
      }
    }
  }

  /** The text of the line is that of its origin, and no directive. */
  ghost predicate TrueOrigin(fs: Files, line: Line) {
    && fs.Canon(line.file) in fs.lines
    && 1 <= line.number <= |fs.lines[fs.Canon(line.file)]|
    && fs.lines[fs.Canon(line.file)][line.number - 1] == line.text
    && IncludeOf(line.text).None?
  }

  lemma {:induction false} ExpandOrigins(fs: Files, path: Path, included: bool, stack: seq<Path>, done: set<Path>)
    requires ExpandSpec(fs, path, included, stack, done).Expanded?
    ensures forall l :: l in ExpandSpec(fs, path, included, stack, done).lines ==> TrueOrigin(fs, l)
    decreases 2 * |fs.lines.Keys - done| + (if included then 0 else 2), 0
  {
    hide LinesSpec, TrueOrigin;
    var c := fs.Canon(path);
    if !(included && c in done) {
      Shrinks(fs.lines.Keys, done, c);
      LinesOrigins(fs, path, 0, stack + [c], if included then done + {c} else done);
    }
  }

  lemma {:induction false} LinesOrigins(fs: Files, path: Path, i: nat, stack: seq<Path>, done: set<Path>)
    requires fs.Canon(path) in fs.lines && i <= |fs.lines[fs.Canon(path)]|
    requires LinesSpec(fs, path, i, stack, done).Expanded?
    ensures forall l :: l in LinesSpec(fs, path, i, stack, done).lines ==> TrueOrigin(fs, l)
    decreases 2 * |fs.lines.Keys - done| + 1, |fs.lines[fs.Canon(path)]| - i
  {
    hide ExpandSpec, IncludeOf;
    var lines := fs.lines[fs.Canon(path)];
    if i < |lines| {
      match IncludeOf(lines[i])
      case None =>
        LinesOrigins(fs, path, i + 1, stack, done);
        assert TrueOrigin(fs, Line(path, i + 1, lines[i]));
      case Some(inc) =>
        var child := fs.Search(path, inc).value;
        var e := ExpandSpec(fs, child, true, stack, done);
        ExpandOrigins(fs, child, true, stack, done);
        Subset(fs.lines.Keys - e.done, fs.lines.Keys - done);
        LinesOrigins(fs, path, i + 1, stack, e.done);
    }
  }

  /** Two spellings of one path name the same file: they find the same includes, and once one of
      them has been included the other adds nothing, or is reported while the file is open. */
  lemma {:induction false} OtherSpelling(fs: Files, p: Path, q: Path, stack: seq<Path>, done: set<Path>)
    requires p in fs.canonical && q in fs.canonical && fs.canonical[p] == fs.canonical[q]
    ensures forall inc :: fs.Search(p, inc) == fs.Search(q, inc)
    ensures fs.canonical[p] in stack ==> ExpandSpec(fs, q, true, stack, done) == Circular(q)
    ensures var r := ExpandSpec(fs, p, true, stack, done);
            r.Expanded? ==> ExpandSpec(fs, q, true, stack, r.done) == Expanded([], r.done)
  {
    hide LinesSpec, IncludeOf;
  }
}
