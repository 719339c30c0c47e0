/** Where a file lands in the combined text: the text is that of plain textual inclusion, with
    each line kept at its first place only. */
module IncludeOrder {
  import opened Includes
  import opened IncludeGraph
  import opened Expander
  import opened Options

  // ---------------------------------------------------------------------------
  // Plain inclusion
  // ---------------------------------------------------------------------------

  /** Every directive replaced by the whole file it names, as often as it is named. There is no
      such text when a file is missing or names itself inside itself; `open` are the files around
      this one. */
  ghost function Unfold(fs: Files, path: Path, open: set<Path>): Option<seq<Line>>
    decreases |fs.lines.Keys - open|, 0
  {
    var c := fs.Canon(path);
    if c in open || c !in fs.lines then None
    else
      Shrinks(fs.lines.Keys, open, c);
      UnfoldLines(fs, path, 0, open + {c})
  }

  /** The same from line `i` of the file on. */
  ghost function UnfoldLines(fs: Files, path: Path, i: nat, open: set<Path>): Option<seq<Line>>
    requires fs.Canon(path) in fs.lines && i <= |fs.lines[fs.Canon(path)]|
    decreases |fs.lines.Keys - open|, |fs.lines[fs.Canon(path)]| - i
  {
    var lines := fs.lines[fs.Canon(path)];
    if i == |lines| then Some([])
    else
      match IncludeOf(lines[i])
      case None => Joined(Some([Line(path, i + 1, lines[i])]), UnfoldLines(fs, path, i + 1, open))
      case Some(inc) =>
        match fs.Search(path, inc)
        case None => None
        case Some(child) => Joined(Unfold(fs, child, open), UnfoldLines(fs, path, i + 1, open))
  }

  ghost function Joined(a: Option<seq<Line>>, b: Option<seq<Line>>): Option<seq<Line>> {
    if a.Some? && b.Some? then Some(a.value + b.value) else None
  }

  /** A line of a file, however the file's path is written. */
  ghost function Key(fs: Files, l: Line): (Path, nat) {
    (fs.Canon(l.file), l.number)
  }

  ghost function Keys(fs: Files, lines: seq<Line>): set<(Path, nat)> {
    set l | l in lines :: Key(fs, l)
  }

  /** Each line at its first occurrence only, and not at all when it is in `seen`. */
  ghost function Fresh(fs: Files, lines: seq<Line>, seen: set<(Path, nat)>): seq<Line>
    decreases |lines|
  {
    if |lines| == 0 then []
    else if Key(fs, lines[0]) in seen then Fresh(fs, lines[1..], seen)
    else [lines[0]] + Fresh(fs, lines[1..], seen + {Key(fs, lines[0])})
  }

  // ---------------------------------------------------------------------------
  // First occurrences
  // ---------------------------------------------------------------------------

  lemma {:induction false} KeysTwo(fs: Files, a: seq<Line>, b: seq<Line>)
    ensures Keys(fs, a + b) == Keys(fs, a) + Keys(fs, b)
  {
    forall k
      ensures k in Keys(fs, a + b) <==> k in Keys(fs, a) || k in Keys(fs, b)
    {
      assert forall l :: l in a + b <==> l in a || l in b;
    }
  }

  lemma {:induction false} KeysFirst(fs: Files, lines: seq<Line>, seen: set<(Path, nat)>)
    requires |lines| > 0
    ensures seen + {Key(fs, lines[0])} + Keys(fs, lines[1..]) == seen + Keys(fs, lines)
    ensures Key(fs, lines[0]) in seen ==> seen + Keys(fs, lines[1..]) == seen + Keys(fs, lines)
  {
    assert lines == [lines[0]] + lines[1..];
    KeysTwo(fs, [lines[0]], lines[1..]);
    assert Keys(fs, [lines[0]]) == {Key(fs, lines[0])};
  }

  lemma {:induction false} FreshStep(fs: Files, l: Line, rest: seq<Line>, seen: set<(Path, nat)>)
    ensures Fresh(fs, [l] + rest, seen) ==
            if Key(fs, l) in seen then Fresh(fs, rest, seen) else [l] + Fresh(fs, rest, seen + {Key(fs, l)})
  {
    assert ([l] + rest)[1..] == rest;
  }

  lemma {:induction false} FreshTwo(fs: Files, a: seq<Line>, b: seq<Line>, seen: set<(Path, nat)>)
    ensures Fresh(fs, a + b, seen) == Fresh(fs, a, seen) + Fresh(fs, b, seen + Keys(fs, a))
    decreases |a|
  {
    hide Key, Keys;
    if |a| == 0 {
      assert a + b == b;
      NoKeys(fs, a, seen);
    } else {
      hide Fresh;
      assert a == [a[0]] + a[1..];
      assert a + b == [a[0]] + (a[1..] + b);
      FreshStep(fs, a[0], a[1..], seen);
      FreshStep(fs, a[0], a[1..] + b, seen);
      KeysFirst(fs, a, seen);
      FreshTwo(fs, a[1..], b, if Key(fs, a[0]) in seen then seen else seen + {Key(fs, a[0])});
    }
  }

  lemma {:induction false} NoKeys(fs: Files, a: seq<Line>, seen: set<(Path, nat)>)
    requires |a| == 0
    ensures seen + Keys(fs, a) == seen
  {}

  lemma {:induction false} NothingFresh(fs: Files, lines: seq<Line>, seen: set<(Path, nat)>)
    requires forall l :: l in lines ==> Key(fs, l) in seen
    ensures Fresh(fs, lines, seen) == [] && seen + Keys(fs, lines) == seen
    decreases |lines|
  {
    if |lines| > 0 {
      assert lines[0] in lines;
      NothingFresh(fs, lines[1..], seen);
    }
  }

  // ---------------------------------------------------------------------------
  // A file that is skipped
  // ---------------------------------------------------------------------------

  /** Line `n` of file `f` is no directive. */
  ghost predicate PlainAt(fs: Files, f: Path, n: nat) {
    f in fs.lines && 1 <= n <= |fs.lines[f]| && IncludeOf(fs.lines[f][n - 1]).None?
  }

  /** A plain line of one of the files in `s`. */
  ghost predicate PlainOf(fs: Files, s: set<Path>, l: Line) {
    fs.Canon(l.file) in s && PlainAt(fs, fs.Canon(l.file), l.number)
  }

  /** Nothing in `s` is broken or on a cycle, and no include leads out of it. */
  ghost predicate Sound(fs: Files, s: set<Path>) {
    forall a :: a in s ==> !Broken(fs, a) && !OnCycle(fs, a) && forall b :: Edge(fs, a, b) ==> b in s
  }

  /** There is a plain unfolding of a file in a sound set, and it consists of lines of that set.
      `w` are the files around it that are in the set, each including the next. */
  lemma {:induction false} UnfoldSound(fs: Files, path: Path, open: set<Path>, s: set<Path>, w: seq<Path>)
    requires Sound(fs, s) && fs.Canon(path) in s && LeadsTo(fs, w, fs.Canon(path))
    requires forall a :: a in open && a in s ==> a in w
    ensures Unfold(fs, path, open).Some? && forall l :: l in Unfold(fs, path, open).value ==> PlainOf(fs, s, l)
    decreases |fs.lines.Keys - open|, 0
  {
    hide OnCycle, Edge, LeadsTo, UnfoldLines, PlainOf;
    var c := fs.Canon(path);
    if c in open {
      BackOnStack(fs, w, c);
    }
    assert c in fs.lines;
    Shrinks(fs.lines.Keys, open, c);
    OntoStack(fs, w, c);
    UnfoldLinesSound(fs, path, 0, open + {c}, s, w + [c]);
  }

  lemma {:induction false} UnfoldLinesSound(fs: Files, path: Path, i: nat, open: set<Path>, s: set<Path>, w: seq<Path>)
    requires fs.Canon(path) in fs.lines && i <= |fs.lines[fs.Canon(path)]|
    requires Sound(fs, s) && fs.Canon(path) in s && Walk(fs, w) && w[|w| - 1] == fs.Canon(path)
    requires forall a :: a in open && a in s ==> a in w
    ensures UnfoldLines(fs, path, i, open).Some?
    ensures forall l :: l in UnfoldLines(fs, path, i, open).value ==> PlainOf(fs, s, l)
    decreases |fs.lines.Keys - open|, |fs.lines[fs.Canon(path)]| - i
  {
    hide OnCycle, Edge, Walk, Unfold, IncludeOf;
    var c := fs.Canon(path);
    var lines := fs.lines[c];
    if i < |lines| {
      UnfoldLinesSound(fs, path, i + 1, open, s, w);
      if IncludeOf(lines[i]).Some? {
        var child := fs.search[(c, IncludeOf(lines[i]).value)];
        LineEdge(fs, c, i, fs.Canon(child));
        UnfoldSound(fs, child, open, s, w);
      } else {
        assert PlainOf(fs, s, Line(path, i + 1, lines[i]));
      }
    }
  }

  // ---------------------------------------------------------------------------
  // Which lines have been seen
  // ---------------------------------------------------------------------------

  /** Of the files not being expanded, those that are done have been seen, and no others. */
  ghost predicate SeenDone(fs: Files, done: set<Path>, stack: seq<Path>, seen: set<(Path, nat)>) {
    forall f, n: nat :: PlainAt(fs, f, n) && f !in stack ==> ((f, n) in seen <==> f in done)
  }

  /** Of file `c` the first `i` lines have been seen. */
  ghost predicate SeenTo(fs: Files, c: Path, i: nat, seen: set<(Path, nat)>) {
    forall n: nat :: PlainAt(fs, c, n) ==> ((c, n) in seen <==> n <= i)
  }

  ghost predicate AllSeen(fs: Files, c: Path, seen: set<(Path, nat)>) {
    forall n: nat :: PlainAt(fs, c, n) ==> (c, n) in seen
  }

  /** The same lines of these files have been seen. */
  ghost predicate SameSeen(fs: Files, files: set<Path>, a: set<(Path, nat)>, b: set<(Path, nat)>) {
    forall f, n: nat :: PlainAt(fs, f, n) && f in files ==> ((f, n) in a <==> (f, n) in b)
  }

  /** What an expansion is to the unfolding `u` of the same file or lines: it consists of the
      lines of `u` that have not been seen, and what is seen afterwards is what is done. */
  ghost predicate Follows(fs: Files, r: Expansion, u: Option<seq<Line>>, stack: seq<Path>, seen: set<(Path, nat)>) {
    && r.Expanded? && u.Some? && r.lines == Fresh(fs, u.value, seen)
    && SeenDone(fs, r.done, stack, seen + Keys(fs, u.value))
  }

  /** For a file: nothing changes for the files around it. */
  ghost predicate FileFollows(fs: Files, r: Expansion, u: Option<seq<Line>>, stack: seq<Path>, seen: set<(Path, nat)>) {
    Follows(fs, r, u, stack, seen) && SameSeen(fs, Around(stack), seen, seen + Keys(fs, u.value))
  }

  /** For the rest of file `c`: all of it has been seen in the end. */
  ghost predicate RestFollows(fs: Files, r: Expansion, u: Option<seq<Line>>, c: Path, stack: seq<Path>,
                              seen: set<(Path, nat)>) {
    && Follows(fs, r, u, stack, seen) && AllSeen(fs, c, seen + Keys(fs, u.value))
    && SameSeen(fs, Around(stack) - {c}, seen, seen + Keys(fs, u.value))
  }

  ghost function Around(stack: seq<Path>): set<Path> {
    set f | f in stack
  }

  lemma {:induction false} FinishedSound(fs: Files, done: set<Path>, stack: seq<Path>) returns (s: set<Path>)
    requires Finished(fs, done, stack)
    ensures Sound(fs, s) && forall f :: f in s <==> f in done && f !in stack
  {
    hide OnCycle, Broken, Edge;
    s := set f | f in done && f !in stack;
    forall a | a in s
      ensures !Broken(fs, a) && !OnCycle(fs, a) && forall b :: Edge(fs, a, b) ==> b in s
    {
      assert Settled(fs, a, done, stack);
    }
  }

  /** A file that is done adds nothing. */
  lemma {:induction false} SkippedFresh(
    fs: Files, path: Path, stack: seq<Path>, done: set<Path>, seen: set<(Path, nat)>)
    requires Finished(fs, done, stack) && SeenDone(fs, done, stack, seen)
    requires fs.Canon(path) in done && fs.Canon(path) !in stack
    ensures FileFollows(fs, Expanded([], done), Unfold(fs, path, Around(stack)), stack, seen)
  {
    hide Finished, Unfold, Fresh, Keys, PlainAt;
    var s := FinishedSound(fs, done, stack);
    assert LeadsTo(fs, [], fs.Canon(path));
    UnfoldSound(fs, path, Around(stack), s, []);
    var u := Unfold(fs, path, Around(stack)).value;
    forall l | l in u
      ensures Key(fs, l) in seen
    {
      assert PlainOf(fs, s, l);
    }
    NothingFresh(fs, u, seen);
  }

  lemma {:induction false} PushSeen(
    fs: Files, c: Path, done: set<Path>, stack: seq<Path>, seen: set<(Path, nat)>, d: set<Path>)
    requires SeenDone(fs, done, stack, seen) && c !in done && c !in stack && (d == done || d == done + {c})
    ensures SeenDone(fs, d, stack + [c], seen) && SeenTo(fs, c, 0, seen)
  {}

  lemma {:induction false} PopSeen(fs: Files, c: Path, done: set<Path>, stack: seq<Path>, seen: set<(Path, nat)>)
    requires SeenDone(fs, done, stack + [c], seen) && c in done && AllSeen(fs, c, seen)
    ensures SeenDone(fs, done, stack, seen)
  {}

  // ---------------------------------------------------------------------------
  // The expansion follows the unfolding
  // ---------------------------------------------------------------------------

  /** A line that is no directive. */
  lemma {:induction false} PlainFollows(
    fs: Files, l: Line, r: Expansion, u: Option<seq<Line>>, c: Path, stack: seq<Path>, seen: set<(Path, nat)>)
    requires c == fs.Canon(l.file) && Key(fs, l) !in seen && RestFollows(fs, r, u, c, stack, seen + {Key(fs, l)})
    ensures r.Expanded? && u.Some?
    ensures RestFollows(fs, Expanded([l] + r.lines, r.done), Some([l] + u.value), c, stack, seen)
  {
    hide Fresh, Keys, PlainAt, SeenDone, AllSeen;
    FreshStep(fs, l, u.value, seen);
    KeysFirst(fs, [l] + u.value, seen);
    assert ([l] + u.value)[1..] == u.value;
  }

  /** A directive, and the lines after it. */
  lemma {:induction false} IncludeFollows(
    fs: Files, e: Expansion, first: Option<seq<Line>>, r: Expansion, rest: Option<seq<Line>>, c: Path,
    stack: seq<Path>, seen: set<(Path, nat)>)
    requires FileFollows(fs, e, first, stack, seen) && RestFollows(fs, r, rest, c, stack, seen + Keys(fs, first.value))
    ensures e.Expanded? && first.Some? && r.Expanded? && rest.Some?
    ensures RestFollows(fs, Expanded(e.lines + r.lines, r.done), Some(first.value + rest.value), c, stack, seen)
  {
    hide Fresh, Keys, PlainAt, SeenDone, AllSeen;
    FreshTwo(fs, first.value, rest.value, seen);
    KeysTwo(fs, first.value, rest.value);
    assert seen + Keys(fs, first.value) + Keys(fs, rest.value) == seen + Keys(fs, first.value + rest.value);
  }

  lemma {:induction false} NothingFollows(fs: Files, c: Path, stack: seq<Path>, done: set<Path>, seen: set<(Path, nat)>)
    requires c in fs.lines && SeenDone(fs, done, stack, seen) && SeenTo(fs, c, |fs.lines[c]|, seen)
    ensures RestFollows(fs, Expanded([], done), Some([]), c, stack, seen)
  {
    NoKeys(fs, [], seen);
  }

  lemma {:induction false} SeeOne(fs: Files, c: Path, i: nat, stack: seq<Path>, done: set<Path>, seen: set<(Path, nat)>)
    requires SeenDone(fs, done, stack, seen) && SeenTo(fs, c, i, seen) && c in stack && PlainAt(fs, c, i + 1)
    ensures (c, i + 1) !in seen
    ensures SeenDone(fs, done, stack, seen + {(c, i + 1)}) && SeenTo(fs, c, i + 1, seen + {(c, i + 1)})
  {
    hide PlainAt;
  }

  lemma {:induction false} SeeInclude(
    fs: Files, c: Path, i: nat, stack: seq<Path>, a: set<(Path, nat)>, b: set<(Path, nat)>)
    requires SeenTo(fs, c, i, a) && c in stack && !PlainAt(fs, c, i + 1) && SameSeen(fs, Around(stack), a, b)
    ensures SeenTo(fs, c, i + 1, b)
  {
    hide PlainAt;
  }

  lemma {:induction false} ExpandFresh(fs: Files, path: Path, stack: seq<Path>, done: set<Path>, seen: set<(Path, nat)>)
    requires Finished(fs, done, stack) && SeenDone(fs, done, stack, seen)
    requires ExpandSpec(fs, path, true, stack, done).Expanded?
    ensures FileFollows(fs, ExpandSpec(fs, path, true, stack, done), Unfold(fs, path, Around(stack)), stack, seen)
    decreases 2 * |fs.lines.Keys - done|, 0
  {
    hide LinesSpec, UnfoldLines, SeenDone, SeenTo, Fresh, Keys, Finished, PlainAt;
    var c := fs.Canon(path);
    if c in done {
      SkippedFresh(fs, path, stack, done, seen);
    } else {
      Shrinks(fs.lines.Keys, done, c);
      PushFinished(fs, c, done, stack, done + {c});
      PushSeen(fs, c, done, stack, seen, done + {c});
      LinesFresh(fs, path, 0, stack + [c], done + {c}, seen);
      assert Around(stack + [c]) == Around(stack) + {c} && Around(stack + [c]) - {c} == Around(stack);
      PopSeen(fs, c, ExpandSpec(fs, path, true, stack, done).done, stack,
              seen + Keys(fs, Unfold(fs, path, Around(stack)).value));
    }
  }

  lemma {:induction false} LinesFresh(
    fs: Files, path: Path, i: nat, stack: seq<Path>, done: set<Path>, seen: set<(Path, nat)>)
    requires fs.Canon(path) in fs.lines && i <= |fs.lines[fs.Canon(path)]| && fs.Canon(path) in stack
    requires Finished(fs, done, stack) && SeenDone(fs, done, stack, seen) && SeenTo(fs, fs.Canon(path), i, seen)
    requires LinesSpec(fs, path, i, stack, done).Expanded?
    ensures RestFollows(fs, LinesSpec(fs, path, i, stack, done), UnfoldLines(fs, path, i, Around(stack)),
                        fs.Canon(path), stack, seen)
    decreases 2 * |fs.lines.Keys - done| + 1, |fs.lines[fs.Canon(path)]| - i
  {
    hide ExpandSpec, Unfold, Follows, SeenDone, SeenTo, Finished, SameSeen, AllSeen, IncludeOf, Keys;
    var c := fs.Canon(path);
    var lines := fs.lines[c];
    if i == |lines| {
      NothingFollows(fs, c, stack, done, seen);
    } else {
      match IncludeOf(lines[i])
      case None =>
        var l := Line(path, i + 1, lines[i]);
        SeeOne(fs, c, i, stack, done, seen);
        LinesFresh(fs, path, i + 1, stack, done, seen + {Key(fs, l)});
        PlainFollows(fs, l, LinesSpec(fs, path, i + 1, stack, done), UnfoldLines(fs, path, i + 1, Around(stack)),
                     c, stack, seen);
      case Some(inc) =>
        var child := fs.Search(path, inc).value;
        var e, first := ExpandSpec(fs, child, true, stack, done), Unfold(fs, child, Around(stack));
        ExpandFinished(fs, child, true, stack, done);
        ExpandFresh(fs, child, stack, done, seen);
        Subset(fs.lines.Keys - e.done, fs.lines.Keys - done);
        AfterInclude(fs, c, i, e, first, stack, seen);
        LinesFresh(fs, path, i + 1, stack, e.done, seen + Keys(fs, first.value));
        IncludeFollows(fs, e, first, LinesSpec(fs, path, i + 1, stack, e.done),
                       UnfoldLines(fs, path, i + 1, Around(stack)), c, stack, seen);
    }
  }

  lemma {:induction false} AfterInclude(
    fs: Files, c: Path, i: nat, e: Expansion, first: Option<seq<Line>>, stack: seq<Path>, seen: set<(Path, nat)>)
    requires FileFollows(fs, e, first, stack, seen) && SeenTo(fs, c, i, seen) && c in stack && !PlainAt(fs, c, i + 1)
    ensures first.Some?
    ensures SeenDone(fs, e.done, stack, seen + Keys(fs, first.value))
    ensures SeenTo(fs, c, i + 1, seen + Keys(fs, first.value))
  {
    hide SeenTo, SameSeen, SeenDone, Keys, PlainAt;
    SeeInclude(fs, c, i, stack, seen, seen + Keys(fs, first.value));
  }

  /** What can be unfolded can be expanded. */
  lemma {:induction false} UnfoldsExpands(fs: Files, path: Path, included: bool, stack: seq<Path>, done: set<Path>)
    requires Unfold(fs, path, Around(stack)).Some?
    ensures ExpandSpec(fs, path, included, stack, done).Expanded?
    decreases 2 * |fs.lines.Keys - done| + (if included then 0 else 2), 0
  {
    hide LinesSpec, UnfoldLines;
    var c := fs.Canon(path);
    if !(included && c in done) {
      Shrinks(fs.lines.Keys, done, c);
      assert Around(stack + [c]) == Around(stack) + {c};
      UnfoldsLines(fs, path, 0, stack + [c], if included then done + {c} else done);
    }
  }

  lemma {:induction false} UnfoldsLines(fs: Files, path: Path, i: nat, stack: seq<Path>, done: set<Path>)
    requires fs.Canon(path) in fs.lines && i <= |fs.lines[fs.Canon(path)]|
    requires UnfoldLines(fs, path, i, Around(stack)).Some?
    ensures LinesSpec(fs, path, i, stack, done).Expanded?
    decreases 2 * |fs.lines.Keys - done| + 1, |fs.lines[fs.Canon(path)]| - i
  {
    hide ExpandSpec, Unfold, IncludeOf;
    var lines := fs.lines[fs.Canon(path)];
    if i < |lines| {
      match IncludeOf(lines[i])
      case None => UnfoldsLines(fs, path, i + 1, stack, done);
      case Some(inc) =>
        var child := fs.Search(path, inc).value;
        UnfoldsExpands(fs, child, true, stack, done);
        var e := ExpandSpec(fs, child, true, stack, done);
        Subset(fs.lines.Keys - e.done, fs.lines.Keys - done);
        UnfoldsLines(fs, path, i + 1, stack, e.done);
    }
  }

  /** The combined text is that of plain inclusion, every directive replaced by the file it
      names, with each line of each file kept where it occurs first: a file lands at the first
      directive that names it, in the order of reading. There is one exactly when there is the
      other. */
  lemma {:induction false} SplicedInOrder(fs: Files, entry: Path)
    ensures var r, u := ExpandSpec(fs, entry, false, [], {}), Unfold(fs, entry, {});
            && (r.Expanded? <==> u.Some?)
            && (r.Expanded? ==> r.lines == Fresh(fs, u.value, {}))
  {
    hide ExpandSpec, Unfold, Fresh;
    assert Around([]) == {};
    if Unfold(fs, entry, {}).Some? {
      UnfoldsExpands(fs, entry, false, [], {});
    }
    if ExpandSpec(fs, entry, false, [], {}).Expanded? {
      EntryFresh(fs, entry);
    }
  }

  lemma {:induction false} EntryFresh(fs: Files, entry: Path)
    requires ExpandSpec(fs, entry, false, [], {}).Expanded?
    ensures Unfold(fs, entry, {}).Some?
    ensures ExpandSpec(fs, entry, false, [], {}).lines == Fresh(fs, Unfold(fs, entry, {}).value, {})
  {
    hide LinesSpec, UnfoldLines, Fresh, Keys, PlainAt;
    var c := fs.Canon(entry);
    PushFinished(fs, c, {}, [], {});
    PushSeen(fs, c, {}, [], {}, {});
    assert [] + [c] == [c] && Around([c]) == {} + {c};
    LinesFresh(fs, entry, 0, [c], {}, {});
  }

  // ---------------------------------------------------------------------------
  // The line map
  // ---------------------------------------------------------------------------

  /** `out` and `runs` are the combined text and the line map of a program. */
  ghost predicate Mapped(fs: Files, entry: Path, out: seq<string>, runs: seq<Run>) {
    var r := ExpandSpec(fs, entry, false, [], {});
    r.Expanded? && out == Texts(r.lines) && Covers(runs, r.lines)
  }

  /** Line `number` of `file` is this text, and no directive. */
  ghost predicate HasText(fs: Files, file: Path, number: int, text: string) {
    var c := fs.Canon(file);
    c in fs.lines && 1 <= number <= |fs.lines[c]| && fs.lines[c][number - 1] == text && IncludeOf(text).None?
  }

  /** The file and line that the map gives for combined line `k` hold exactly the text of
      combined line `k`, which is line `k` of the plain inclusion without its repetitions. */
  lemma {:induction false} LocatedText(
    fs: Files, entry: Path, out: seq<string>, runs: seq<Run>, k: int, file: Path, number: int)
    requires Mapped(fs, entry, out, runs) && 1 <= k <= |out| && Locates(runs, k, file, number)
    ensures HasText(fs, file, number, out[k - 1])
    ensures Unfold(fs, entry, {}).Some? && out == Texts(Fresh(fs, Unfold(fs, entry, {}).value, {}))
  {
    hide ExpandSpec, Unfold, Fresh, Covers, RunFits, IncludeOf;
    var lines := ExpandSpec(fs, entry, false, [], {}).lines;
    SplicedInOrder(fs, entry);
    EveryRunFits(runs, lines);
    LocatesLine(runs, lines, k, file, number);
    ExpandOrigins(fs, entry, false, [], {});
    assert TrueOrigin(fs, lines[k - 1]);
  }
}
