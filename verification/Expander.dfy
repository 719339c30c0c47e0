/** The preprocessor itself: one combined text, a run-length map from its lines back to the
    files, and the lookup in that map. */
module Expander {
  import opened Includes
  import opened Options

  /** Combined lines `start..end` are the lines of `file` from `source` on. */
  datatype Run = Run(start: nat, end: nat, file: Path, source: nat)

  ghost predicate RunFits(r: Run, lines: seq<Line>) {
    1 <= r.start <= r.end <= |lines| && Consecutive(lines[r.start - 1..r.end], r.file, r.source)
  }

  /** The lines are those of `file` from number `source` on. */
  ghost predicate Consecutive(lines: seq<Line>, file: Path, source: nat) {
    forall i :: 0 <= i < |lines| ==> lines[i].file == file && lines[i].number == source + i
  }

  /** The runs follow each other without gaps and end with the last line. */
  ghost predicate Covers(map_: seq<Run>, lines: seq<Line>)
    decreases |map_|
  {
    if |map_| == 0 then |lines| == 0
    else
      var last := map_[|map_| - 1];
      RunFits(last, lines) && last.end == |lines| && Covers(map_[..|map_| - 1], lines[..last.start - 1])
  }

  function Texts(lines: seq<Line>): (r: seq<string>)
    ensures |r| == |lines|
  {
    seq(|lines|, i requires 0 <= i < |lines| => lines[i].text)
  }

  /** The lines from `from` on are a run that is not recorded yet. */
  ghost predicate Running(runs: seq<Run>, lines: seq<Line>, from: nat, file: Path, source: nat) {
    1 <= from <= |lines| + 1 && Covers(runs, lines[..from - 1]) && Consecutive(lines[from - 1..], file, source)
  }

  class Preprocessor {
    const fs: Files
    var out: seq<string>
    var runs: seq<Run>
    var combined: nat
    var stack: seq<Path>
    var done: seq<Path>
    /** The combined lines with their origins. */
    ghost var lines: seq<Line>

    constructor (fs: Files)
      ensures this.fs == fs && Valid() && Covers(runs, lines)
      ensures out == [] && lines == [] && stack == [] && done == []
    {
      this.fs := fs;
      out, runs, combined, stack, done, lines := [], [], 0, [], [], [];
    }

    ghost predicate Valid()
      reads this
    {
      out == Texts(lines) && combined == |lines|
    }

    /** Closes a run of lines `from..combined`, unless it is empty. */
    method PushRun(from: nat, file: Path, source: nat)
      requires Valid() && Running(runs, lines, from, file, source)
      modifies `runs
      ensures Covers(runs, lines)
    {
      if combined < from {
        assert lines[..from - 1] == lines;
        return;
      }
      ghost var before := runs;
      runs := runs + [Run(from, combined, file, source)];
      assert runs[..|runs| - 1] == before && lines[from - 1..] == lines[from - 1..combined];
    }

    /** One line of plain text. */
    method Emit(file: Path, number: nat, text: string)
      requires Valid()
      modifies `out, `combined, `lines
      ensures Valid() && lines == old(lines) + [Line(file, number, text)]
    {
      out := out + [text];
      combined := combined + 1;
      lines := lines + [Line(file, number, text)];
    }

    /** Appends a file and everything it includes; false on an error. */
    method ExpandFile(path: Path, included: bool) returns (ok: bool)
      requires Valid() && Covers(runs, lines)
      modifies this
      ensures Valid()
      ensures match ExpandSpec(fs, path, included, old(stack), Members(old(done)))
              case Expanded(ls, d) =>
                ok && lines == old(lines) + ls && Members(done) == d && stack == old(stack) && Covers(runs, lines)
              case _ => !ok
      decreases 2 * |fs.lines.Keys - Members(done)| + (if included then 0 else 2), 0
    {
      hide Covers, LinesSpec;
      var c := fs.Canon(path);
      if c in stack {
        return false;
      }
      if included && c in done {
        assert lines + [] == lines;
        return true;
      }
      if c !in fs.lines {
        return false;
      }
      Shrinks(fs.lines.Keys, Members(done), c);
      ghost var outer := stack;
      stack := stack + [c];
      if included {
        assert Members([c] + done) == Members(done) + {c};
        done := [c] + done;
      }
      ok := ExpandLines(path);
      if ok {
        stack := stack[..|stack| - 1];
        assert stack == outer;
      }
    }

    /** The file a directive names, searched from the file it is in. */
    method Include(path: Path, inc: string) returns (ok: bool)
      requires Valid() && Covers(runs, lines)
      modifies this
      ensures Valid()
      ensures match IncludeSpec(fs, path, inc, old(stack), Members(old(done)))
              case Expanded(ls, d) =>
                ok && lines == old(lines) + ls && Members(done) == d && stack == old(stack) && Covers(runs, lines)
              case _ => !ok
      decreases 2 * |fs.lines.Keys - Members(done)|, 1
    {
      hide Covers, ExpandSpec, Texts;
      var child := fs.Search(path, inc);
      if child.None? {
        return false;
      }
      ok := ExpandFile(child.value, true);
    }

    /** The lines of a file: plain ones are copied, directives expanded in place. */
    method ExpandLines(path: Path) returns (ok: bool)
      requires Valid() && Covers(runs, lines) && fs.Canon(path) in fs.lines
      modifies this
      ensures Valid()
      ensures match LinesSpec(fs, path, 0, old(stack), Members(old(done)))
              case Expanded(ls, d) =>
                ok && lines == old(lines) + ls && Members(done) == d && stack == old(stack) && Covers(runs, lines)
              case _ => !ok
      decreases 2 * |fs.lines.Keys - Members(done)| + 1, 0
    {
      hide Covers, IncludeSpec, LinesSpec, IncludeOf, Running, Texts, Members, Then;
      var text := fs.lines[fs.Canon(path)];
      ghost var base, s1, d1 := lines, stack, Members(done);
      var runStart, runSource := combined + 1, 1;
      RunBegins(runs, lines, path, runSource);
      ThenNothing(LinesSpec(fs, path, 0, s1, d1));
      assert lines[|base|..] == [];
      for i := 0 to |text|
        invariant Valid() && stack == s1 && d1 <= Members(done)
        invariant base <= lines && 1 <= runStart <= |lines| + 1 && Running(runs, lines, runStart, path, runSource)
        invariant runSource + |lines| - runStart == i
        invariant LinesSpec(fs, path, 0, s1, d1) ==
                  Then(lines[|base|..], LinesSpec(fs, path, i, s1, Members(done)))
      {
        LinesStep(fs, path, i, s1, Members(done));
        ThenFails(lines[|base|..]);
        ghost var now, d := lines, Members(done);
        var inc := MatchIncludeDirective(text[i]);
        if inc.Some? {
          PushRun(runStart, path, runSource);
          Subset(fs.lines.Keys - Members(done), fs.lines.Keys - d1);
          ok := Include(path, inc.value);
          if !ok {
            return false;
          }
          ThenTwice(now[|base|..], lines[|now|..], LinesSpec(fs, path, i + 1, s1, Members(done)));
          assert now[|base|..] + lines[|now|..] == lines[|base|..];
          runStart, runSource := combined + 1, i + 2;
          RunBegins(runs, lines, path, runSource);
        } else {
          Emit(path, i + 1, text[i]);
          RunGrows(runs, now, runStart, path, runSource, text[i]);
          ThenTwice(now[|base|..], [Line(path, i + 1, text[i])], LinesSpec(fs, path, i + 1, s1, d));
          assert now[|base|..] + [Line(path, i + 1, text[i])] == lines[|base|..];
        }
      }
      PushRun(runStart, path, runSource);
      LinesEnd(fs, path, s1, Members(done));
      ThenEnd(lines[|base|..], Members(done));
      assert lines == base + lines[|base|..];
      return true;
    }
  }

  ghost function Members(list: seq<Path>): set<Path> {
    set p | p in list
  }

  /** What a directive stands for. */
  ghost function IncludeSpec(fs: Files, path: Path, inc: string, stack: seq<Path>, done: set<Path>): (r: Expansion)
    ensures r.Expanded? ==> done <= r.done
  {
    match fs.Search(path, inc)
    case None => Missing(path)
    case Some(child) => ExpandSpec(fs, child, true, stack, done)
  }

  /** `first` in front of an expansion. */
  ghost function Then(first: seq<Line>, r: Expansion): Expansion {
    match r
    case Expanded(rest, d) => Expanded(first + rest, d)
    case e => e
  }

  lemma {:induction false} ThenNothing(r: Expansion)
    ensures Then([], r) == r
  {
    if r.Expanded? {
      assert [] + r.lines == r.lines;
    }
  }

  lemma {:induction false} ThenFails(first: seq<Line>)
    ensures forall p :: Then(first, Missing(p)) == Missing(p) && Then(first, Circular(p)) == Circular(p)
  {}

  lemma {:induction false} ThenEnd(first: seq<Line>, done: set<Path>)
    ensures Then(first, Expanded([], done)) == Expanded(first, done)
  {
    assert first + [] == first;
  }

  lemma {:induction false} ThenTwice(a: seq<Line>, b: seq<Line>, r: Expansion)
    ensures Then(a, Then(b, r)) == Then(a + b, r)
  {
    if r.Expanded? {
      assert a + (b + r.lines) == a + b + r.lines;
    }
  }

  lemma {:induction false} LinesStep(fs: Files, path: Path, i: nat, stack: seq<Path>, done: set<Path>)
    requires fs.Canon(path) in fs.lines && i < |fs.lines[fs.Canon(path)]|
    ensures var text := fs.lines[fs.Canon(path)][i];
            LinesSpec(fs, path, i, stack, done) ==
            match IncludeOf(text)
            case None => Then([Line(path, i + 1, text)], LinesSpec(fs, path, i + 1, stack, done))
            case Some(inc) =>
              match IncludeSpec(fs, path, inc, stack, done)
              case Expanded(first, d) => Then(first, LinesSpec(fs, path, i + 1, stack, d))
              case e => e
  {
    hide ExpandSpec, IncludeOf;
  }

  lemma {:induction false} LinesEnd(fs: Files, path: Path, stack: seq<Path>, done: set<Path>)
    requires fs.Canon(path) in fs.lines
    ensures LinesSpec(fs, path, |fs.lines[fs.Canon(path)]|, stack, done) == Expanded([], done)
  {}

  lemma {:induction false} RunBegins(runs: seq<Run>, lines: seq<Line>, file: Path, source: nat)
    requires Covers(runs, lines)
    ensures Running(runs, lines, |lines| + 1, file, source)
  {
    assert lines[..|lines|] == lines;
  }

  lemma {:induction false} RunGrows(runs: seq<Run>, lines: seq<Line>, from: nat, file: Path, source: nat, text: string)
    requires Running(runs, lines, from, file, source)
    ensures Running(runs, lines + [Line(file, source + (|lines| + 1 - from), text)], from, file, source)
  {
    var more := lines + [Line(file, source + (|lines| + 1 - from), text)];
    assert more[from - 1..] == lines[from - 1..] + [Line(file, source + (|lines| + 1 - from), text)];
    assert more[..from - 1] == lines[..from - 1];
  }

  /** The combined text of a program and its line map; false when a file is missing or
      includes itself. */
  method ExpandIncludes(fs: Files, entry: Path) returns (ok: bool, out: seq<string>, runs: seq<Run>)
    ensures ok <==> ExpandSpec(fs, entry, false, [], {}).Expanded?
    ensures ok ==> out == Texts(ExpandSpec(fs, entry, false, [], {}).lines)
    ensures ok ==> Covers(runs, ExpandSpec(fs, entry, false, [], {}).lines)
  {
    hide Covers, ExpandSpec;
    var p := new Preprocessor(fs);
    assert Members(p.done) == {};
    ok := p.ExpandFile(entry, false);
    out, runs := p.out, p.runs;
    ThenNothing(ExpandSpec(fs, entry, false, [], {}));
  }

  // ---------------------------------------------------------------------------
  // The line map
  // ---------------------------------------------------------------------------

  lemma {:induction false} FitsLonger(r: Run, lines: seq<Line>, n: nat)
    requires n <= |lines| && RunFits(r, lines[..n])
    ensures RunFits(r, lines) && r.end <= n
  {
    assert lines[..n][r.start - 1..r.end] == lines[r.start - 1..r.end];
  }

  /** Every run says where its lines come from. */
  lemma {:induction false} EveryRunFits(runs: seq<Run>, lines: seq<Line>)
    requires Covers(runs, lines)
    ensures forall i :: 0 <= i < |runs| ==> RunFits(runs[i], lines)
    decreases |runs|
  {
    if |runs| > 0 {
      hide RunFits;
      var n := |runs| - 1;
      EveryRunFits(runs[..n], lines[..runs[n].start - 1]);
      forall i | 0 <= i < n
        ensures RunFits(runs[i], lines)
      {
        assert runs[i] == runs[..n][i];
        FitsLonger(runs[i], lines, runs[n].start - 1);
      }
    }
  }

  /** There is no gap between consecutive runs; they start at line 1 and end with the last. */
  lemma {:induction false} RunsAdjacent(runs: seq<Run>, lines: seq<Line>)
    requires Covers(runs, lines)
    ensures forall i :: 1 <= i < |runs| ==> runs[i - 1].end + 1 == runs[i].start
    ensures |runs| == 0 <==> |lines| == 0
    ensures |runs| > 0 ==> runs[0].start == 1 && runs[|runs| - 1].end == |lines|
    decreases |runs|
  {
    if |runs| > 0 {
      hide Consecutive;
      var n := |runs| - 1;
      var before := runs[..n];
      RunsAdjacent(before, lines[..runs[n].start - 1]);
      forall i | 1 <= i < |runs|
        ensures runs[i - 1].end + 1 == runs[i].start
      {
        assert runs[i - 1] == before[i - 1];
        if i < n {
          assert runs[i] == before[i];
        }
      }
      if n > 0 {
        assert before[0] == runs[0];
      }
    }
  }

  /** The runs are in order and do not overlap. */
  lemma {:induction false} RunsOrdered(runs: seq<Run>, lines: seq<Line>, i: nat, j: nat)
    requires Covers(runs, lines) && i < j < |runs|
    ensures runs[i].end < runs[j].start
    decreases j
  {
    hide Covers;
    RunsAdjacent(runs, lines);
    if i < j - 1 {
      RunsOrdered(runs, lines, i, j - 1);
      EveryRunFits(runs, lines);
      assert RunFits(runs[j - 1], lines);
    }
  }

  /** Some run contains line `k`. */
  lemma {:induction false} RunOf(runs: seq<Run>, lines: seq<Line>, k: nat) returns (i: nat)
    requires Covers(runs, lines) && 1 <= k <= |lines|
    ensures i < |runs| && runs[i].start <= k <= runs[i].end
    decreases |runs|
  {
    var n := |runs| - 1;
    if runs[n].start <= k {
      i := n;
    } else {
      i := RunOf(runs[..n], lines[..runs[n].start - 1], k);
    }
  }

  lemma {:induction false} FitsAt(r: Run, lines: seq<Line>, k: nat)
    requires RunFits(r, lines) && r.start <= k <= r.end
    ensures lines[k - 1].file == r.file && lines[k - 1].number == r.source + (k - r.start)
  {
    assert lines[k - 1] == lines[r.start - 1..r.end][k - r.start];
  }

  /** The map gives line `number` of `file` for combined line `k`. */
  ghost predicate Locates(runs: seq<Run>, k: int, file: Path, number: int) {
    exists i :: 0 <= i < |runs| && runs[i].start <= k <= runs[i].end &&
                file == runs[i].file && number == runs[i].source + (k - runs[i].start)
  }

  lemma {:induction false} LocatesLine(runs: seq<Run>, lines: seq<Line>, k: int, file: Path, number: int)
    requires Locates(runs, k, file, number) && forall i :: 0 <= i < |runs| ==> RunFits(runs[i], lines)
    ensures 1 <= k <= |lines| && file == lines[k - 1].file && number == lines[k - 1].number
  {
    var i :| 0 <= i < |runs| && runs[i].start <= k <= runs[i].end &&
      file == runs[i].file && number == runs[i].source + (k - runs[i].start);
    FitsAt(runs[i], lines, k);
  }

  /** Where combined line `k` comes from. Lines after the last one are reported as the last
      one, lines before the first as themselves in the fallback file. */
  method ResolveSourceLocation(runs: seq<Run>, k: int, fallback: Path, ghost lines: seq<Line>)
    returns (file: Path, number: int)
    requires Covers(runs, lines)
    ensures 1 <= k <= |lines| ==> file == lines[k - 1].file && number == lines[k - 1].number
    ensures 1 <= k <= |lines| ==> Locates(runs, k, file, number)
    ensures k > |lines| > 0 ==> file == lines[|lines| - 1].file && number == lines[|lines| - 1].number
    ensures k < 1 || |lines| == 0 ==> file == fallback && number == k
  {
    hide RunFits, Covers;
    RunsAdjacent(runs, lines);
    EveryRunFits(runs, lines);
    if |runs| == 0 {
      return fallback, k;
    }
    RunBounds(runs, lines);
    for i := 0 to |runs|
      invariant forall j :: 0 <= j < i ==> !(runs[j].start <= k <= runs[j].end)
    {
      if runs[i].start <= k <= runs[i].end {
        FitsAt(runs[i], lines, k);
        return runs[i].file, runs[i].source + (k - runs[i].start);
      }
    }
    if 1 <= k <= |lines| {
      ghost var i := RunOf(runs, lines, k);
      assert false;
    }
    var best := -1;
    for i := 0 to |runs|
      invariant -1 <= best < i && (best == -1 ==> forall j :: 0 <= j < i ==> runs[j].end >= k)
      invariant best >= 0 ==> runs[best].end < k && forall j :: 0 <= j < i && runs[j].end < k ==>
                runs[j].end <= runs[best].end
    {
      if runs[i].end < k && (best == -1 || runs[i].end > runs[best].end) {
        best := i;
      }
    }
    if best >= 0 {
      LastRun(runs, lines, best);
      return runs[best].file, runs[best].source + (runs[best].end - runs[best].start);
    }
    return fallback, k;
  }

  lemma {:induction false} RunBounds(runs: seq<Run>, lines: seq<Line>)
    requires forall i :: 0 <= i < |runs| ==> RunFits(runs[i], lines)
    ensures forall i :: 0 <= i < |runs| ==> 1 <= runs[i].start <= runs[i].end <= |lines|
  {}

  lemma {:induction false} LastRun(runs: seq<Run>, lines: seq<Line>, i: nat)
    requires i < |runs| && RunFits(runs[i], lines) && runs[i].end == |lines|
    ensures lines[|lines| - 1].file == runs[i].file
    ensures lines[|lines| - 1].number == runs[i].source + (runs[i].end - runs[i].start)
  {
    FitsAt(runs[i], lines, runs[i].end);
  }
}
