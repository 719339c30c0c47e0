/** Textual inclusion: what `--#include` expands to, as a function of the files. */
module Includes {
  import opened Options

  type Path = string

  /** The files as the preprocessor sees them: the lines of each canonical path, the canonical
      form of paths that have one of their own, and where the search for an include written in
      a file ends. */
  datatype Files = Files(lines: map<Path, seq<string>>, canonical: map<Path, Path>, search: map<(Path, string), Path>) {

    function Canon(p: Path): Path {
      if p in canonical then canonical[p] else p
    }

    function Search(p: Path, inc: string): Option<Path> {
      if (Canon(p), inc) in search then Some(search[(Canon(p), inc)]) else None
    }
  }

  // ---------------------------------------------------------------------------
  // The directive
  // ---------------------------------------------------------------------------

  predicate Blank(c: char) {
    c == ' ' || c == '\t'
  }

  function SkipBlanks(s: string): (r: string)
    ensures |r| <= |s|
  {
    if |s| > 0 && Blank(s[0]) then SkipBlanks(s[1..]) else s
  }

  /** The text up to the closing quote; nothing when the line ends first. */
  function UpTo(s: string, quote: char): Option<string> {
    if |s| == 0 || s[0] == '\n' || s[0] == '\r' then None
    else if s[0] == quote then Some("")
    else After([s[0]], UpTo(s[1..], quote))
  }

  const DIRECTIVE := "--#include"

  /** The path an include directive names. */
  function IncludeOf(line: string): Option<string> {
    var s := SkipBlanks(line);
    if !(DIRECTIVE <= s) then None
    else
      var t := s[|DIRECTIVE|..];
      var u := SkipBlanks(t);
      if |u| == |t| || |u| == 0 || (u[0] != '"' && u[0] != '\'') then None
      else UpTo(u[1..], u[0])
  }

  predicate Blanks(s: string) {
    forall i :: 0 <= i < |s| ==> s[i] == ' ' || s[i] == '\t'
  }

  predicate Quoted(path: string, quote: char) {
    forall i :: 0 <= i < |path| ==> path[i] != quote && path[i] != '\n' && path[i] != '\r'
  }

  lemma {:induction false} SkipBlanksSplit(s: string) returns (b: string)
    ensures Blanks(b) && s == b + SkipBlanks(s)
    ensures |SkipBlanks(s)| > 0 ==> !Blank(SkipBlanks(s)[0])
  {
    if |s| > 0 && Blank(s[0]) {
      assert s == [s[0]] + s[1..];
      b := SkipBlanksSplit(s[1..]);
      b := [s[0]] + b;
    } else {
      b := "";
    }
  }

  lemma {:induction false} SkipBlanksPast(b: string, s: string)
    requires Blanks(b) && |s| > 0 && !Blank(s[0])
    ensures SkipBlanks(b + s) == s
    decreases |b|
  {
    if |b| > 0 {
      assert (b + s)[1..] == b[1..] + s;
      SkipBlanksPast(b[1..], s);
    } else {
      assert b + s == s;
    }
  }

  lemma {:induction false} UpToSplit(s: string, quote: char)
    requires UpTo(s, quote).Some? && quote != '\n' && quote != '\r'
    ensures var p := UpTo(s, quote).value; Quoted(p, quote) && p + [quote] <= s
  {
    assert s == [s[0]] + s[1..];
    if s[0] != quote {
      UpToSplit(s[1..], quote);
    } else {
      assert UpTo(s, quote).value + [quote] == [s[0]];
    }
  }

  lemma {:induction false} UpToQuote(p: string, quote: char, rest: string)
    requires Quoted(p, quote) && quote != '\n' && quote != '\r'
    ensures UpTo(p + [quote] + rest, quote) == Some(p)
    decreases |p|
  {
    if |p| > 0 {
      assert (p + [quote] + rest)[1..] == p[1..] + [quote] + rest;
      UpToQuote(p[1..], quote, rest);
      assert [p[0]] + p[1..] == p;
    } else {
      assert p == "" && (p + [quote] + rest)[0] == quote;
    }
  }

  /** The shape of a directive: blanks, the keyword, blanks, a quoted path, anything. */
  ghost predicate DirectiveShape(line: string, path: string, indent: string, gap: string, quote: char, rest: string) {
    && Blanks(indent) && Blanks(gap) && |gap| > 0 && (quote == '"' || quote == '\'') && Quoted(path, quote)
    && line == indent + ("--#include" + (gap + ([quote] + (path + [quote] + rest))))
  }

  lemma {:induction false} ShapeMatches(line: string, path: string, indent: string, gap: string, quote: char,
      rest: string)
    requires DirectiveShape(line, path, indent, gap, quote, rest)
    ensures IncludeOf(line) == Some(path)
  {
    hide SkipBlanks, UpTo;
    var u := [quote] + (path + [quote] + rest);
    var t := gap + u;
    SkipBlanksPast(indent, DIRECTIVE + t);
    assert (DIRECTIVE + t)[|DIRECTIVE|..] == t;
    SkipBlanksPast(gap, u);
    assert u[1..] == path + [quote] + rest;
    UpToQuote(path, quote, rest);
  }

  /** A line is a directive for `path` exactly when it has that shape. */
  lemma {:induction false} DirectiveExact(line: string, path: string)
    ensures IncludeOf(line) == Some(path) <==>
            exists indent, gap, quote, rest :: DirectiveShape(line, path, indent, gap, quote, rest)
  {
    if IncludeOf(line) == Some(path) {
      hide SkipBlanks, UpTo;
      var s := SkipBlanks(line);
      var indent := SkipBlanksSplit(line);
      var t := s[|DIRECTIVE|..];
      var u := SkipBlanks(t);
      var gap := SkipBlanksSplit(t);
      UpToSplit(u[1..], u[0]);
      var rest := u[1..][|path| + 1..];
      assert u[1..] == path + [u[0]] + rest;
      assert u == [u[0]] + u[1..];
      assert s == DIRECTIVE + t;
      assert DirectiveShape(line, path, indent, gap, u[0], rest);
    }
    forall indent, gap, quote, rest | DirectiveShape(line, path, indent, gap, quote, rest)
      ensures IncludeOf(line) == Some(path)
    {
      ShapeMatches(line, path, indent, gap, quote, rest);
    }
  }

  /** The scan for a directive. */
  method MatchIncludeDirective(line: string) returns (path: Option<string>)
    ensures path == IncludeOf(line)
  {
    hide SkipBlanks, UpTo;
    assert line[0..] == line;
    var p := PastBlanks(line, 0);
    if !(DIRECTIVE <= line[p..]) {
      return None;
    }
    var q := p + |DIRECTIVE|;
    assert line[p..][|DIRECTIVE|..] == line[q..];
    p := PastBlanks(line, q);
    if p == q || p == |line| || (line[p] != '"' && line[p] != '\'') {
      return None;
    }
    assert line[p..][1..] == line[p + 1..];
    path := ReadUpTo(line, p + 1, line[p]);
  }

  method PastBlanks(line: string, from: nat) returns (p: nat)
    requires from <= |line|
    ensures from <= p <= |line| && line[p..] == SkipBlanks(line[from..])
  {
    p := from;
    while p < |line| && Blank(line[p])
      invariant from <= p <= |line| && SkipBlanks(line[from..]) == SkipBlanks(line[p..])
    {
      assert line[p..][1..] == line[p + 1..];
      p := p + 1;
    }
  }

  method ReadUpTo(line: string, start: nat, quote: char) returns (r: Option<string>)
    requires start <= |line| && (quote == '"' || quote == '\'')
    ensures r == UpTo(line[start..], quote)
  {
    hide UpTo, After;
    var p := start;
    ghost var target := UpTo(line[start..], quote);
    AfterNothing(line[start..p], target);
    while p < |line| && line[p] != quote && line[p] != '\n' && line[p] != '\r'
      invariant start <= p <= |line|
      invariant target == After(line[start..p], UpTo(line[p..], quote))
    {
      assert line[start..p + 1] == line[start..p] + [line[p]];
      UpToAt(line, p, quote);
      AfterMore(line[start..p], line[p], UpTo(line[p + 1..], quote));
      p := p + 1;
    }
    UpToAt(line, p, quote);
    AfterEnd(line[start..p]);
    if p == |line| || line[p] != quote {
      return None;
    }
    return Some(line[start..p]);
  }

  lemma {:induction false} UpToAt(line: string, p: nat, quote: char)
    requires p <= |line| && (quote == '"' || quote == '\'')
    ensures UpTo(line[p..], quote) ==
            if p == |line| || line[p] == '\n' || line[p] == '\r' then None
            else if line[p] == quote then Some("")
            else After([line[p]], UpTo(line[p + 1..], quote))
  {
    if p < |line| {
      assert line[p..][1..] == line[p + 1..];
    }
  }

  lemma {:induction false} AfterEnd(read: string)
    ensures After(read, None) == None && After(read, Some("")) == Some(read)
  {
    assert read + "" == read;
  }

  function After(read: string, r: Option<string>): Option<string> {
    match r
    case None => None
    case Some(rest) => Some(read + rest)
  }

  lemma {:induction false} AfterNothing(read: string, r: Option<string>)
    requires |read| == 0
    ensures After(read, r) == r
  {
    if r.Some? {
      assert read + r.value == r.value;
    }
  }

  lemma {:induction false} AfterMore(read: string, c: char, r: Option<string>)
    ensures After(read, After([c], r)) == After(read + [c], r)
  {
    if r.Some? {
      assert read + ([c] + r.value) == read + [c] + r.value;
    }
  }

  // ---------------------------------------------------------------------------
  // Expansion
  // ---------------------------------------------------------------------------

  /** A line of the combined text and where it comes from. */
  datatype Line = Line(file: Path, number: nat, text: string)

  datatype Expansion = Expanded(lines: seq<Line>, done: set<Path>) | Circular(file: Path) | Missing(file: Path)

  /** A file and everything it includes. `stack` are the files being expanded, outermost
      first; `done` the files that have been included once and are not included again. */
  function ExpandSpec(fs: Files, path: Path, included: bool, stack: seq<Path>, done: set<Path>): (r: Expansion)
    ensures r.Expanded? ==> done <= r.done
    decreases 2 * |fs.lines.Keys - done| + (if included then 0 else 2), 0
  {
    var c := fs.Canon(path);
    if c in stack then Circular(path)
    else if included && c in done then Expanded([], done)
    else if c !in fs.lines then Missing(path)
    else
      Shrinks(fs.lines.Keys, done, c);
      LinesSpec(fs, path, 0, stack + [c], if included then done + {c} else done)
  }

  /** The lines of a file from line `i` on (counting from 0), directives replaced. */
  function LinesSpec(fs: Files, path: Path, i: nat, stack: seq<Path>, done: set<Path>): (r: Expansion)
    requires fs.Canon(path) in fs.lines && i <= |fs.lines[fs.Canon(path)]|
    ensures r.Expanded? ==> done <= r.done
    decreases 2 * |fs.lines.Keys - done| + 1, |fs.lines[fs.Canon(path)]| - i
  {
    var lines := fs.lines[fs.Canon(path)];
    if i == |lines| then Expanded([], done)
    else
      match IncludeOf(lines[i])
      case None =>
        (match LinesSpec(fs, path, i + 1, stack, done)
         case Expanded(rest, d) => Expanded([Line(path, i + 1, lines[i])] + rest, d)
         case e => e)
      case Some(inc) =>
        match fs.Search(path, inc)
        case None => Missing(path)
        case Some(child) =>
          match ExpandSpec(fs, child, true, stack, done)
          case Expanded(first, d) =>
            Subset(fs.lines.Keys - d, fs.lines.Keys - done);
            (match LinesSpec(fs, path, i + 1, stack, d)
             case Expanded(rest, d2) => Expanded(first + rest, d2)
             case e => e)
          case e => e
  }

  lemma {:induction false} Subset(a: set<Path>, b: set<Path>)
    requires a <= b
    ensures |a| <= |b|
    decreases b
  {
    if a != b {
      var x :| x in b && x !in a;
      Subset(a, b - {x});
    }
  }

  /** Including a file leaves one file fewer to include. */
  lemma {:induction false} Shrinks(files: set<Path>, done: set<Path>, c: Path)
    requires c in files
    ensures c !in done ==> |files - (done + {c})| == |files - done| - 1
  {
    if c !in done {
      assert files - (done + {c}) == (files - done) - {c};
    }
  }
}
