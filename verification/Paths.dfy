/** Paths: normalized components, relative and absolute forms. The current directory is a
    parameter. */
module Paths {
  import opened Characters

  const MAX_PARTS := 256

  predicate Separator(c: char) {
    c == '/' || c == '\\'
  }

  predicate Absolute(path: string) {
    (|path| > 0 && Separator(path[0])) || (|path| > 1 && path[1] == ':')
  }

  // ---------------------------------------------------------------------------
  // Components
  // ---------------------------------------------------------------------------

  function TokenEnd(s: string, i: nat): (e: nat)
    requires i <= |s|
    ensures i <= e <= |s| && (e < |s| ==> Separator(s[e])) && forall k :: i <= k < e ==> !Separator(s[k])
    decreases |s| - i
  {
    if i < |s| && !Separator(s[i]) then TokenEnd(s, i + 1) else i
  }

  /** The pieces between separators from position `i` on. */
  function Tokens(s: string, i: nat): (toks: seq<string>)
    requires i <= |s|
    ensures |toks| > 0
    decreases |s| - i
  {
    var e := TokenEnd(s, i);
    if e == |s| then [s[i..e]] else [s[i..e]] + Tokens(s, e + 1)
  }

  /** One piece: `.` and empty ones are dropped, `..` takes back the component before, and
      nothing is added beyond `max` components. */
  function Push(parts: seq<string>, tok: string, max: nat): seq<string> {
    if tok == "" || tok == "." then parts
    else if tok == ".." then if |parts| > 0 then parts[..|parts| - 1] else parts
    else if |parts| < max then parts + [tok]
    else parts
  }

  function PushAll(parts: seq<string>, toks: seq<string>, max: nat): seq<string>
    decreases |toks|
  {
    if |toks| == 0 then parts else PushAll(Push(parts, toks[0], max), toks[1..], max)
  }

  function FullPath(cwd: string, path: string): string {
    if Absolute(path) then path else cwd + "/" + path
  }

  /** The components of a path. */
  function Split(cwd: string, path: string, max: nat): seq<string> {
    PushAll([], Tokens(FullPath(cwd, path), 0), max)
  }

  predicate Plain(part: string) {
    forall k :: 0 <= k < |part| ==> !Separator(part[k])
  }

  ghost predicate AllPlain(parts: seq<string>) {
    forall i :: 0 <= i < |parts| ==> Plain(parts[i])
  }

  /** A component that stands for itself. */
  predicate Proper(part: string) {
    part != "" && part != "." && part != ".." && Plain(part)
  }

  ghost predicate AllProper(parts: seq<string>) {
    forall i :: 0 <= i < |parts| ==> Proper(parts[i])
  }

  lemma {:induction false} TokensPlain(s: string, i: nat)
    requires i <= |s|
    ensures AllPlain(Tokens(s, i))
    decreases |s| - i
  {
    var e := TokenEnd(s, i);
    if e < |s| {
      TokensPlain(s, e + 1);
    }
  }

  lemma {:induction false} PushProper(parts: seq<string>, toks: seq<string>, max: nat)
    requires AllProper(parts) && |parts| <= max
    requires AllPlain(toks)
    ensures AllProper(PushAll(parts, toks, max)) && |PushAll(parts, toks, max)| <= max
    decreases |toks|
  {
    if |toks| > 0 {
      PushProper(Push(parts, toks[0], max), toks[1..], max);
    }
  }

  /** Normalized components are not empty, not `.` or `..`, and contain no separator. */
  lemma {:induction false} SplitProper(cwd: string, path: string, max: nat)
    ensures AllProper(Split(cwd, path, max)) && |Split(cwd, path, max)| <= max
  {
    hide Tokens, PushAll, Proper;
    TokensPlain(FullPath(cwd, path), 0);
    PushProper([], Tokens(FullPath(cwd, path), 0), max);
  }

  // ---------------------------------------------------------------------------
  // Pieces of joined paths
  // ---------------------------------------------------------------------------

  lemma {:induction false} TokenEndTwo(a: string, b: string, i: nat)
    requires i <= |a|
    ensures TokenEnd(a + "/" + b, i) == TokenEnd(a, i)
    decreases |a| - i
  {
    var s := a + "/" + b;
    if i < |a| {
      assert s[i] == a[i];
      if !Separator(a[i]) {
        TokenEndTwo(a, b, i + 1);
      }
    } else {
      assert s[i] == '/';
    }
  }

  lemma {:induction false} TokenEndShift(a: string, b: string, i: nat)
    requires i <= |b|
    ensures TokenEnd(a + b, |a| + i) == |a| + TokenEnd(b, i)
    decreases |b| - i
  {
    if i < |b| {
      assert (a + b)[|a| + i] == b[i];
      if !Separator(b[i]) {
        TokenEndShift(a, b, i + 1);
      }
    }
  }

  lemma {:induction false} TokensShift(a: string, b: string, i: nat)
    requires i <= |b|
    ensures Tokens(a + b, |a| + i) == Tokens(b, i)
    decreases |b| - i
  {
    var e := TokenEnd(b, i);
    TokenEndShift(a, b, i);
    assert (a + b)[|a| + i..|a| + e] == b[i..e];
    if e < |b| {
      TokensShift(a, b, e + 1);
    }
  }

  lemma {:induction false} TokensStep(s: string, i: nat, e: nat)
    requires i <= |s| && e == TokenEnd(s, i)
    ensures e == |s| ==> Tokens(s, i) == [s[i..e]]
    ensures e < |s| ==> Tokens(s, i) == [s[i..e]] + Tokens(s, e + 1)
  {
    hide TokenEnd;
  }

  /** The pieces of a joined path are those of its parts. */
  lemma {:induction false} TokensTwo(a: string, b: string, i: nat)
    requires i <= |a|
    ensures Tokens(a + "/" + b, i) == Tokens(a, i) + Tokens(b, 0)
    decreases |a| - i
  {
    hide Tokens, TokenEnd;
    var s := a + "/" + b;
    var e := TokenEnd(a, i);
    TokenEndTwo(a, b, i);
    TokensStep(a, i, e);
    TokensStep(s, i, e);
    assert s[i..e] == a[i..e];
    if e == |a| {
      TokensShift(a + "/", b, 0);
    } else {
      TokensTwo(a, b, e + 1);
      assert Tokens(a, i) + Tokens(b, 0) == [a[i..e]] + (Tokens(a, e + 1) + Tokens(b, 0));
    }
  }

  lemma {:induction false} PushTwo(parts: seq<string>, a: seq<string>, b: seq<string>, max: nat)
    ensures PushAll(parts, a + b, max) == PushAll(PushAll(parts, a, max), b, max)
    decreases |a|
  {
    if |a| == 0 {
      assert a + b == b;
    } else {
      assert (a + b)[1..] == a[1..] + b;
      PushTwo(Push(parts, a[0], max), a[1..], b, max);
    }
  }

  lemma {:induction false} WholeToken(s: string, i: nat)
    requires i <= |s| && forall k :: i <= k < |s| ==> !Separator(s[k])
    ensures TokenEnd(s, i) == |s|
    decreases |s| - i
  {
    if i < |s| {
      WholeToken(s, i + 1);
    }
  }

  // ---------------------------------------------------------------------------
  // Relative and absolute paths
  // ---------------------------------------------------------------------------

  function Ups(n: nat): string {
    if n == 0 then "" else "../" + Ups(n - 1)
  }

  function Slashed(parts: seq<string>): string {
    if |parts| == 0 then ""
    else if |parts| == 1 then parts[0]
    else parts[0] + "/" + Slashed(parts[1..])
  }

  /** How many components both have in common, the last of `to` excepted. */
  function Common(from: seq<string>, to: seq<string>, i: nat): (c: nat)
    requires i <= |from| && i <= |to| && (i < |to| || i == 0)
    ensures i <= c <= |from| && c <= |to| && from[i..c] == to[i..c] && (|to| > 0 ==> c < |to|)
    decreases |from| - i
  {
    if i < |from| && i + 1 < |to| && from[i] == to[i] then Common(from, to, i + 1) else i
  }

  function RelativeTo(cwd: string, fromDir: string, target: string): string {
    var from, to := Split(cwd, fromDir, MAX_PARTS), Split(cwd, target, MAX_PARTS);
    var c := Common(from, to, 0);
    Ups(|from| - c) + Slashed(to[c..])
  }

  /** A path taken from a directory; an empty directory is the current one. */
  function Join(dir: string, path: string): string {
    (if dir == "" then "." else dir) + "/" + path
  }

  predicate Drive(part: string) {
    |part| == 2 && part[1] == ':' && Letter(part[0])
  }

  function AbsolutePath(cwd: string, path: string): string {
    Rooted(Split(cwd, path, MAX_PARTS))
  }

  /** A drive needs no separator in front. */
  function Rooted(parts: seq<string>): string {
    if |parts| == 0 then "/"
    else if Drive(parts[0]) then Slashed(parts)
    else "/" + Slashed(parts)
  }

  lemma {:induction false} TokensSlashed(parts: seq<string>)
    requires |parts| > 0 && AllPlain(parts)
    ensures Tokens(Slashed(parts), 0) == parts
    decreases |parts|
  {
    if |parts| == 1 {
      WholeToken(parts[0], 0);
      assert parts[0][0..|parts[0]|] == parts[0];
    } else {
      TokensTwo(parts[0], Slashed(parts[1..]), 0);
      WholeToken(parts[0], 0);
      assert parts[0][0..|parts[0]|] == parts[0];
      TokensSlashed(parts[1..]);
    }
  }

  lemma {:induction false} PushSlashed(base: seq<string>, parts: seq<string>, max: nat)
    requires AllProper(parts) && |base| + |parts| <= max
    ensures PushAll(base, parts, max) == base + parts
    decreases |parts|
  {
    if |parts| > 0 {
      assert Proper(parts[0]);
      PushSlashed(base + [parts[0]], parts[1..], max);
      assert base + [parts[0]] + parts[1..] == base + parts;
    }
  }

  lemma {:induction false} TokensUps(n: nat, rest: string)
    ensures |Tokens(Ups(n) + rest, 0)| > n && Tokens(Ups(n) + rest, 0)[n..] == Tokens(rest, 0)
    ensures forall k :: 0 <= k < n ==> Tokens(Ups(n) + rest, 0)[k] == ".."
  {
    hide Tokens;
    if n == 0 {
      assert Ups(n) + rest == rest;
    } else {
      var s := Ups(n - 1) + rest;
      assert Ups(n) + rest == ".." + "/" + s;
      TokensTwo("..", s, 0);
      UpToken();
      TokensUps(n - 1, rest);
    }
  }

  lemma {:induction false} UpToken()
    ensures Tokens("..", 0) == [".."]
  {
    WholeToken("..", 0);
    assert ".."[0..2] == "..";
  }

  lemma {:induction false} PushUps(parts: seq<string>, toks: seq<string>, n: nat, max: nat)
    requires n <= |toks| && n <= |parts| && forall k :: 0 <= k < n ==> toks[k] == ".."
    ensures PushAll(parts, toks, max) == PushAll(parts[..|parts| - n], toks[n..], max)
    decreases n
  {
    if n == 0 {
      assert parts[..|parts|] == parts && toks[0..] == toks;
    } else {
      var less := parts[..|parts| - 1];
      PushUps(less, toks[1..], n - 1, max);
      assert less[..|less| - (n - 1)] == parts[..|parts| - n] && toks[1..][n - 1..] == toks[n..];
    }
  }

  lemma {:induction false} PushSlashedPath(base: seq<string>, parts: seq<string>, max: nat)
    requires AllProper(parts) && |base| + |parts| <= max
    ensures PushAll(base, Tokens(Slashed(parts), 0), max) == base + parts
  {
    hide Tokens, Slashed;
    if |parts| == 0 {
      EmptyPath(parts);
      assert PushAll(base, [""], max) == PushAll(base, [""][1..], max) == base;
    } else {
      TokensSlashed(parts);
      PushSlashed(base, parts, max);
    }
  }

  lemma {:induction false} EmptyPath(parts: seq<string>)
    requires |parts| == 0
    ensures Tokens(Slashed(parts), 0) == [""]
  {}

  lemma {:induction false} FullJoin(cwd: string, dir: string, path: string, max: nat)
    ensures PushAll([], Tokens(FullPath(cwd, Join(dir, path)), 0), max) ==
            PushAll(Split(cwd, dir, max), Tokens(path, 0), max)
  {
    hide Tokens, PushAll;
    var d := if dir == "" then "." else dir;
    var full := FullPath(cwd, d);
    assert FullPath(cwd, Join(dir, path)) == full + "/" + path;
    TokensTwo(full, path, 0);
    PushTwo([], Tokens(full, 0), Tokens(path, 0), max);
    if dir == "" {
      DotIsEmpty(cwd, max);
    }
  }

  lemma {:induction false} DotIsEmpty(cwd: string, max: nat)
    ensures Split(cwd, ".", max) == Split(cwd, "", max)
  {
    hide PushAll;
    TokensTwo(cwd, ".", 0);
    TokensTwo(cwd, "", 0);
    WholeToken(".", 0);
    assert "."[0..1] == "." && Tokens(".", 0) == ["."];
    assert Tokens("", 0) == [""];
    PushTwo([], Tokens(cwd, 0), ["."], max);
    PushTwo([], Tokens(cwd, 0), [""], max);
    PushNothing(PushAll([], Tokens(cwd, 0), max), max);
  }

  lemma {:induction false} PushNothing(parts: seq<string>, max: nat)
    ensures PushAll(parts, ["."], max) == parts && PushAll(parts, [""], max) == parts
  {
    assert ["."][1..] == [] && [""][1..] == [];
  }

  /** Following the relative path from the directory leads to the target. */
  lemma {:induction false} RelativeLeadsToTarget(cwd: string, fromDir: string, target: string)
    ensures Split(cwd, Join(fromDir, RelativeTo(cwd, fromDir, target)), MAX_PARTS) == Split(cwd, target, MAX_PARTS)
  {
    hide Tokens, PushAll, Split, Proper, Slashed, Ups;
    var from, to := Split(cwd, fromDir, MAX_PARTS), Split(cwd, target, MAX_PARTS);
    SplitProper(cwd, target, MAX_PARTS);
    var c := Common(from, to, 0);
    var rest := Slashed(to[c..]);
    var rel := Ups(|from| - c) + rest;
    JoinSplit(cwd, fromDir, rel);
    TokensUps(|from| - c, rest);
    PushUps(from, Tokens(rel, 0), |from| - c, MAX_PARTS);
    assert from[..|from| - (|from| - c)] == from[0..c] == to[0..c];
    PushSlashedPath(to[0..c], to[c..], MAX_PARTS);
    assert to[0..c] + to[c..] == to;
  }

  lemma {:induction false} JoinSplit(cwd: string, dir: string, path: string)
    ensures Split(cwd, Join(dir, path), MAX_PARTS) == PushAll(Split(cwd, dir, MAX_PARTS), Tokens(path, 0), MAX_PARTS)
  {
    FullJoin(cwd, dir, path, MAX_PARTS);
  }

  /** The absolute path has the same components, whatever the current directory. */
  lemma {:induction false} AbsoluteKeeps(cwd: string, path: string, other: string)
    ensures Absolute(AbsolutePath(cwd, path))
    ensures Split(other, AbsolutePath(cwd, path), MAX_PARTS) == Split(cwd, path, MAX_PARTS)
  {
    hide Tokens, PushAll, Split, Proper;
    var parts := Split(cwd, path, MAX_PARTS);
    SplitProper(cwd, path, MAX_PARTS);
    if |parts| == 0 {
      RootIsEmpty(other);
    } else if Drive(parts[0]) {
      DriveFirst(parts);
      AbsoluteSplit(other, Slashed(parts));
      PushSlashedPath([], parts, MAX_PARTS);
      assert [] + parts == parts;
    } else {
      RootedSplit(other, Slashed(parts));
      PushSlashedPath([], parts, MAX_PARTS);
      assert [] + parts == parts;
    }
  }

  lemma {:induction false} DriveFirst(parts: seq<string>)
    requires |parts| > 0 && Drive(parts[0])
    ensures Absolute(Slashed(parts))
  {}

  lemma {:induction false} AbsoluteSplit(cwd: string, path: string)
    requires Absolute(path)
    ensures Split(cwd, path, MAX_PARTS) == PushAll([], Tokens(path, 0), MAX_PARTS)
  {}

  lemma {:induction false} RootedSplit(cwd: string, path: string)
    ensures Absolute("/" + path) && Split(cwd, "/" + path, MAX_PARTS) == PushAll([], Tokens(path, 0), MAX_PARTS)
  {
    hide PushAll;
    TokensTwo("", path, 0);
    assert "" + "/" + path == "/" + path;
    assert Tokens("", 0) == [""];
    PushTwo([], [""], Tokens(path, 0), MAX_PARTS);
    PushNothing([], MAX_PARTS);
  }

  lemma {:induction false} RootIsEmpty(cwd: string)
    ensures Split(cwd, "/", MAX_PARTS) == []
  {
    hide PushAll;
    RootedSplit(cwd, "");
    assert "/" + "" == "/";
    assert Tokens("", 0) == [""];
    PushNothing([], MAX_PARTS);
  }

  /** Making a path absolute twice changes nothing. */
  lemma {:induction false} AbsoluteTwice(cwd: string, path: string, other: string)
    ensures AbsolutePath(other, AbsolutePath(cwd, path)) == AbsolutePath(cwd, path)
  {
    hide Split;
    AbsoluteKeeps(cwd, path, other);
  }

  /** The limit on components does not show in paths of no more pieces than that. */
  lemma {:induction false} LimitUnused(parts: seq<string>, toks: seq<string>, max: nat, more: nat)
    requires |parts| + |toks| <= max <= more
    ensures PushAll(parts, toks, max) == PushAll(parts, toks, more)
    decreases |toks|
  {
    if |toks| > 0 {
      LimitUnused(Push(parts, toks[0], max), toks[1..], max, more);
    }
  }

  lemma {:induction false} SplitWithinLimit(cwd: string, path: string, more: nat)
    requires |Tokens(FullPath(cwd, path), 0)| <= MAX_PARTS <= more
    ensures Split(cwd, path, MAX_PARTS) == Split(cwd, path, more)
  {
    LimitUnused([], Tokens(FullPath(cwd, path), 0), MAX_PARTS, more);
  }

  // ---------------------------------------------------------------------------
  // The functions as written
  // ---------------------------------------------------------------------------

  /** Writes the components to the front of `parts`, as many as fit. */
  method SplitNormalized(cwd: string, path: string, parts: array<string>) returns (count: nat)
    modifies parts
    ensures count <= parts.Length && parts[..count] == Split(cwd, path, parts.Length)
  {
    hide PushAll, Tokens, TokenEnd;
    var full := FullPath(cwd, path);
    var max := parts.Length;
    count := 0;
    var tok: nat := 0;
    var more := true;
    assert parts[..0] == [];
    ghost var target := Split(cwd, path, max);
    while more
      invariant tok <= |full| && count <= max
      invariant target == if more then PushAll(parts[..count], Tokens(full, tok), max) else parts[..count]
      decreases |full| - tok, if more then 1 else 0
    {
      ghost var before := parts[..count];
      var end := tok;
      while end < |full| && !Separator(full[end])
        invariant tok <= end <= |full| && TokenEnd(full, end) == TokenEnd(full, tok)
        invariant parts[..count] == before
      {
        TokenEndOn(full, end);
        end := end + 1;
      }
      TokenEndHere(full, end);
      assert TokenEnd(full, tok) == end;
      var piece := full[tok..end];
      OnePiece(before, full, tok, max);
      if piece == "" || piece == "." {
      } else if piece == ".." {
        if count > 0 {
          count := count - 1;
        }
      } else if count < max {
        parts[count] := piece;
        count := count + 1;
      }
      assert parts[..count] == Push(before, piece, max);
      if end == |full| {
        more := false;
      } else {
        tok := end + 1;
      }
    }
  }

  lemma {:induction false} TokenEndOn(s: string, i: nat)
    requires i < |s| && !Separator(s[i])
    ensures TokenEnd(s, i) == TokenEnd(s, i + 1)
  {}

  lemma {:induction false} TokenEndHere(s: string, i: nat)
    requires i <= |s| && (i == |s| || Separator(s[i]))
    ensures TokenEnd(s, i) == i
  {}

  lemma {:induction false} OnePiece(parts: seq<string>, s: string, i: nat, max: nat)
    requires i <= |s|
    ensures var e := TokenEnd(s, i);
            var next := Push(parts, s[i..e], max);
            PushAll(parts, Tokens(s, i), max) == if e == |s| then next else PushAll(next, Tokens(s, e + 1), max)
  {
    var e := TokenEnd(s, i);
    if e < |s| {
      assert Tokens(s, i)[1..] == Tokens(s, e + 1);
    } else {
      assert Tokens(s, i)[1..] == [];
    }
  }

  method PathRelativeTo(cwd: string, fromDir: string, target: string) returns (path: string)
    ensures path == RelativeTo(cwd, fromDir, target)
  {
    hide Split, Slashed, Ups;
    var from, to := new string[MAX_PARTS](i => ""), new string[MAX_PARTS](i => "");
    var nf := SplitNormalized(cwd, fromDir, from);
    var nt := SplitNormalized(cwd, target, to);
    ghost var fromParts, toParts := from[..nf], to[..nt];
    assert fromParts == Split(cwd, fromDir, MAX_PARTS) && toParts == Split(cwd, target, MAX_PARTS);
    var common := 0;
    while common < nf && common + 1 < nt && from[common] == to[common]
      invariant common <= nf && common <= nt && (common < nt || common == 0)
      invariant Common(fromParts, toParts, 0) == Common(fromParts, toParts, common)
      invariant from[..nf] == fromParts && to[..nt] == toParts
    {
      common := common + 1;
    }
    path := "";
    UpsEnds(0);
    for i := common to nf
      invariant path == Ups(i - common) && to[..nt] == toParts
    {
      UpsEnds(i - common);
      path := path + "../";
    }
    assert to[common..nt] == toParts[common..];
    var tail := SlashedFrom(to, common, nt);
    path := path + tail;
  }

  method SlashedFrom(parts: array<string>, from: nat, to: nat) returns (path: string)
    requires from <= to <= parts.Length
    ensures path == Slashed(parts[from..to])
  {
    hide Slashed;
    path := "";
    for i := from to to
      invariant Slashed(parts[from..to]) == path + Slashed(parts[i..to])
    {
      SlashedOne(parts[i..to]);
      assert parts[i..to][1..] == parts[i + 1..to];
      path := path + parts[i];
      if i + 1 < to {
        path := path + "/";
      }
    }
    SlashedOne(parts[to..to]);
  }

  lemma {:induction false} SlashedOne(parts: seq<string>)
    ensures |parts| == 0 ==> Slashed(parts) == ""
    ensures |parts| > 0 ==> Slashed(parts) == parts[0] + (if |parts| > 1 then "/" else "") + Slashed(parts[1..])
  {}

  lemma {:induction false} UpsEnds(n: nat)
    ensures Ups(0) == "" && Ups(n + 1) == Ups(n) + "../"
  {
    if n > 0 {
      UpsEnds(n - 1);
    }
  }

  lemma {:induction false} RootedFirst(parts: seq<string>)
    ensures |parts| == 0 ==> Rooted(parts) == "/"
    ensures |parts| > 0 ==> Rooted(parts) == (if Drive(parts[0]) then "" else "/") + Slashed(parts)
  {
    if |parts| > 0 {
      assert "" + Slashed(parts) == Slashed(parts);
    }
  }

  method PathAbsolute(cwd: string, path: string) returns (result: string)
    ensures result == AbsolutePath(cwd, path)
  {
    hide Split, Slashed, Rooted, Drive;
    var parts := new string[MAX_PARTS](i => "");
    var n := SplitNormalized(cwd, path, parts);
    var drive := n > 0 && Drive(parts[0]);
    result := "";
    ghost var goal := Rooted(parts[..n]);
    RootedFirst(parts[..n]);
    if n == 0 {
      return "/";
    }
    ghost var all := parts[..n];
    assert parts[0..n] == all;
    for i := 0 to n
      invariant parts[..n] == all
      invariant goal == result + (if i == n || (i == 0 && drive) then "" else "/") + Slashed(parts[i..n])
    {
      SlashedOne(parts[i..n]);
      assert parts[i..n][1..] == parts[i + 1..n];
      if !(i == 0 && drive) {
        result := result + "/";
      }
      result := result + parts[i];
    }
    SlashedOne(parts[n..n]);
  }
}
