/** The names of assets in the cartridge description: of each path as many components, from
    the end, as tell it from the assets before. */
module XmlNames {
  import opened PathRules
  import opened Paths

  const MAX_COMPONENTS := 64

  /** An asset: the file it was made from, and the path of the converted file. */
  datatype Resource = Resource(filename: string, full: string)

  // ---------------------------------------------------------------------------
  // Components
  // ---------------------------------------------------------------------------

  /** The pieces that name something, no more than `max`. */
  function Named(toks: seq<string>, parts: seq<string>, max: nat): seq<string> {
    if |toks| == 0 then parts
    else if toks[0] != "" && toks[0] != "." && toks[0] != ".." && |parts| < max then
      Named(toks[1..], parts + [toks[0]], max)
    else Named(toks[1..], parts, max)
  }

  function Basename(path: string): string {
    var toks := Tokens(path, 0);
    toks[|toks| - 1]
  }

  /** The components of a path; there is always one. */
  function Components(full: string): (parts: seq<string>)
    ensures |parts| > 0
  {
    var parts := Named(Tokens(full, 0), [], MAX_COMPONENTS);
    if |parts| == 0 then [Basename(full)] else parts
  }

  function Last(parts: seq<string>, depth: nat): seq<string> {
    if depth < |parts| then parts[|parts| - depth..] else parts
  }

  function NameWithDepth(full: string, depth: nat): string {
    Slashed(Last(Components(full), depth))
  }

  lemma {:induction false} NamedPlain(toks: seq<string>, parts: seq<string>, max: nat)
    requires AllPlain(toks) && AllPlain(parts)
    ensures AllPlain(Named(toks, parts, max))
    decreases |toks|
  {
    hide Plain;
    if |toks| > 0 {
      NamedPlain(toks[1..], parts + [toks[0]], max);
      NamedPlain(toks[1..], parts, max);
    }
  }

  lemma {:induction false} ComponentsPlain(full: string)
    ensures AllPlain(Components(full))
  {
    hide Plain, Tokens, Named;
    TokensPlain(full, 0);
    NamedPlain(Tokens(full, 0), [], MAX_COMPONENTS);
  }

  // ---------------------------------------------------------------------------
  // Names
  // ---------------------------------------------------------------------------

  /** An earlier asset made from another file has this name. */
  predicate Clashes(names: seq<string>, res: seq<Resource>, i: nat, name: string)
    requires i < |res| && i <= |names|
  {
    exists j :: 0 <= j < i && names[j] == name && res[j].filename != res[i].filename
  }

  /** The least number of components from `depth` on that gives asset `i` a name of its own;
      all of them when there is none. */
  function Depth(names: seq<string>, res: seq<Resource>, i: nat, depth: nat): (d: nat)
    requires i < |res| && i <= |names| && 1 <= depth <= |Components(res[i].full)|
    ensures depth <= d <= |Components(res[i].full)|
    decreases |Components(res[i].full)| - depth
  {
    if depth < |Components(res[i].full)| && Clashes(names, res, i, NameWithDepth(res[i].full, depth)) then
      Depth(names, res, i, depth + 1)
    else depth
  }

  /** The names of the first `n` assets. */
  function Names(res: seq<Resource>, n: nat): (names: seq<string>)
    requires n <= |res|
    ensures |names| == n
  {
    if n == 0 then []
    else
      var before := Names(res, n - 1);
      before + [NameWithDepth(res[n - 1].full, Depth(before, res, n - 1, 1))]
  }

  // ---------------------------------------------------------------------------
  // What the names are
  // ---------------------------------------------------------------------------

  lemma {:induction false} DepthIsLeast(names: seq<string>, res: seq<Resource>, i: nat, depth: nat)
    requires i < |res| && i <= |names| && 1 <= depth <= |Components(res[i].full)|
    ensures var d := Depth(names, res, i, depth);
            && (forall k: nat :: depth <= k < d ==> Clashes(names, res, i, NameWithDepth(res[i].full, k)))
            && (d < |Components(res[i].full)| ==> !Clashes(names, res, i, NameWithDepth(res[i].full, d)))
    decreases |Components(res[i].full)| - depth
  {
    hide Clashes, NameWithDepth, Components;
    if depth < |Components(res[i].full)| && Clashes(names, res, i, NameWithDepth(res[i].full, depth)) {
      DepthIsLeast(names, res, i, depth + 1);
    }
  }

  lemma {:induction false} NamesGrow(res: seq<Resource>, m: nat, n: nat)
    requires m <= n <= |res|
    ensures Names(res, m) == Names(res, n)[..m]
    decreases n
  {
    hide NameWithDepth, Depth;
    if m < n {
      NamesGrow(res, m, n - 1);
      assert Names(res, n)[..n - 1] == Names(res, n - 1);
      assert Names(res, n)[..m] == Names(res, n)[..n - 1][..m];
    }
  }

  /** Every name consists of the last components of the path: of all shorter suffixes each is
      the name of an earlier asset from another file, and so is the name itself only when it is
      the whole path. */
  lemma {:induction false} ShortestSuffix(res: seq<Resource>, i: nat) returns (d: nat)
    requires i < |res|
    ensures var names, total := Names(res, |res|), |Components(res[i].full)|;
            && 1 <= d <= total && names[i] == NameWithDepth(res[i].full, d)
            && (forall k: nat :: 1 <= k < d ==> Clashes(names, res, i, NameWithDepth(res[i].full, k)))
            && (Clashes(names, res, i, names[i]) ==> d == total)
  {
    hide Clashes, NameWithDepth, Components, Depth;
    var before, names := Names(res, i), Names(res, |res|);
    d := Depth(before, res, i, 1);
    DepthIsLeast(before, res, i, 1);
    NamesGrow(res, i, |res|);
    NamesGrow(res, i + 1, |res|);
    assert names[..i + 1][i] == names[i] && Names(res, i + 1)[i] == NameWithDepth(res[i].full, d);
    forall name
      ensures Clashes(names, res, i, name) == Clashes(before, res, i, name)
    {
      SameClashes(before, names, res, i, name);
    }
  }

  lemma {:induction false} SameClashes(a: seq<string>, b: seq<string>, res: seq<Resource>, i: nat, name: string)
    requires i < |res| && |a| == i <= |b| && b[..i] == a
    ensures Clashes(a, res, i, name) == Clashes(b, res, i, name)
  {
    assert forall j :: 0 <= j < i ==> a[j] == b[j];
  }

  ghost predicate SuffixOf(a: seq<string>, b: seq<string>) {
    |a| <= |b| && b[|b| - |a|..] == a
  }

  lemma {:induction false} SlashedInjective(a: seq<string>, b: seq<string>)
    requires |a| > 0 && |b| > 0 && AllPlain(a) && AllPlain(b) && Slashed(a) == Slashed(b)
    ensures a == b
  {
    hide Tokens, Slashed;
    TokensSlashed(a);
    TokensSlashed(b);
  }

  /** Two assets from different files have different names, unless the whole path of the later
      one is the end of the path of the earlier one. */
  lemma {:induction false} NamesDiffer(res: seq<Resource>, j: nat, i: nat)
    requires j < i < |res| && res[j].filename != res[i].filename
    requires !SuffixOf(Components(res[i].full), Components(res[j].full))
    ensures Names(res, |res|)[j] != Names(res, |res|)[i]
  {
    hide Components, Slashed;
    var names := Names(res, |res|);
    var d := ShortestSuffix(res, i);
    var e := ShortestSuffix(res, j);
    if names[j] == names[i] {
      assert Clashes(names, res, i, names[i]);
      var whole, part := Components(res[i].full), Last(Components(res[j].full), e);
      ComponentsPlain(res[i].full);
      ComponentsPlain(res[j].full);
      SlashedInjective(whole, part);
    }
  }

  // ---------------------------------------------------------------------------
  // The functions as written
  // ---------------------------------------------------------------------------

  lemma {:induction false} OneNamed(s: string, i: nat, parts: seq<string>, max: nat)
    requires i <= |s|
    ensures var e := TokenEnd(s, i);
            var piece := s[i..e];
            var next := if piece != "" && piece != "." && piece != ".." && |parts| < max then parts + [piece]
                        else parts;
            Named(Tokens(s, i), parts, max) == if e == |s| then next else Named(Tokens(s, e + 1), next, max)
  {
    var e := TokenEnd(s, i);
    if e < |s| {
      assert Tokens(s, i)[1..] == Tokens(s, e + 1);
    } else {
      assert Tokens(s, i)[1..] == [];
    }
  }

  /** Writes the components to the front of `parts`, as many as fit. */
  method SplitComponents(full: string, parts: array<string>) returns (n: nat)
    modifies parts
    ensures n <= parts.Length && parts[..n] == Named(Tokens(full, 0), [], parts.Length)
  {
    hide Named, Tokens, TokenEnd;
    n := 0;
    var tok: nat := 0;
    var more := true;
    assert parts[..0] == [];
    ghost var target := Named(Tokens(full, 0), [], parts.Length);
    while more
      invariant tok <= |full| && n <= parts.Length
      invariant target == if more then Named(Tokens(full, tok), parts[..n], parts.Length) else parts[..n]
      decreases |full| - tok, if more then 1 else 0
    {
      ghost var before := parts[..n];
      var end := tok;
      while end < |full| && !Separator(full[end])
        invariant tok <= end <= |full| && TokenEnd(full, end) == TokenEnd(full, tok)
        invariant parts[..n] == before
      {
        TokenEndOn(full, end);
        end := end + 1;
      }
      TokenEndHere(full, end);
      var piece := full[tok..end];
      OneNamed(full, tok, before, parts.Length);
      if piece != "" && piece != "." && piece != ".." && n < parts.Length {
        parts[n] := piece;
        n := n + 1;
        assert parts[..n] == before + [piece];
      }
      if end == |full| {
        more := false;
      } else {
        tok := end + 1;
      }
    }
  }

  method NameOf(full: string, depth: nat) returns (name: string, total: nat)
    ensures name == NameWithDepth(full, depth) && total == |Components(full)|
  {
    hide Slashed, Named, Tokens, Components, Last, Basename;
    var parts := new string[MAX_COMPONENTS](k => "");
    total := SplitComponents(full, parts);
    ComponentsAre(full, parts[..total]);
    if total == 0 {
      parts[0] := Basename(full);
      total := 1;
      assert parts[..1] == [Basename(full)];
    }
    var d := if depth > total then total else depth;
    LastSlice(parts[..total], depth, d);
    assert parts[total - d..total] == parts[..total][total - d..];
    name := SlashedFrom(parts, total - d, total);
  }

  lemma {:induction false} ComponentsAre(full: string, named: seq<string>)
    requires named == Named(Tokens(full, 0), [], MAX_COMPONENTS)
    ensures Components(full) == if |named| == 0 then [Basename(full)] else named
  {}

  lemma {:induction false} LastSlice(parts: seq<string>, depth: nat, d: nat)
    requires d == if depth > |parts| then |parts| else depth
    ensures Last(parts, depth) == parts[|parts| - d..]
  {}

  method ResolveNames(res: seq<Resource>) returns (names: array<string>)
    ensures names[..] == Names(res, |res|)
  {
    hide Components, NameWithDepth;
    names := new string[|res|](i => "");
    for i := 0 to |res|
      invariant names[..i] == Names(res, i)
    {
      ghost var before := names[..i];
      var depth, total, done := 1, 1, false;
      NameCount(res[i].full);
      while !done
        invariant names[..i] == before && 1 <= depth <= |Components(res[i].full)|
        invariant Depth(before, res, i, 1) == Depth(before, res, i, depth)
        invariant done ==> names[i] == NameWithDepth(res[i].full, Depth(before, res, i, 1))
        decreases |Components(res[i].full)| - depth, if done then 0 else 1
      {
        names[i], total := NameOf(res[i].full, depth);
        assert names[..i] == before;
        var clash := false;
        for j := 0 to i
          invariant !clash ==> forall k :: 0 <= k < j ==> !(names[k] == names[i] && res[k].filename != res[i].filename)
          invariant names[..i] == before && names[i] == NameWithDepth(res[i].full, depth)
        {
          if names[j] == names[i] && res[j].filename != res[i].filename {
            clash := true;
            assert Clashes(before, res, i, names[i]);
            break;
          }
        }
        assert clash == Clashes(before, res, i, names[i]);
        if !clash || depth >= total {
          done := true;
        } else {
          depth := depth + 1;
        }
      }
      assert names[..i + 1] == before + [names[i]];
    }
  }

  lemma {:induction false} NameCount(full: string)
    ensures |Components(full)| >= 1
  {}

  // ---------------------------------------------------------------------------
  // What a name consists of
  // ---------------------------------------------------------------------------

  /** The pieces that are names. */
  ghost function Kept(pieces: seq<string>): seq<string> {
    if |pieces| == 0 then []
    else if pieces[0] in {"", ".", ".."} then Kept(pieces[1..])
    else [pieces[0]] + Kept(pieces[1..])
  }

  lemma {:induction false} NamedKept(toks: seq<string>, parts: seq<string>, max: nat)
    requires |parts| <= max
    ensures var all := parts + Kept(toks); Named(toks, parts, max) == if |all| <= max then all else all[..max]
    decreases |toks|
  {
    if |toks| == 0 {
      assert parts + [] == parts;
    } else if toks[0] in {"", ".", ".."} {
      NamedKept(toks[1..], parts, max);
    } else if |parts| < max {
      NamedKept(toks[1..], parts + [toks[0]], max);
      assert parts + [toks[0]] + Kept(toks[1..]) == parts + Kept(toks);
    } else {
      NamedKept(toks[1..], parts, max);
      assert (parts + Kept(toks))[..max] == parts;
      assert (parts + Kept(toks[1..]))[..max] == parts;
    }
  }

  /** The components are the first 64 names among the pieces; when there is none, the last
      piece. */
  lemma {:induction false} ComponentsText(full: string)
    ensures var pieces, kept := Tokens(full, 0), Kept(Tokens(full, 0));
            Components(full) == if |kept| == 0 then [pieces[|pieces| - 1]]
                                else if |kept| <= 64 then kept else kept[..64]
  {
    hide Tokens, Named, Kept;
    NamedKept(Tokens(full, 0), [], 64);
    assert [] + Kept(Tokens(full, 0)) == Kept(Tokens(full, 0));
  }

  /** A name of depth `d` is the last `d` components of the path with slashes between them. */
  lemma {:induction false} NameText(full: string, d: nat)
    requires 1 <= d <= |Components(full)|
    ensures var parts := Components(full);
            NameWithDepth(full, d) == Written(parts[|parts| - d..], Slashes(d - 1))
  {
    hide Components, Slashed, Written;
    var parts := Components(full);
    assert Last(parts, d) == parts[|parts| - d..];
    SlashedWritten(parts[|parts| - d..]);
  }
}
