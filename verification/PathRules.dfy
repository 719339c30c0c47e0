/** What normalized, absolute and relative paths look like: the rules of `Paths`, stated on the
    pieces a path is written with. */
module PathRules {
  import opened Paths

  // ---------------------------------------------------------------------------
  // Pieces
  // ---------------------------------------------------------------------------

  /** The pieces with separators between them. */
  function Written(pieces: seq<string>, seps: seq<char>): string
    requires |pieces| == |seps| + 1
    decreases |pieces|
  {
    if |pieces| == 1 then pieces[0] else pieces[0] + [seps[0]] + Written(pieces[1..], seps[1..])
  }

  ghost predicate SlashFree(piece: string) {
    forall k :: 0 <= k < |piece| ==> piece[k] != '/' && piece[k] != '\\'
  }

  lemma {:induction false} EndOfPiece(piece: string, rest: string, i: nat)
    requires i <= |piece| && SlashFree(piece) && (|rest| > 0 ==> rest[0] in {'/', '\\'})
    ensures TokenEnd(piece + rest, i) == |piece|
    decreases |piece| - i
  {
    var s := piece + rest;
    if i < |piece| {
      assert s[i] == piece[i];
      EndOfPiece(piece, rest, i + 1);
    } else if |rest| > 0 {
      assert s[i] == rest[0];
    }
  }

  /** A path's pieces are what stands between its slashes and backslashes. */
  lemma {:induction false} PiecesOf(pieces: seq<string>, seps: seq<char>)
    requires |pieces| == |seps| + 1 && forall i :: 0 <= i < |pieces| ==> SlashFree(pieces[i])
    requires forall i :: 0 <= i < |seps| ==> seps[i] in {'/', '\\'}
    ensures Tokens(Written(pieces, seps), 0) == pieces
    decreases |pieces|
  {
    hide Tokens, TokenEnd, SlashFree;
    var p, s := pieces[0], Written(pieces, seps);
    if |pieces| == 1 {
      EndOfPiece(p, "", 0);
      assert p + "" == p == s;
      TokensStep(s, 0, |p|);
      assert s[0..|p|] == p;
    } else {
      var more := Written(pieces[1..], seps[1..]);
      assert s == p + ([seps[0]] + more);
      EndOfPiece(p, [seps[0]] + more, 0);
      TokensStep(s, 0, |p|);
      assert s[0..|p|] == p;
      assert s == (p + [seps[0]]) + more;
      TokensShift(p + [seps[0]], more, 0);
      PiecesOf(pieces[1..], seps[1..]);
    }
  }

  // ---------------------------------------------------------------------------
  // Normalization
  // ---------------------------------------------------------------------------

  /** The components a list of pieces comes down to. */
  function Normal(pieces: seq<string>, max: nat): seq<string> {
    PushAll([], pieces, max)
  }

  lemma {:induction false} OnePush(parts: seq<string>, tok: string, max: nat)
    ensures PushAll(parts, [tok], max) == Push(parts, tok, max)
  {
    assert [tok][1..] == [];
  }

  /** Empty pieces and single dots do not matter. */
  lemma {:induction false} DotsDropped(before: seq<string>, piece: string, after: seq<string>, max: nat)
    requires piece in {"", "."}
    ensures Normal(before + [piece] + after, max) == Normal(before + after, max)
  {
    hide PushAll;
    PushTwo([], before + [piece], after, max);
    PushTwo([], before, [piece], max);
    PushTwo([], before, after, max);
    OnePush(Normal(before, max), piece, max);
  }

  /** A double dot takes back the name before it. */
  lemma {:induction false} NameTakenBack(before: seq<string>, name: string, after: seq<string>, max: nat)
    requires name !in {"", ".", ".."} && |Normal(before, max)| < max
    ensures Normal(before + [name, ".."] + after, max) == Normal(before + after, max)
  {
    hide PushAll;
    assert before + [name, ".."] == before + [name] + [".."];
    PushTwo([], before + [name, ".."], after, max);
    PushTwo([], before + [name], [".."], max);
    PushTwo([], before, [name], max);
    PushTwo([], before, after, max);
    OnePush(Normal(before, max), name, max);
    OnePush(Normal(before, max) + [name], "..", max);
  }

  /** At the root a double dot does nothing. */
  lemma {:induction false} RootStays(after: seq<string>, max: nat)
    ensures Normal([".."] + after, max) == Normal(after, max)
  {
    assert ([".."] + after)[1..] == after;
  }

  /** Names stay as they are, as many as there is room for. */
  lemma {:induction false} NamesStay(pieces: seq<string>, max: nat)
    requires forall i :: 0 <= i < |pieces| ==> pieces[i] !in {"", ".", ".."}
    ensures Normal(pieces, max) == if |pieces| <= max then pieces else pieces[..max]
  {
    NamesAdded([], pieces, max);
    assert [] + pieces == pieces;
  }

  lemma {:induction false} NamesAdded(base: seq<string>, pieces: seq<string>, max: nat)
    requires |base| <= max && forall i :: 0 <= i < |pieces| ==> pieces[i] !in {"", ".", ".."}
    ensures PushAll(base, pieces, max) ==
            if |base| + |pieces| <= max then base + pieces else (base + pieces)[..max]
    decreases |pieces|
  {
    if |pieces| > 0 {
      var next := Push(base, pieces[0], max);
      NamesAdded(next, pieces[1..], max);
      if |base| < max {
        assert base + [pieces[0]] + pieces[1..] == base + pieces;
      } else {
        assert (base + pieces)[..max] == base;
        assert (base + pieces[1..])[..max] == base;
      }
    } else {
      assert base + pieces == base;
    }
  }

  /** A path that starts with a slash, a backslash or a drive stands for itself; any other is
      taken from the current directory. */
  lemma {:induction false} FromCurrent(cwd: string, path: string, max: nat)
    ensures Split(cwd, path, max) ==
            if (|path| > 0 && path[0] in {'/', '\\'}) || (|path| > 1 && path[1] == ':')
            then Normal(Tokens(path, 0), max)
            else Normal(Tokens(cwd, 0) + Tokens(path, 0), max)
  {
    hide PushAll, Tokens;
    TokensTwo(cwd, path, 0);
  }

  // ---------------------------------------------------------------------------
  // Absolute and relative paths
  // ---------------------------------------------------------------------------

  ghost function Slashes(n: nat): seq<char> {
    seq(n, _ => '/')
  }

  lemma {:induction false} SlashedWritten(parts: seq<string>)
    requires |parts| > 0
    ensures Slashed(parts) == Written(parts, Slashes(|parts| - 1))
    decreases |parts|
  {
    if |parts| > 1 {
      SlashedWritten(parts[1..]);
      assert Slashes(|parts| - 1)[1..] == Slashes(|parts| - 2);
    }
  }

  /** An absolute path is the components with a slash before each, but none before a drive. */
  lemma {:induction false} AbsoluteText(cwd: string, path: string)
    ensures var parts := Split(cwd, path, 256);
            AbsolutePath(cwd, path) ==
            if |parts| == 0 then "/"
            else if |parts[0]| == 2 && parts[0][1] == ':' &&
                    ('a' <= parts[0][0] <= 'z' || 'A' <= parts[0][0] <= 'Z') then
              Written(parts, Slashes(|parts| - 1))
            else "/" + Written(parts, Slashes(|parts| - 1))
  {
    hide Split, Slashed, Written;
    var parts := Split(cwd, path, 256);
    if |parts| > 0 {
      SlashedWritten(parts);
    }
  }

  /** `c` components are common to both, and no more; the target's last one never counts. */
  ghost predicate Shared(from: seq<string>, to: seq<string>, c: nat) {
    && c <= |from| && c <= |to| && from[..c] == to[..c] && (|to| > 0 ==> c < |to|)
    && (c < |from| && c + 1 < |to| ==> from[c] != to[c])
  }

  lemma {:induction false} CommonShared(from: seq<string>, to: seq<string>, i: nat)
    requires i <= |from| && i <= |to| && (i < |to| || i == 0) && from[..i] == to[..i]
    ensures Shared(from, to, Common(from, to, i))
    decreases |from| - i
  {
    if i < |from| && i + 1 < |to| && from[i] == to[i] {
      assert from[..i + 1] == from[..i] + [from[i]] && to[..i + 1] == to[..i] + [to[i]];
      CommonShared(from, to, i + 1);
    }
  }

  lemma {:induction false} UpsText(n: nat)
    ensures |Ups(n)| == 3 * n
    ensures forall k :: 0 <= k < n ==> Ups(n)[3 * k..3 * k + 3] == "../"
  {
    if n > 0 {
      UpsText(n - 1);
      forall k | 0 <= k < n
        ensures Ups(n)[3 * k..3 * k + 3] == "../"
      {
        if k > 0 {
          assert Ups(n)[3 * k..3 * k + 3] == Ups(n - 1)[3 * (k - 1)..3 * (k - 1) + 3];
        }
      }
    }
  }

  /** A relative path goes up once for every component of the directory that is not shared, and
      then down the components of the target that are not. */
  lemma {:induction false} RelativeText(cwd: string, fromDir: string, target: string) returns (c: nat, ups: string)
    ensures var from, to := Split(cwd, fromDir, 256), Split(cwd, target, 256);
            && Shared(from, to, c)
            && |ups| == 3 * (|from| - c)
            && (forall k :: 0 <= k < |from| - c ==> ups[3 * k..3 * k + 3] == "../")
            && RelativeTo(cwd, fromDir, target) ==
               if |to| == 0 then ups else ups + Written(to[c..], Slashes(|to| - c - 1))
  {
    hide Split, Slashed, Written, Ups;
    var from, to := Split(cwd, fromDir, 256), Split(cwd, target, 256);
    c := Common(from, to, 0);
    ups := Ups(|from| - c);
    CommonShared(from, to, 0);
    UpsText(|from| - c);
    if |to| > 0 {
      SlashedWritten(to[c..]);
    } else {
      NoParts(to[c..]);
      assert ups + "" == ups;
    }
  }

  lemma {:induction false} NoParts(parts: seq<string>)
    requires |parts| == 0
    ensures Slashed(parts) == ""
  {}
}
