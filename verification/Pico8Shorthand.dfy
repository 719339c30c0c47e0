/** Putting the inserted pieces into the text: sorting them by position and weaving them in. */
module Pico8Shorthand {
  import opened Pico8Scan

  // ---------------------------------------------------------------------------
  // Sorting
  // ---------------------------------------------------------------------------

  /** `t` after every element at its position or before it. */
  function InsertInto(l: seq<Insert>, t: Insert): (r: seq<Insert>)
    ensures |r| == |l| + 1
  {
    if |l| == 0 || l[|l| - 1].pos <= t.pos then l + [t]
    else InsertInto(l[..|l| - 1], t) + [l[|l| - 1]]
  }

  function Sorted(l: seq<Insert>): (r: seq<Insert>)
    ensures |r| == |l|
  {
    if |l| == 0 then [] else InsertInto(Sorted(l[..|l| - 1]), l[|l| - 1])
  }

  /** Moves the element at `i` down past the elements with larger positions. */
  method SiftDown(a: array<Insert>, i: nat)
    requires i < a.Length
    modifies a
    ensures a[..i + 1] == InsertInto(old(a[..i]), old(a[i])) && a[i + 1..] == old(a[i + 1..])
  {
    hide InsertInto;
    ghost var was := a[..];
    var t := a[i];
    var j := i - 1;
    while j >= 0 && a[j].pos > t.pos
      invariant -1 <= j < i
      invariant forall k :: 0 <= k < a.Length && (k <= j || k > i) ==> a[k] == was[k]
      invariant forall k :: j < k < i ==> was[k].pos > t.pos && a[k + 1] == was[k]
      decreases j
    {
      a[j + 1] := a[j];
      j := j - 1;
    }
    a[j + 1] := t;
    Sifted(was, a[..], i, j + 1);
  }

  lemma {:induction false} Sifted(was: seq<Insert>, now: seq<Insert>, i: nat, j: nat)
    requires j <= i < |was| == |now| && now[j] == was[i] && (j > 0 ==> was[j - 1].pos <= was[i].pos)
    requires forall k :: 0 <= k < |was| && (k < j || k > i) ==> now[k] == was[k]
    requires forall k :: j <= k < i ==> was[k].pos > was[i].pos && now[k + 1] == was[k]
    ensures now[..i + 1] == InsertInto(was[..i], was[i]) && now[i + 1..] == was[i + 1..]
  {
    hide InsertInto;
    var l := was[..i];
    SiftResult(l, was[i], j);
    var r := l[..j] + [was[i]] + l[j..];
    forall k | 0 <= k < i + 1
      ensures now[k] == r[k]
    {
      if k > j {
        var m := k - 1;
        assert now[m + 1] == was[m] == l[m] == l[j..][m - j] == r[k];
      }
    }
    assert now[..i + 1] == r;
  }

  lemma {:induction false} SiftResult(l: seq<Insert>, t: Insert, j: nat)
    requires j <= |l| && (j > 0 ==> l[j - 1].pos <= t.pos) && forall k :: j <= k < |l| ==> l[k].pos > t.pos
    ensures InsertInto(l, t) == l[..j] + [t] + l[j..]
    decreases |l|
  {
    if j < |l| {
      var n := |l| - 1;
      SiftResult(l[..n], t, j);
      assert l[..n][..j] == l[..j] && l[j..] == l[..n][j..] + [l[n]];
    } else {
      assert l[..j] == l;
    }
  }

  /** An insertion sort, in place; pieces at one position keep their order. */
  method SortInserts(a: array<Insert>)
    modifies a
    ensures a[..] == Sorted(old(a[..]))
  {
    ghost var was := a[..];
    for i := 0 to a.Length
      invariant a[..i] == Sorted(was[..i]) && a[i..] == was[i..]
    {
      assert was[..i + 1][..i] == was[..i] && a[i] == a[i..][0] == was[i..][0];
      assert a[i + 1..] == a[i..][1..];
      SiftDown(a, i);
    }
    assert a[..] == a[..a.Length] && was == was[..a.Length];
  }

  ghost predicate Ascending(l: seq<Insert>) {
    forall i, j :: 0 <= i < j < |l| ==> l[i].pos <= l[j].pos
  }

  lemma {:induction false} OfInserted(l: seq<Insert>, t: Insert, i: nat)
    requires i < |InsertInto(l, t)|
    ensures InsertInto(l, t)[i] in l || InsertInto(l, t)[i] == t
  {
    if |l| > 0 && l[|l| - 1].pos > t.pos {
      if i < |l| {
        OfInserted(l[..|l| - 1], t, i);
      }
    }
  }

  lemma {:induction false} InsertAscends(l: seq<Insert>, t: Insert)
    requires Ascending(l)
    ensures Ascending(InsertInto(l, t)) && multiset(InsertInto(l, t)) == multiset(l) + multiset{t}
  {
    InsertKeeps(l, t);
    if |l| > 0 && l[|l| - 1].pos > t.pos {
      var n := |l| - 1;
      InsertAscends(l[..n], t);
      var r := InsertInto(l[..n], t);
      forall i | 0 <= i < |r|
        ensures r[i].pos <= l[n].pos
      {
        OfInserted(l[..n], t, i);
      }
    }
  }

  lemma {:induction false} InsertKeeps(l: seq<Insert>, t: Insert)
    ensures multiset(InsertInto(l, t)) == multiset(l) + multiset{t}
  {
    if |l| > 0 && l[|l| - 1].pos > t.pos {
      var n := |l| - 1;
      InsertKeeps(l[..n], t);
      var r := InsertInto(l[..n], t);
      assert l == l[..n] + [l[n]];
      assert multiset(r + [l[n]]) == multiset(r) + multiset{l[n]};
    }
  }

  lemma {:induction false} SortedAscends(l: seq<Insert>)
    ensures Ascending(Sorted(l)) && multiset(Sorted(l)) == multiset(l)
  {
    if |l| > 0 {
      hide InsertInto, Ascending;
      var n := |l| - 1;
      SortedAscends(l[..n]);
      InsertAscends(Sorted(l[..n]), l[n]);
      assert l == l[..n] + [l[n]];
    }
  }

  /** The pieces that go to position `x`, in order. */
  ghost function AtPosition(l: seq<Insert>, x: nat): seq<Insert> {
    if |l| == 0 then []
    else if l[|l| - 1].pos == x then AtPosition(l[..|l| - 1], x) + [l[|l| - 1]]
    else AtPosition(l[..|l| - 1], x)
  }

  lemma {:induction false} InsertStable(l: seq<Insert>, t: Insert, x: nat)
    requires Ascending(l)
    ensures AtPosition(InsertInto(l, t), x) == if t.pos == x then AtPosition(l, x) + [t] else AtPosition(l, x)
  {
    if |l| == 0 || l[|l| - 1].pos <= t.pos {
      assert (l + [t])[..|l|] == l;
    } else {
      var n := |l| - 1;
      InsertStable(l[..n], t, x);
      var r := InsertInto(l[..n], t);
      assert (r + [l[n]])[..|r|] == r;
      if t.pos == x {
        NoneLater(l[..n], t, x, l[n]);
      }
    }
  }

  lemma {:induction false} NoneLater(l: seq<Insert>, t: Insert, x: nat, last: Insert)
    requires t.pos == x && last.pos > t.pos
    ensures last.pos != x
  {}

  /** Sorting keeps the order of the pieces at one position. */
  lemma {:induction false} SortStable(l: seq<Insert>, x: nat)
    ensures AtPosition(Sorted(l), x) == AtPosition(l, x)
  {
    if |l| > 0 {
      var n := |l| - 1;
      SortStable(l[..n], x);
      SortedAscends(l[..n]);
      InsertStable(Sorted(l[..n]), l[n], x);
    }
  }

  // ---------------------------------------------------------------------------
  // Weaving
  // ---------------------------------------------------------------------------

  /** The pieces go to positions from `from` on, in ascending order. */
  predicate Fits(src: string, from: nat, ins: seq<Insert>)
    decreases |ins|
  {
    if |ins| == 0 then from <= |src|
    else from <= ins[0].pos <= |src| && Fits(src, ins[0].pos, ins[1..])
  }

  function Weave(src: string, from: nat, ins: seq<Insert>): string
    requires Fits(src, from, ins)
    decreases |ins|
  {
    if |ins| == 0 then src[from..]
    else src[from..ins[0].pos] + ins[0].text + Weave(src, ins[0].pos, ins[1..])
  }

  lemma {:induction false} NothingLeft(src: string)
    ensures forall from: nat :: Fits(src, from, []) ==> from <= |src| && Weave(src, from, []) == src[from..]
  {}

  lemma {:induction false} WeaveStep(src: string, from: nat, ins: seq<Insert>)
    requires Fits(src, from, ins) && |ins| > 0
    ensures from <= ins[0].pos <= |src| && Fits(src, ins[0].pos, ins[1..])
    ensures Weave(src, from, ins) == src[from..ins[0].pos] + ins[0].text + Weave(src, ins[0].pos, ins[1..])
  {}

  method WeaveIn(src: string, ins: seq<Insert>) returns (out: string)
    requires Fits(src, 0, ins)
    ensures out == Weave(src, 0, ins)
  {
    hide Weave, Fits;
    out := "";
    var from: nat := 0;
    assert ins[0..] == ins;
    assert "" + Weave(src, 0, ins) == Weave(src, 0, ins);
    NothingLeft(src);
    for i := 0 to |ins|
      invariant from <= |src| && Fits(src, from, ins[i..])
      invariant Weave(src, 0, ins) == out + Weave(src, from, ins[i..])
    {
      WeaveStep(src, from, ins[i..]);
      assert ins[i..][0] == ins[i] && ins[i..][1..] == ins[i + 1..];
      out := out + src[from..ins[i].pos] + ins[i].text;
      from := ins[i].pos;
    }
    out := out + src[from..];
  }

  /** Where source character `k` (or the end of the text) ends up. */
  ghost function Place(src: string, from: nat, ins: seq<Insert>, k: nat): nat
    requires Fits(src, from, ins) && from <= k <= |src|
    decreases |ins|
  {
    if |ins| == 0 || k < ins[0].pos then k - from
    else (ins[0].pos - from) + |ins[0].text| + Place(src, ins[0].pos, ins[1..], k)
  }

  function Newlines(s: string): nat {
    if |s| == 0 then 0 else (if s[0] == '\n' then 1 else 0) + Newlines(s[1..])
  }

  lemma {:induction false} NewlinesTwo(a: string, b: string)
    ensures Newlines(a + b) == Newlines(a) + Newlines(b)
    decreases |a|
  {
    if |a| == 0 {
      assert a + b == b;
    } else {
      assert (a + b)[1..] == a[1..] + b;
      NewlinesTwo(a[1..], b);
    }
  }

  ghost predicate OneLine(ins: seq<Insert>) {
    forall i :: 0 <= i < |ins| ==> Newlines(ins[i].text) == 0
  }

  /** Every source character is in the output, at a place that only depends on what is inserted
      before it, and on the line it was on. */
  lemma {:induction false} CharacterKept(src: string, from: nat, ins: seq<Insert>, k: nat)
    requires Fits(src, from, ins) && from <= k < |src| && OneLine(ins)
    ensures var out, at := Weave(src, from, ins), Place(src, from, ins, k);
            at < |out| && out[at] == src[k] && Newlines(out[..at]) == Newlines(src[from..k])
    decreases |ins|
  {
    var out, at := Weave(src, from, ins), Place(src, from, ins, k);
    if |ins| == 0 {
      assert out[..at] == src[from..k];
    } else if k < ins[0].pos {
      assert out[..at] == src[from..k];
    } else {
      var x := ins[0].pos;
      var rest := Weave(src, x, ins[1..]);
      CharacterKept(src, x, ins[1..], k);
      var inner := Place(src, x, ins[1..], k);
      var first := src[from..x] + ins[0].text;
      assert out == first + rest && at == |first| + inner;
      assert out[..at] == first + rest[..inner];
      NewlinesTwo(first, rest[..inner]);
      NewlinesTwo(src[from..x], ins[0].text);
      NewlinesTwo(src[from..x], src[x..k]);
      assert src[from..k] == src[from..x] + src[x..k];
    }
  }

  /** Which characters of the output are inserted. */
  ghost function Marks(src: string, from: nat, ins: seq<Insert>): (m: seq<bool>)
    requires Fits(src, from, ins)
    ensures |m| == |Weave(src, from, ins)|
    decreases |ins|
  {
    if |ins| == 0 then seq(|src| - from, i => false)
    else seq(ins[0].pos - from, i => false) + seq(|ins[0].text|, i => true) + Marks(src, ins[0].pos, ins[1..])
  }

  /** The characters whose mark is `mark`. */
  ghost function Keep(out: string, marks: seq<bool>, mark: bool): string
    requires |out| == |marks|
  {
    if |out| == 0 then ""
    else if marks[0] == mark then [out[0]] + Keep(out[1..], marks[1..], mark)
    else Keep(out[1..], marks[1..], mark)
  }

  ghost function Pieces(ins: seq<Insert>): string {
    if |ins| == 0 then "" else ins[0].text + Pieces(ins[1..])
  }

  lemma {:induction false} KeepTwo(a: string, m: seq<bool>, b: string, n: seq<bool>, mark: bool)
    requires |a| == |m| && |b| == |n|
    ensures Keep(a + b, m + n, mark) == Keep(a, m, mark) + Keep(b, n, mark)
    decreases |a|
  {
    if |a| == 0 {
      assert a + b == b && m + n == n;
    } else {
      assert (a + b)[1..] == a[1..] + b && (m + n)[1..] == m[1..] + n;
      KeepTwo(a[1..], m[1..], b, n, mark);
    }
  }

  lemma {:induction false} KeepAll(a: string, m: seq<bool>, mark: bool)
    requires |a| == |m| && forall i :: 0 <= i < |m| ==> m[i] == mark
    ensures Keep(a, m, mark) == a && Keep(a, m, !mark) == ""
    decreases |a|
  {
    if |a| > 0 {
      KeepAll(a[1..], m[1..], mark);
    }
  }

  lemma {:induction false} KeepThree(a: string, m: seq<bool>, b: string, n: seq<bool>, c: string, o: seq<bool>,
      mark: bool)
    requires |a| == |m| && |b| == |n| && |c| == |o|
    ensures Keep(a + b + c, m + n + o, mark) == Keep(a, m, mark) + Keep(b, n, mark) + Keep(c, o, mark)
  {
    hide Keep;
    KeepTwo(a, m, b, n, mark);
    KeepTwo(a + b, m + n, c, o, mark);
  }

  /** Deleting what was inserted gives the source back; what was inserted are the pieces. */
  lemma {:induction false} PureInsertion(src: string, from: nat, ins: seq<Insert>)
    requires Fits(src, from, ins)
    ensures Keep(Weave(src, from, ins), Marks(src, from, ins), false) == src[from..]
    ensures Keep(Weave(src, from, ins), Marks(src, from, ins), true) == Pieces(ins)
    decreases |ins|
  {
    hide Keep;
    if |ins| == 0 {
      KeepAll(src[from..], Marks(src, from, ins), false);
    } else {
      var x := ins[0].pos;
      PureInsertion(src, x, ins[1..]);
      PureStep(src, from, ins, Weave(src, x, ins[1..]), Marks(src, x, ins[1..]));
    }
  }

  lemma {:induction false} PureStep(src: string, from: nat, ins: seq<Insert>, rest: string, m2: seq<bool>)
    requires |ins| > 0 && from <= ins[0].pos <= |src| && |rest| == |m2|
    ensures var m0, m1: seq<bool> := seq(ins[0].pos - from, i => false), seq(|ins[0].text|, i => true);
            var out, marks := src[from..ins[0].pos] + ins[0].text + rest, m0 + m1 + m2;
            && Keep(out, marks, false) == src[from..ins[0].pos] + Keep(rest, m2, false)
            && Keep(out, marks, true) == ins[0].text + Keep(rest, m2, true)
  {
    hide Keep;
    var x := ins[0].pos;
    var m0, m1: seq<bool> := seq(x - from, i => false), seq(|ins[0].text|, i => true);
    KeepAll(src[from..x], m0, false);
    KeepAll(ins[0].text, m1, true);
    KeepThree(src[from..x], m0, ins[0].text, m1, rest, m2, false);
    KeepThree(src[from..x], m0, ins[0].text, m1, rest, m2, true);
  }
}
