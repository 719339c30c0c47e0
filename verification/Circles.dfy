/** Grids for circles, and filling the rows of an outline. */
module Circles {
  import opened Numbers

  /** A grid for a circle of radius `r`, its centre in the middle. */
  predicate GridFor(g: array2<bool>, r: nat) {
    g.Length0 == g.Length1 == 2 * r + 1
  }

  /** Sets the four pixels that mirror each other about the centre. */
  method PlotMirrored(g: array2<bool>, r: nat, a: nat, b: nat)
    requires GridFor(g, r) && a <= r && b <= r
    modifies g
    ensures forall x: int, y: int :: Abs(x) <= r && Abs(y) <= r ==>
              (g[r + y, r + x] <==> old(g[r + y, r + x]) || (Abs(x) == a && Abs(y) == b))
  {
    g[r + b, r + a] := true;
    g[r + b, r - a] := true;
    g[r - b, r - a] := true;
    g[r - b, r + a] := true;
  }

  // ---------------------------------------------------------------------------
  // Filling rows
  // ---------------------------------------------------------------------------

  function RowOf(g: array2<bool>, y: nat): (row: seq<bool>)
    requires y < g.Length0
    reads g
    ensures |row| == g.Length1 && forall x :: 0 <= x < g.Length1 ==> row[x] == g[y, x]
  {
    seq(g.Length1, x requires 0 <= x < g.Length1 reads g => g[y, x])
  }

  /** There is a set cell at or before `x` and one at or after it. */
  ghost predicate Within(row: seq<bool>, x: nat) {
    (exists k :: 0 <= k <= x && k < |row| && row[k]) && (exists k :: x <= k < |row| && row[k])
  }

  /** The leftmost and the rightmost cell of a row; -1 when the row is empty. */
  method RowBounds(g: array2<bool>, y: nat) returns (lo: int, hi: int)
    requires y < g.Length0
    ensures -1 <= lo <= hi < g.Length1 && (lo == -1 <==> hi == -1)
    ensures lo >= 0 ==> g[y, lo] && g[y, hi]
    ensures forall x :: 0 <= x < g.Length1 && g[y, x] ==> 0 <= lo <= x <= hi
  {
    lo, hi := -1, -1;
    for x := 0 to g.Length1
      invariant -1 <= lo <= hi < x && (lo == -1 <==> hi == -1)
      invariant lo >= 0 ==> g[y, lo] && g[y, hi]
      invariant forall k :: 0 <= k < x && g[y, k] ==> 0 <= lo <= k <= hi
    {
      if g[y, x] {
        if lo < 0 {
          lo := x;
        }
        hi := x;
      }
    }
  }

  method FillRow(g: array2<bool>, y: nat)
    requires y < g.Length0
    modifies g
    ensures forall b :: 0 <= b < g.Length0 && b != y ==> RowOf(g, b) == old(RowOf(g, b))
    ensures forall x :: 0 <= x < g.Length1 ==> (g[y, x] <==> Within(old(RowOf(g, y)), x))
  {
    ghost var row := RowOf(g, y);
    var lo, hi := RowBounds(g, y);
    BoundsWithin(row, lo, hi);
    if lo >= 0 {
      for x := lo to hi + 1
        invariant forall b, k :: 0 <= b < g.Length0 && 0 <= k < g.Length1 && b != y ==> g[b, k] == old(g[b, k])
        invariant forall k :: 0 <= k < g.Length1 && !(lo <= k < x) ==> g[y, k] == row[k]
        invariant forall k :: lo <= k < x ==> g[y, k]
      {
        g[y, x] := true;
      }
    }
  }

  lemma {:induction false} BoundsWithin(row: seq<bool>, lo: int, hi: int)
    requires -1 <= lo <= hi < |row| && (lo >= 0 ==> row[lo] && row[hi])
    requires forall x :: 0 <= x < |row| && row[x] ==> 0 <= lo <= x <= hi
    ensures forall x :: 0 <= x < |row| ==> (Within(row, x) <==> 0 <= lo <= x <= hi)
  {}

  /** Fills every row between its leftmost and its rightmost cell. */
  method FillRows(g: array2<bool>)
    modifies g
    ensures forall y, x :: 0 <= y < g.Length0 && 0 <= x < g.Length1 ==> (g[y, x] <==> Within(old(RowOf(g, y)), x))
  {
    hide Within;
    for y := 0 to g.Length0
      invariant forall b :: y <= b < g.Length0 ==> RowOf(g, b) == old(RowOf(g, b))
      invariant forall b, x :: 0 <= b < y && 0 <= x < g.Length1 ==> (g[b, x] <==> Within(old(RowOf(g, b)), x))
    {
      label Before:
      FillRow(g, y);
      forall b, x | 0 <= b < y && 0 <= x < g.Length1
        ensures g[b, x] <==> Within(old(RowOf(g, b)), x)
      {
        assert RowOf(g, b)[x] == old@Before(RowOf(g, b))[x];
      }
    }
  }

  /** The set cells of a row are mirrored about its middle. */
  ghost predicate Mirrored(row: seq<bool>, r: nat) {
    |row| == 2 * r + 1 && forall x :: 0 <= x <= 2 * r ==> row[x] == row[2 * r - x]
  }

  /** Filling a mirrored row that is not empty gives one span about the middle. */
  lemma {:induction false} FilledSpan(row: seq<bool>, r: nat, at: nat) returns (w: nat)
    requires Mirrored(row, r) && at <= 2 * r && row[at]
    ensures w <= r && row[r + w]
    ensures forall x :: 0 <= x <= 2 * r ==> (Within(row, x) <==> r - w <= x <= r + w)
  {
    w := r;
    while !row[r + w]
      invariant w <= r && forall x :: r + w < x <= 2 * r ==> !row[x]
      invariant r - w <= at <= r + w
      decreases w
    {
      assert row[r - w] == row[r + w];
      w := w - 1;
    }
    assert row[r - w] == row[r + w];
    forall x | 0 <= x <= 2 * r && row[x]
      ensures r - w <= x <= r + w
    {
      assert row[x] == row[2 * r - x];
    }
    BoundsWithin(row, r - w, r + w);
  }

  ghost predicate MirroredRows(g: array2<bool>, r: nat)
    requires GridFor(g, r)
    reads g
  {
    forall y: nat :: y <= 2 * r ==> Mirrored(RowOf(g, y), r) && true in RowOf(g, y)
  }
}
