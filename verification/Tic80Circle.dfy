/** The outline of a circle as TIC-80 draws it: an ellipse in the square around the circle. */
module Tic80Circle {
  import opened Circles
  import opened Numbers

  /** A pixel by its distances from the centre column and the centre row. */
  datatype Step = Step(u: int, j: int)

  /** The error term without its scale. */
  function Err(r: int, u: int, j: int): int {
    (u - 1) * (u - 1) + (j + 1) * (j + 1) - r * r
  }

  predicate MovesOut(r: int, u: int, j: int) {
    Err(r, u, j) <= j
  }

  predicate MovesIn(r: int, u: int, j: int) {
    Err(r, u, j) >= 1 - u ||
    if MovesOut(r, u, j) then Err(r, u, j + 1) > j + 1 else Err(r, u, j) > j
  }

  function Next(r: int, u: int, j: int): Step {
    Step(if MovesIn(r, u, j) then u - 1 else u, if MovesOut(r, u, j) then j + 1 else j)
  }

  // ---------------------------------------------------------------------------
  // The steps
  // ---------------------------------------------------------------------------

  /** What every step keeps. The circle passes through the pixel, or through its corner. */
  ghost predicate OnWay(r: nat, s: Step) {
    && 0 <= s.j <= r && -1 <= s.u <= r
    && (s.j == 0 ==> s.u == r)
    && (s.u <= 0 ==> s.j == r)
    && (s.u >= 0 ==> Near(r, s.u, s.j))
  }

  ghost predicate Near(r: int, u: int, j: int) {
    -(u + j) <= u * u + j * j - r * r <= u + j
  }

  lemma {:induction false} Square(a: int, b: int)
    requires 0 <= a <= b
    ensures a * a <= b * b
  {
    assert b * b - a * a == (b - a) * (b + a);
  }

  lemma {:induction false} ErrIs(r: int, u: int, j: int)
    ensures Err(r, u, j) == (u * u + j * j - r * r) - 2 * u + 2 * j + 2
    ensures Err(r, u, j + 1) == Err(r, u, j) + 2 * j + 3
    ensures Err(r, u - 1, j) == Err(r, u, j) + 3 - 2 * u
  {
    assert (u - 1) * (u - 1) == u * u - 2 * u + 1 && (u - 2) * (u - 2) == u * u - 4 * u + 4;
    assert (j + 1) * (j + 1) == j * j + 2 * j + 1 && (j + 2) * (j + 2) == j * j + 4 * j + 4;
  }

  /** At the topmost row the error is large. */
  lemma {:induction false} StopsOut(r: nat, u: int, j: int)
    requires j == r
    ensures !MovesOut(r, u, j)
  {
    assert (j + 1) * (j + 1) == r * r + 2 * r + 1;
  }

  /** The centre column is only reached in the topmost row. */
  lemma {:induction false} ReachesTop(r: nat, u: int, j: int)
    requires r >= 1 && 0 <= u <= 1 && 0 <= j <= r && (u == 0 ==> j == r) && MovesIn(r, u, j)
    ensures Next(r, u, j).j == r
  {
    StopsOut(r, u, r);
    assert (r - 1) * (r - 1) == r * r - 2 * r + 1;
    if j + 2 <= r {
      Square(j + 2, r);
      Square(j + 1, r - 1);
    }
  }

  lemma {:induction false} StepsStayNear(r: nat, u: int, j: int)
    requires 1 <= u && 0 <= j && Near(r, u, j)
    ensures Near(r, Next(r, u, j).u, Next(r, u, j).j)
  {
    hide Err;
    ErrIs(r, u, j);
    var n := Next(r, u, j);
    assert (u - 1) * (u - 1) == u * u - 2 * u + 1;
    assert (j + 1) * (j + 1) == j * j + 2 * j + 1;
  }

  /** Every step goes one pixel in, one out, or both. */
  lemma {:induction false} StepAdvances(r: nat, s: Step)
    requires r >= 1 && s.u >= 0 && OnWay(r, s)
    ensures var n := Next(r, s.u, s.j);
            OnWay(r, n) && s.u - 1 <= n.u <= s.u && s.j <= n.j <= s.j + 1 && n != s
  {
    hide Err;
    StopsOut(r, s.u, r);
    if s.u <= 1 && MovesIn(r, s.u, s.j) {
      ReachesTop(r, s.u, s.j);
    }
    if s.u >= 1 {
      StepsStayNear(r, s.u, s.j);
    }
    if s.j == 0 {
      FirstGoesOut(r);
    }
  }

  lemma {:induction false} FirstGoesOut(r: nat)
    requires r >= 1
    ensures MovesOut(r, r, 0)
  {
    assert (r - 1) * (r - 1) == r * r - 2 * r + 1;
  }

  // ---------------------------------------------------------------------------
  // The whole way
  // ---------------------------------------------------------------------------

  /** The pixels from `s` on, up to the centre column. */
  ghost function Walk(r: nat, s: Step): seq<Step>
    requires r >= 1 && OnWay(r, s)
    decreases s.u + 1 + (r - s.j)
  {
    if s.u < 0 then []
    else
      StepAdvances(r, s);
      [s] + Walk(r, Next(r, s.u, s.j))
  }

  /** The quarter of the outline from the row of the centre to the column of the centre. */
  ghost function Quarter(r: nat): seq<Step> {
    if r == 0 then [Step(0, 0)]
    else
      assert OnWay(r, Step(r, 0));
      Walk(r, Step(r, 0))
  }

  /** The circle passes through every pixel; each is a neighbour of the one before. */
  ghost predicate Outline(r: nat, way: seq<Step>) {
    && (forall i :: 0 <= i < |way| ==> 0 <= way[i].u <= r && 0 <= way[i].j <= r && Near(r, way[i].u, way[i].j))
    && (forall i :: 1 <= i < |way| ==> way[i].u <= way[i - 1].u <= way[i].u + 1 &&
                                       way[i].j - 1 <= way[i - 1].j <= way[i].j && way[i] != way[i - 1])
  }

  lemma {:induction false} WalkIsOutline(r: nat, s: Step)
    requires r >= 1 && OnWay(r, s) && s.u >= 0
    ensures var way := Walk(r, s);
            Outline(r, way) && |way| > 0 && way[0] == s && way[|way| - 1] == Step(0, r)
    decreases s.u + 1 + (r - s.j)
  {
    hide Near, Err, Next, Outline;
    StepAdvances(r, s);
    var n := Next(r, s.u, s.j);
    var way := Walk(r, n);
    if n.u >= 0 {
      WalkIsOutline(r, n);
    }
    OutlineLonger(r, s, way);
  }

  lemma {:induction false} OutlineLonger(r: nat, s: Step, way: seq<Step>)
    requires 0 <= s.u <= r && 0 <= s.j <= r && Near(r, s.u, s.j)
    requires |way| > 0 ==> Outline(r, way)
    requires |way| > 0 ==> way[0].u <= s.u <= way[0].u + 1 && way[0].j - 1 <= s.j <= way[0].j && way[0] != s
    ensures Outline(r, [s] + way)
  {
    hide Near;
  }

  /** The outline starts in the row of the centre and ends in the column of the centre. */
  lemma {:induction false} QuarterIsOutline(r: nat)
    ensures var way := Quarter(r);
            Outline(r, way) && |way| > 0 && way[0] == Step(r, 0) && way[|way| - 1] == Step(0, r)
  {
    if r > 0 {
      assert OnWay(r, Step(r, 0));
      WalkIsOutline(r, Step(r, 0));
    }
  }

  /** Between its first and its last pixel it visits every row. */
  lemma {:induction false} VisitsRow(r: nat, way: seq<Step>, j: int) returns (i: nat)
    requires Outline(r, way) && |way| > 0 && way[0].j <= j <= way[|way| - 1].j
    ensures i < |way| && way[i].j == j
  {
    hide Near;
    i := 0;
    while way[i].j != j
      invariant i < |way| && way[i].j <= j
      decreases |way| - i
    {
      i := i + 1;
    }
  }

  lemma {:induction false} VisitsColumn(r: nat, way: seq<Step>, u: int) returns (i: nat)
    requires Outline(r, way) && |way| > 0 && way[|way| - 1].u <= u <= way[0].u
    ensures i < |way| && way[i].u == u
  {
    hide Near;
    i := 0;
    while way[i].u != u
      invariant i < |way| && way[i].u >= u
      decreases |way| - i
    {
      i := i + 1;
    }
  }

  // ---------------------------------------------------------------------------
  // Drawing
  // ---------------------------------------------------------------------------

  /** Exactly the pixels of `way` and their mirror images are set. */
  ghost predicate Shows(g: array2<bool>, r: nat, way: seq<Step>)
    requires GridFor(g, r)
    reads g
  {
    forall x: int, y: int :: Abs(x) <= r && Abs(y) <= r ==> (g[r + y, r + x] <==> Step(Abs(x), Abs(y)) in way)
  }

  lemma {:induction false} Scaled(k: int, e: int, m: int)
    requires k > 0
    ensures 2 * (k * e) <= k * (1 + 2 * m) <==> e <= m
    ensures 2 * (k * e) >= k * (1 - 2 * m) <==> e >= 1 - m
  {
    Between(k, 2 * e, 1 + 2 * m);
    Between(k, 1 - 2 * m, 2 * e);
    assert k * (2 * e) == 2 * (k * e);
  }

  lemma {:induction false} Between(k: int, p: int, q: int)
    requires k > 0
    ensures k * p <= k * q <==> p <= q
  {
    assert k * q - k * p == k * (q - p);
    if p > q {
      assert k * (q - p) < 0;
    }
  }

  /** One step of the error term and its increments, all carrying the factor `k`. */
  ghost predicate Terms(r: int, k: int, u: int, j: int, err: int, dx: int, dy: int) {
    err == k * Err(r, u, j) && dx == k * (1 - 2 * u) && dy == k * (1 + 2 * j)
  }

  lemma {:induction false} TermsOut(r: int, k: int, u: int, j: int, err: int, dx: int, dy: int)
    requires Terms(r, k, u, j, err, dx, dy)
    ensures Terms(r, k, u, j + 1, err + dy + 2 * k, dx, dy + 2 * k)
  {
    ErrIs(r, u, j);
    Factor(k, Err(r, u, j), 1 + 2 * j, 2);
    assert k * (1 + 2 * (j + 1)) == k * (1 + 2 * j) + 2 * k;
  }

  lemma {:induction false} TermsIn(r: int, k: int, u: int, j: int, err: int, dx: int, dy: int)
    requires Terms(r, k, u, j, err, dx, dy)
    ensures Terms(r, k, u - 1, j, err + dx + 2 * k, dx + 2 * k, dy)
  {
    ErrIs(r, u, j);
    Factor(k, Err(r, u, j), 1 - 2 * u, 2);
    assert k * (1 - 2 * (u - 1)) == k * (1 - 2 * u) + 2 * k;
  }

  lemma {:induction false} Factor(k: int, a: int, b: int, c: int)
    ensures k * (a + b + c) == k * a + k * b + c * k
  {}

  ghost function Scale(r: nat): nat {
    16 * r * r
  }

  lemma {:induction false} ScaleTimes(r: nat, p: int)
    ensures 4 * p * (2 * r) * (2 * r) == Scale(r) * p
  {}

  lemma {:induction false} ScaleIs(r: nat)
    ensures 4 * (2 * r) * (2 * r) == Scale(r) && 8 * (2 * r) * (2 * r) == 2 * r * (8 * (2 * r)) == 2 * Scale(r)
  {}

  lemma {:induction false} FirstErr(r: nat)
    ensures Err(r, r, 0) == 2 - 2 * r
  {
    assert (r - 1) * (r - 1) == r * r - 2 * r + 1;
  }

  lemma {:induction false} FirstTerms(r: nat, a: int)
    requires a == 2 * r
    ensures Terms(r, Scale(r), r, 0, 4 * (1 - a) * a * a + 4 * a * a, 4 * (1 - a) * a * a, 4 * a * a)
    ensures a * (8 * a) == 8 * a * a == 2 * Scale(r)
  {
    hide Scale, Err;
    ScaleTimes(r, 1 - a);
    ScaleIs(r);
    FirstErr(r);
    Factor(Scale(r), 1 - a, 0, 1);
  }

  /** The terms at the first pixel and their increments. */
  method Start(r: nat) returns (y0: int, y1: int, dx: int, dy: int, err: int, a8: int, b8: int)
    ensures y0 == y1 == r && Terms(r, Scale(r), r, 0, err, dx, dy) && a8 == b8 == 2 * Scale(r)
  {
    hide Terms, Scale;
    var a, b := 2 * r, 2 * r;
    var b1 := b % 2;
    dx, dy := 4 * (1 - a) * b * b, 4 * (b1 + 1) * a * a;
    err := dx + dy + b1 * a * a;
    y0 := (b + 1) / 2;
    y1 := y0 - b1;
    a8 := a * (8 * a);
    b8 := 8 * b * b;
    FirstTerms(r, a);
  }

  /** Draws the outline. The rows reached when the loop ends are returned: they are so far
      apart that the loop which would complete a flat ellipse has nothing to do. */
  method OutlineTic80(r: nat, g: array2<bool>) returns (y0: int, y1: int)
    requires GridFor(g, r) && forall y, x :: 0 <= y < g.Length0 && 0 <= x < g.Length1 ==> !g[y, x]
    modifies g
    ensures Shows(g, r, Quarter(r))
    ensures y0 - y1 >= 2 * r
  {
    hide Terms, Under, Moved, Shows, Quarter, Scale;
    var x0, x1 := 0, 2 * r;
    var dx, dy, err, a8, b8;
    y0, y1, dx, dy, err, a8, b8 := Start(r);
    ghost var k := Scale(r);
    ghost var u: int, j: int := r, 0;
    ghost var done := [];
    NothingShown(g, r);
    NothingDone(r);
    while x0 <= x1
      invariant x0 == r - u && x1 == r + u && y0 == r + j && y1 == r - j && a8 == b8 == 2 * k
      invariant Terms(r, k, u, j, err, dx, dy) && Under(r, u, j, done) && Shows(g, r, done)
      decreases u, r - j
    {
      UnderStep(r, u, j, done);
      PlotStep(g, r, x1 - r, y0 - r, done);
      Decide(r, k, u, j, err, dx, dy);
      var e2 := 2 * err;
      done := done + [Step(u, j)];
      if e2 <= dy {
        TermsOut(r, k, u, j, err, dx, dy);
        y0 := y0 + 1;
        y1 := y1 - 1;
        dy := dy + a8;
        err := err + dy;
        j := j + 1;
      }
      if e2 >= dx || 2 * err > dy {
        TermsIn(r, k, u, j, err, dx, dy);
        x0 := x0 + 1;
        x1 := x1 - 1;
        dx := dx + b8;
        err := err + dx;
        u := u - 1;
      }
    }
    WholeWay(r, u, j, done);
  }

  // The state of the loop against the way: radius 0 takes a single step.

  ghost predicate Under(r: nat, u: int, j: int, done: seq<Step>) {
    if r == 0 then (u == 0 && j == 0 && done == []) || (u == -1 && j == 1 && done == [Step(0, 0)])
    else OnWay(r, Step(u, j)) && done + Walk(r, Step(u, j)) == Quarter(r)
  }

  /** The step the scaled terms decide on. */
  ghost function Moved(r: nat, u: int, j: int): Step {
    if r == 0 then Step(u - 1, j + 1) else Next(r, u, j)
  }

  lemma {:induction false} UnderStep(r: nat, u: int, j: int, done: seq<Step>)
    requires Under(r, u, j, done) && u >= 0
    ensures 0 <= u <= r && 0 <= j <= r
    ensures var n := Moved(r, u, j); Under(r, n.u, n.j, done + [Step(u, j)])
    ensures var n := Moved(r, u, j); n.u < u || (n.u == u && n.j == j + 1 <= r)
  {
    hide Next, Quarter;
    if r > 0 {
      StepAdvances(r, Step(u, j));
      var n := Next(r, u, j);
      assert done + [Step(u, j)] + Walk(r, n) == done + ([Step(u, j)] + Walk(r, n));
    }
  }

  lemma {:induction false} NothingDone(r: nat)
    ensures Under(r, r, 0, [])
  {
    if r > 0 {
      assert [] + Quarter(r) == Quarter(r);
    }
  }

  lemma {:induction false} WholeWay(r: nat, u: int, j: int, done: seq<Step>)
    requires Under(r, u, j, done) && u < 0
    ensures done == Quarter(r) && j >= r
  {}

  lemma {:induction false} Decide(r: nat, k: int, u: int, j: int, err: int, dx: int, dy: int)
    requires k == Scale(r) && Terms(r, k, u, j, err, dx, dy)
    ensures (2 * err <= dy) == (Moved(r, u, j).j == j + 1)
    ensures 2 * err > dy ==> Moved(r, u, j).j == j
    ensures var out := 2 * err <= dy;
            var err1, dy1 := if out then err + dy + 2 * k else err, if out then dy + 2 * k else dy;
            Moved(r, u, j).u == if 2 * err >= dx || 2 * err1 > dy1 then u - 1 else u
  {
    hide Err;
    if r > 0 {
      Between(r, 0, r);
      assert 16 * r * r == 16 * (r * r);
      Scaled(k, Err(r, u, j), j);
      Scaled(k, Err(r, u, j), u);
      Scaled(k, Err(r, u, j + 1), j + 1);
      TermsOut(r, k, u, j, err, dx, dy);
    }
  }

  method PlotStep(g: array2<bool>, r: nat, u: nat, j: nat, ghost done: seq<Step>)
    requires GridFor(g, r) && u <= r && j <= r && Shows(g, r, done)
    modifies g
    ensures Shows(g, r, done + [Step(u, j)])
  {
    PlotMirrored(g, r, u, j);
    assert forall s: Step :: s in done + [Step(u, j)] <==> s in done || s == Step(u, j);
  }

  lemma {:induction false} NothingShown(g: array2<bool>, r: nat)
    requires GridFor(g, r) && forall y, x :: 0 <= y < g.Length0 && 0 <= x < g.Length1 ==> !g[y, x]
    ensures Shows(g, r, [])
  {}

  /** The rows of the outline are mirrored and not empty, as filling them needs. */
  lemma {:induction false} OutlineRows(g: array2<bool>, r: nat)
    requires GridFor(g, r) && Shows(g, r, Quarter(r))
    ensures MirroredRows(g, r)
  {
    hide Quarter;
    forall y: nat | y <= 2 * r
      ensures Mirrored(RowOf(g, y), r) && true in RowOf(g, y)
    {
      var row := RowOf(g, y);
      forall x | 0 <= x <= 2 * r
        ensures row[x] == row[2 * r - x]
      {
        var a := r - x;
        assert Abs(a) == Abs(x - r) <= r && Abs(y - r) <= r;
        assert g[r + (y - r), r + (x - r)] == g[r + (y - r), r + a];
      }
      var way := Quarter(r);
      QuarterIsOutline(r);
      var i := VisitsRow(r, way, Abs(y - r));
      assert Step(Abs(way[i].u), Abs(y - r)) == way[i];
      assert g[r + (y - r), r + way[i].u];
      assert row[r + way[i].u];
    }
  }
}
