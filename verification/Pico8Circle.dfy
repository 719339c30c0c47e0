/** The outline of a circle as PICO-8 draws it. */
module Pico8Circle {
  import opened Circles
  import opened Numbers

  /** `a` is the column of the circle of radius `r` in row `b`, in the octant where the column
      is the larger coordinate. */
  ghost predicate OnOctant(r: nat, a: int, b: int) {
    if r == 0 then a == b == 0
    else 0 <= b <= a && a * (a - 1) + b * b < r * r <= a * (a + 1) + b * b
  }

  /** The pixels of the outline, by coordinates relative to the centre. */
  ghost predicate OnCircle(r: nat, x: int, y: int) {
    OnOctant(r, Max(Abs(x), Abs(y)), Min(Abs(x), Abs(y)))
  }

  // ---------------------------------------------------------------------------
  // The octant condition
  // ---------------------------------------------------------------------------

  /** The column is the integer nearest to where the circle meets the row: the exact distance
      from `a` to `sqrt(r*r - b*b)` is below one half. */
  lemma {:induction false} NearestInteger(r: nat, a: int, b: int)
    requires r >= 1 && 0 <= b <= a
    ensures OnOctant(r, a, b) <==>
            (2 * a - 1) * (2 * a - 1) < 4 * (r * r - b * b) < (2 * a + 1) * (2 * a + 1)
  {
    var p, q, s := a * a, b * b, r * r;
    assert a * (a - 1) == p - a && a * (a + 1) == p + a;
    assert (2 * a - 1) * (2 * a - 1) == 4 * p - 4 * a + 1;
    assert (2 * a + 1) * (2 * a + 1) == 4 * p + 4 * a + 1;
  }

  lemma {:induction false} SmallerStep(a: int, c: int)
    requires 1 <= a + 1 <= c
    ensures a * (a + 1) <= c * (c - 1)
  {
    assert a * (a + 1) == a * a + a && c * (c - 1) == c * c - c;
    Squares(a, c - 1);
  }

  lemma {:induction false} Squares(a: int, c: int)
    requires 0 <= a <= c
    ensures a * a <= c * c && a * a + a <= c * c + c
  {
    assert c * c - a * a == (c - a) * (c + a);
  }

  lemma {:induction false} UniqueColumn(r: nat, a: int, c: int, b: int)
    requires OnOctant(r, a, b) && OnOctant(r, c, b)
    ensures a == c
  {
    if r > 0 && a < c {
      SmallerStep(a, c);
    } else if r > 0 && c < a {
      SmallerStep(c, a);
    }
  }

  lemma {:induction false} ColumnInGrid(r: nat, a: int, b: int)
    requires OnOctant(r, a, b)
    ensures 0 <= b <= a <= r
  {
    assert r * (r + 1) == r * r + r;
    if a > r > 0 {
      SmallerStep(r, a);
    }
  }

  // ---------------------------------------------------------------------------
  // Drawing
  // ---------------------------------------------------------------------------

  /** The outline pixels whose smaller coordinate is below `rows` are drawn, no other. */
  ghost predicate Drawn(g: array2<bool>, r: nat, rows: int)
    requires GridFor(g, r)
    reads g
  {
    forall x: int, y: int :: Abs(x) <= r && Abs(y) <= r ==>
      (g[r + y, r + x] <==> OnCircle(r, x, y) && Min(Abs(x), Abs(y)) < rows)
  }

  lemma {:induction false} PlottedRow(r: nat, dx: int, dy: int)
    requires 0 <= dy <= dx && OnOctant(r, dx, dy)
    ensures forall x: int, y: int :: (Abs(x) == dx && Abs(y) == dy) || (Abs(x) == dy && Abs(y) == dx) <==>
                           OnCircle(r, x, y) && Min(Abs(x), Abs(y)) == dy
  {
    hide OnOctant;
    forall x: int, y: int | OnCircle(r, x, y) && Min(Abs(x), Abs(y)) == dy
      ensures (Abs(x) == dx && Abs(y) == dy) || (Abs(x) == dy && Abs(y) == dx)
    {
      UniqueColumn(r, Max(Abs(x), Abs(y)), dx, dy);
    }
  }

  /** Sets the eight pixels of an octant pixel, which completes its row. */
  method PlotEight(g: array2<bool>, r: nat, dx: nat, dy: nat)
    requires GridFor(g, r) && dy <= dx <= r && OnOctant(r, dx, dy) && Drawn(g, r, dy)
    modifies g
    ensures Drawn(g, r, dy + 1)
  {
    hide OnCircle, OnOctant;
    PlottedRow(r, dx, dy);
    PlotMirrored(g, r, dx, dy);
    PlotMirrored(g, r, dy, dx);
  }

  /** The error term: how far the next pixel candidates are from the circle. */
  ghost function Err(r: int, dx: int, dy: int): int {
    dx * dx + dy * dy - r * r + 2 * dy + r - dx
  }

  /** The circle has not yet passed the column `dx`, and in the octant it is in that column. */
  ghost predicate InColumn(r: nat, dx: int, dy: int) {
    && r * r <= dx * (dx + 1) + dy * dy
    && (dx >= dy ==> OnOctant(r, dx, dy))
  }

  lemma {:induction false} FirstColumn(r: nat)
    ensures InColumn(r, r, 0) && Err(r, r, 0) == 0
  {
    assert r * (r + 1) == r * r + r && r * (r - 1) == r * r - r;
  }

  /** The step along the row keeps the column when the error is small. */
  lemma {:induction false} KeepColumn(r: nat, dx: int, dy: int)
    requires InColumn(r, dx, dy) && 0 <= dy <= dx && Err(r, dx, dy) < r - 1
    ensures InColumn(r, dx, dy + 1) && Err(r, dx, dy + 1) == Err(r, dx, dy) + 1 + 2 * (dy + 1)
  {
    assert (dy + 1) * (dy + 1) == dy * dy + 2 * dy + 1;
    assert dx * (dx - 1) == dx * dx - dx && dx * (dx + 1) == dx * dx + dx;
  }

  lemma {:induction false} NextColumn(r: nat, dx: int, dy: int)
    requires InColumn(r, dx, dy) && 0 <= dy <= dx && Err(r, dx, dy) >= r - 1
    ensures InColumn(r, dx - 1, dy + 1)
    ensures Err(r, dx - 1, dy + 1) == Err(r, dx, dy) + 1 + 2 * ((dy + 1) - (dx - 1))
  {
    assert (dy + 1) * (dy + 1) == dy * dy + 2 * dy + 1;
    assert (dx - 1) * (dx - 1) == dx * dx - 2 * dx + 1;
    assert (dx - 1) * (dx - 2) == dx * dx - 3 * dx + 2;
    assert dx * (dx - 1) == dx * dx - dx && dx * (dx + 1) == dx * dx + dx;
    assert (dx - 1) * (dx - 1 + 1) == dx * dx - dx;
  }

  lemma {:induction false} Pronic(c: int, a: int)
    requires 0 <= c <= a
    ensures c * (c - 1) <= a * (a - 1)
  {
    assert c * (c - 1) == c * c - c && a * (a - 1) == a * a - a;
    if c < a {
      SmallerStep(c, a);
      assert c * (c + 1) == c * c + c;
    }
  }

  /** Once the octant is left no pixel is missing. */
  lemma {:induction false} OctantDone(r: nat, dx: int, dy: int, a: int, b: int)
    requires InColumn(r, dx, dy) && -1 <= dx < dy && 1 <= dy && OnOctant(r, a, b)
    ensures b < dy
  {
    assert (dx + 1) * (dx + 1 - 1) == dx * (dx + 1);
    Pronic(dx + 1, dy);
    if b >= dy && r > 0 {
      Pronic(dy, a);
      Squares(dy, b);
    }
  }

  method OutlinePico8(r: nat, g: array2<bool>)
    requires GridFor(g, r) && forall y, x :: 0 <= y < g.Length0 && 0 <= x < g.Length1 ==> !g[y, x]
    modifies g
    ensures forall x: int, y: int :: Abs(x) <= r && Abs(y) <= r ==> (g[r + y, r + x] <==> OnCircle(r, x, y))
  {
    hide OnOctant, Err, OnCircle, Drawn;
    var dx: int, dy, err := r, 0, 0;
    FirstColumn(r);
    NothingDrawn(g, r);
    while dx >= dy
      invariant 0 <= dy && -1 <= dx <= r && InColumn(r, dx, dy) && err == Err(r, dx, dy)
      invariant Drawn(g, r, dy) && (dy == 0 ==> dx == r)
      decreases dx - dy
    {
      PlotEight(g, r, dx, dy);
      if err < r - 1 {
        KeepColumn(r, dx, dy);
        dy := dy + 1;
        err := err + 1 + 2 * dy;
      } else {
        NextColumn(r, dx, dy);
        dy := dy + 1;
        dx := dx - 1;
        err := err + 1 + 2 * (dy - dx);
      }
    }
    AllDrawn(g, r, dx, dy);
  }

  lemma {:induction false} NothingDrawn(g: array2<bool>, r: nat)
    requires GridFor(g, r) && forall y, x :: 0 <= y < g.Length0 && 0 <= x < g.Length1 ==> !g[y, x]
    ensures Drawn(g, r, 0)
  {
    hide OnCircle;
  }

  lemma {:induction false} AllDrawn(g: array2<bool>, r: nat, dx: int, dy: int)
    requires GridFor(g, r) && Drawn(g, r, dy) && InColumn(r, dx, dy) && -1 <= dx < dy && 1 <= dy
    ensures forall x: int, y: int :: Abs(x) <= r && Abs(y) <= r ==> (g[r + y, r + x] <==> OnCircle(r, x, y))
  {
    hide OnOctant, InColumn;
    forall x: int, y: int | OnCircle(r, x, y)
      ensures Min(Abs(x), Abs(y)) < dy
    {
      OctantDone(r, dx, dy, Max(Abs(x), Abs(y)), Min(Abs(x), Abs(y)));
    }
  }

  // ---------------------------------------------------------------------------
  // The outline
  // ---------------------------------------------------------------------------

  /** Eight-way symmetry, and every pixel lies in the grid. */
  lemma {:induction false} Symmetric(r: nat, x: int, y: int)
    ensures OnCircle(r, x, y) == OnCircle(r, -x, y) == OnCircle(r, x, -y) == OnCircle(r, y, x)
    ensures OnCircle(r, x, y) ==> Abs(x) <= r && Abs(y) <= r
  {
    hide OnOctant;
    if OnCircle(r, x, y) {
      ColumnInGrid(r, Max(Abs(x), Abs(y)), Min(Abs(x), Abs(y)));
    }
  }

  /** The least `b` from `from` on whose pixel in column `a` is not inside the circle. */
  lemma {:induction false} FirstOutside(r: nat, a: nat, from: nat, to: nat) returns (b: nat)
    requires from <= to && r * r <= a * (a + 1) + to * to
    ensures from <= b <= to && r * r <= a * (a + 1) + b * b
    ensures b > from ==> a * (a + 1) + (b - 1) * (b - 1) < r * r
  {
    b := to;
    while b > from && r * r <= a * (a + 1) + (b - 1) * (b - 1)
      invariant from <= b <= to && r * r <= a * (a + 1) + b * b
    {
      b := b - 1;
    }
  }

  /** The least column from `y` on that is not inside the circle; that is the outline, unless
      it is `y` itself. */
  lemma {:induction false} FirstColumnOutside(r: nat, y: nat) returns (a: nat)
    requires y <= r
    ensures y <= a <= r && r * r <= a * (a + 1) + y * y
    ensures a > y ==> (a - 1) * a + y * y < r * r
  {
    a := r;
    assert r * (r + 1) == r * r + r;
    while a > y && r * r <= (a - 1) * a + y * y
      invariant y <= a <= r && r * r <= a * (a + 1) + y * y
    {
      assert (a - 1) * (a - 1 + 1) == (a - 1) * a;
      a := a - 1;
    }
  }

  /** No row of the outline is empty. */
  lemma {:induction false} RowNotEmpty(r: nat, y: nat) returns (x: nat)
    requires y <= r
    ensures x <= r && OnCircle(r, x, y)
  {
    if r == 0 {
      return 0;
    }
    var a := FirstColumnOutside(r, y);
    if a > y {
      assert (a - 1) * a == a * (a - 1);
      return a;
    }
    x := FirstOutside(r, y, 0, y);
    ClosestInColumn(r, y, x);
  }

  lemma {:induction false} ClosestInColumn(r: nat, y: nat, b: nat)
    requires b <= y <= r && r >= 1 && r * r <= y * (y + 1) + b * b
    requires b > 0 ==> y * (y + 1) + (b - 1) * (b - 1) < r * r
    ensures OnOctant(r, y, b)
  {
    assert y * (y + 1) == y * y + y && y * (y - 1) == y * y - y;
    assert (b - 1) * (b - 1) == b * b - 2 * b + 1;
    Squares(y, r);
  }

  /** The rows of the outline are mirrored and not empty, as filling them needs. */
  lemma {:induction false} OutlineRows(g: array2<bool>, r: nat)
    requires GridFor(g, r) && forall x: int, y: int :: Abs(x) <= r && Abs(y) <= r ==>
             (g[r + y, r + x] <==> OnCircle(r, x, y))
    ensures MirroredRows(g, r)
  {
    hide OnCircle;
    forall y: nat | y <= 2 * r
      ensures Mirrored(RowOf(g, y), r) && true in RowOf(g, y)
    {
      var row := RowOf(g, y);
      forall x | 0 <= x <= 2 * r
        ensures row[x] == row[2 * r - x]
      {
        Symmetric(r, x - r, y - r);
        assert g[r + (y - r), r + (x - r)] == g[r + (y - r), r + -(x - r)];
      }
      var x := RowNotEmpty(r, Abs(y - r));
      Symmetric(r, x, y - r);
      assert g[r + (y - r), r + x];
      assert row[r + x];
    }
  }
}
