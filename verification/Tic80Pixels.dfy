/** Which pixels TIC-80's circle consists of: in every row, or beyond the diagonal in every
    column, the one nearest to the circle. */
module Tic80Pixels {
  import opened Numbers
  import opened Tic80Circle

  /** How far the square of the pixel's distance from the centre is from that of the circle. */
  function Off(r: int, u: int, j: int): int {
    u * u + j * j - r * r
  }

  /** The larger of its two coordinates is the nearest integer to the circle in the row or column
      that the smaller one gives. On the diagonal one pixel less fits. */
  predicate Pixel(r: nat, u: int, j: int) {
    var m := Max(u, j);
    if u == j then r == 0 || -m <= Off(r, u, j) < m - 1 else -m <= Off(r, u, j) < m
  }

  /** That it is the nearest one: less than half a pixel off. */
  lemma {:induction false} PixelNearest(r: nat, u: nat, j: nat)
    requires Pixel(r, u, j) && u > j
    ensures (2 * u - 1) * (2 * u - 1) <= 4 * (r * r - j * j) <= (2 * u + 1) * (2 * u + 1)
  {
    assert (2 * u - 1) * (2 * u - 1) == 4 * (u * u) - 4 * u + 1;
    assert (2 * u + 1) * (2 * u + 1) == 4 * (u * u) + 4 * u + 1;
  }

  lemma {:induction false} Mirror(r: nat, u: int, j: int)
    ensures Pixel(r, u, j) == Pixel(r, j, u)
  {}

  // ---------------------------------------------------------------------------
  // One step
  // ---------------------------------------------------------------------------

  /** The window for the distance `d` of a pixel. */
  predicate InWindow(d: int, u: int, j: int) {
    var m := Max(u, j);
    -m <= d && (if u == j then d < m - 1 else d < m)
  }

  lemma {:induction false} WindowPixel(r: nat, u: int, j: int)
    requires r >= 1
    ensures Pixel(r, u, j) <==> InWindow(Off(r, u, j), u, j)
  {}

  lemma {:induction false} OffNext(r: int, u: int, j: int)
    ensures Off(r, u, j + 1) == Off(r, u, j) + 2 * j + 1
    ensures Off(r, u - 1, j) == Off(r, u, j) - 2 * u + 1
    ensures Off(r, u - 1, j + 1) == Off(r, u, j) - 2 * u + 2 * j + 2
  {
    assert (j + 1) * (j + 1) == j * j + 2 * j + 1;
    assert (u - 1) * (u - 1) == u * u - 2 * u + 1;
  }

  /** The two tests of the loop in terms of the distance. */
  lemma {:induction false} Tests(r: int, u: int, j: int)
    ensures MovesOut(r, u, j) <==> Off(r, u, j) <= 2 * u - j - 2
    ensures MovesIn(r, u, j) <==>
              Off(r, u, j) >= u - 2 * j - 1 || !MovesOut(r, u, j) || Off(r, u, j) > 2 * u - 3 * j - 4
  {
    hide Err;
    ErrIs(r, u, j);
  }

  /** The loop goes from pixel to pixel. */
  lemma {:induction false} NextPixel(r: nat, u: int, j: int)
    requires r >= 1 && u >= 0 && j >= 0 && Pixel(r, u, j) && Next(r, u, j).u >= 0
    ensures Pixel(r, Next(r, u, j).u, Next(r, u, j).j)
  {
    hide MovesIn, MovesOut, Off, Pixel;
    Tests(r, u, j);
    OffNext(r, u, j);
    WindowPixel(r, u, j);
    WindowPixel(r, u, j + 1);
    WindowPixel(r, u - 1, j);
    WindowPixel(r, u - 1, j + 1);
  }

  lemma {:induction false} FirstPixel(r: nat)
    requires r >= 1
    ensures Pixel(r, r, 0) && Pixel(r, 0, r)
  {}

  // ---------------------------------------------------------------------------
  // Every step of the way is a pixel
  // ---------------------------------------------------------------------------

  lemma {:induction false} WalkPixels(r: nat, s: Step)
    requires r >= 1 && OnWay(r, s) && s.u >= 0 && Pixel(r, s.u, s.j)
    ensures forall p :: p in Walk(r, s) ==> Pixel(r, p.u, p.j)
    ensures forall p :: p in Walk(r, s) ==> p.u == 0 || Next(r, p.u, p.j) in Walk(r, s) || Next(r, p.u, p.j).u < 0
    decreases s.u + 1 + (r - s.j)
  {
    hide Pixel, Next, Near;
    StepAdvances(r, s);
    var n := Next(r, s.u, s.j);
    var way := Walk(r, n);
    assert Walk(r, s) == [s] + way;
    if n.u >= 0 {
      NextPixel(r, s.u, s.j);
      WalkPixels(r, n);
      WalkStarts(r, n);
    }
  }

  lemma {:induction false} WalkStarts(r: nat, s: Step)
    requires r >= 1 && OnWay(r, s) && s.u >= 0
    ensures s in Walk(r, s)
  {
    hide Next, OnWay;
  }

  lemma {:induction false} QuarterPixels(r: nat)
    requires r >= 1
    ensures forall p :: p in Quarter(r) ==> Pixel(r, p.u, p.j)
    ensures forall p :: p in Quarter(r) && p.u > 0 ==> Next(r, p.u, p.j) in Quarter(r)
  {
    hide Pixel, Next, Walk;
    assert OnWay(r, Step(r, 0));
    FirstPixel(r);
    WalkPixels(r, Step(r, 0));
    forall p | p in Quarter(r) && p.u > 0
      ensures Next(r, p.u, p.j) in Quarter(r)
    {
      NextNotOut(r, p.u, p.j);
    }
  }

  lemma {:induction false} NextNotOut(r: nat, u: int, j: int)
    requires u > 0
    ensures Next(r, u, j).u >= 0
  {}

  // ---------------------------------------------------------------------------
  // Every pixel is on the way
  // ---------------------------------------------------------------------------

  /** A step moves in, out or both. */
  lemma {:induction false} NextIs(r: int, u: int, j: int)
    ensures Next(r, u, j) in {Step(u, j + 1), Step(u - 1, j), Step(u - 1, j + 1)}
  {
    hide Err;
  }

  /** Every step of the way but the first is the next one of another. */
  lemma {:induction false} WalkBefore(r: nat, s: Step, p: Step) returns (q: Step)
    requires r >= 1 && OnWay(r, s) && s.u >= 0 && p in Walk(r, s) && p != s
    ensures q in Walk(r, s) && Next(r, q.u, q.j) == p
    decreases s.u + 1 + (r - s.j)
  {
    hide Next, Near;
    StepAdvances(r, s);
    var n := Next(r, s.u, s.j);
    if p == n {
      q := s;
    } else {
      q := WalkBefore(r, n, p);
    }
  }

  /** There is one pixel in a row of the octant. */
  lemma {:induction false} OneInRow(r: nat, u: int, j: int)
    requires r >= 1 && j >= 0 && u > j && Pixel(r, u, j)
    ensures !Pixel(r, u + 1, j) && !Pixel(r, u - 1, j)
  {
    hide Off, Pixel;
    OffNext(r, u, j);
    OffNext(r, u + 1, j);
    WindowPixel(r, u, j);
    WindowPixel(r, u + 1, j);
    WindowPixel(r, u - 1, j);
  }

  /** The row before has one, at the same place or one further out. */
  lemma {:induction false} RowBefore(r: nat, u: int, j: int) returns (v: int)
    requires r >= 1 && j >= 1 && u > j && Pixel(r, u, j)
    ensures u <= v <= u + 1 && Pixel(r, v, j - 1)
  {
    hide Off, Pixel;
    OffNext(r, u, j - 1);
    OffNext(r, u + 1, j - 1);
    WindowPixel(r, u, j);
    WindowPixel(r, u, j - 1);
    WindowPixel(r, u + 1, j - 1);
    v := if Pixel(r, u, j - 1) then u else u + 1;
  }

  lemma {:induction false} AxisPixel(r: nat, u: int)
    requires r >= 1 && u > 0
    ensures Pixel(r, u, 0) <==> u == r
  {
    if u > r {
      Square(r, u - 1);
      assert (u - 1) * (u - 1) == u * u - 2 * u + 1;
    } else if u < r {
      Square(u + 1, r);
      assert (u + 1) * (u + 1) == u * u + 2 * u + 1;
    }
  }

  lemma {:induction false} RowVisited(r: nat, u: int, j: int)
    requires r >= 1 && j >= 0 && u > j && Pixel(r, u, j)
    ensures Step(u, j) in Quarter(r)
    decreases j
  {
    hide Quarter, Pixel, Next;
    if j == 0 {
      AxisPixel(r, u);
      QuarterEnds(r);
    } else {
      var v := RowBefore(r, u, j);
      RowVisited(r, v, j - 1);
      QuarterPixels(r);
      var n := Next(r, v, j - 1);
      assert Step(v, j - 1) in Quarter(r) && n in Quarter(r) && Pixel(r, n.u, n.j);
      NextIs(r, v, j - 1);
      OneInRow(r, v, j - 1);
      OneInRow(r, u, j);
    }
  }

  lemma {:induction false} QuarterEnds(r: nat)
    requires r >= 1
    ensures Step(r, 0) in Quarter(r) && Step(0, r) in Quarter(r)
  {
    hide Quarter, Outline;
    QuarterIsOutline(r);
  }

  lemma {:induction false} ColumnVisited(r: nat, u: int, j: int)
    requires r >= 1 && u >= 0 && j > u && Pixel(r, u, j)
    ensures Step(u, j) in Quarter(r)
    decreases u
  {
    hide Quarter, Pixel, Next;
    Mirror(r, u, j);
    if u == 0 {
      AxisPixel(r, j);
      QuarterEnds(r);
    } else {
      var v := RowBefore(r, j, u);
      Mirror(r, v, u - 1);
      ColumnVisited(r, u - 1, v);
      QuarterPixels(r);
      var q := QuarterBefore(r, Step(u - 1, v));
      assert Pixel(r, q.u, q.j);
      NextIs(r, q.u, q.j);
      Mirror(r, q.u, q.j);
      OneInRow(r, v, u - 1);
      OneInRow(r, j, u);
    }
  }

  lemma {:induction false} QuarterBefore(r: nat, p: Step) returns (q: Step)
    requires r >= 1 && p in Quarter(r) && p != Step(r, 0)
    ensures q in Quarter(r) && Next(r, q.u, q.j) == p
  {
    hide Next, Walk;
    assert OnWay(r, Step(r, 0));
    q := WalkBefore(r, Step(r, 0), p);
  }

  lemma {:induction false} DiagonalVisited(r: nat, m: int)
    requires r >= 1 && m >= 0 && Pixel(r, m, m)
    ensures Step(m, m) in Quarter(r)
  {
    hide Quarter, Next;
    if m == 0 {
      Square(1, r);
    } else {
      AroundDiagonal(r, m);
      RowVisited(r, m + 1, m - 1);
      QuarterPixels(r);
      var n := Next(r, m + 1, m - 1);
      assert Step(m + 1, m - 1) in Quarter(r) && n in Quarter(r) && Pixel(r, n.u, n.j);
      NextIs(r, m + 1, m - 1);
    }
  }

  lemma {:induction false} AroundDiagonal(r: nat, m: int)
    requires r >= 1 && m >= 1 && Pixel(r, m, m)
    ensures Pixel(r, m + 1, m - 1) && !Pixel(r, m + 1, m) && !Pixel(r, m, m - 1)
  {
    hide Off, Pixel;
    OffNext(r, m + 1, m - 1);
    OffNext(r, m, m - 1);
    OffNext(r, m + 1, m);
    WindowPixel(r, m, m);
    WindowPixel(r, m + 1, m - 1);
    WindowPixel(r, m + 1, m);
    WindowPixel(r, m, m - 1);
  }

  /** The quarter of the outline consists of exactly these pixels. */
  lemma {:induction false} QuarterExact(r: nat, u: nat, j: nat)
    requires u <= r && j <= r
    ensures Step(u, j) in Quarter(r) <==> Pixel(r, u, j)
  {
    hide Pixel;
    if r == 0 {
      assert Pixel(0, 0, 0) by {
        OriginPixel();
      }
    } else {
      hide Quarter;
      QuarterPixels(r);
      if Pixel(r, u, j) {
        if u > j {
          RowVisited(r, u, j);
        } else if u < j {
          ColumnVisited(r, u, j);
        } else {
          DiagonalVisited(r, u);
        }
      }
    }
  }

  lemma {:induction false} OriginPixel()
    ensures Pixel(0, 0, 0)
  {}
}
