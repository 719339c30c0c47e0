/** The circle atlas: one outline and one disc of every radius, packed into a texture. */
module ShapeAtlas {
  import opened Circles
  import opened Numbers
  import Pico8Circle
  import Tic80Circle

  // ---------------------------------------------------------------------------
  // Shapes
  // ---------------------------------------------------------------------------

  ghost predicate OutlineAt(tic80: bool, r: nat, x: int, y: int) {
    if tic80 then Tic80Circle.Step(Abs(x), Abs(y)) in Tic80Circle.Quarter(r) else Pico8Circle.OnCircle(r, x, y)
  }

  /** A pixel with the outline at or left of it and at or right of it. */
  ghost predicate DiscAt(tic80: bool, r: nat, x: int, y: int) {
    (exists k :: -(r as int) <= k <= x && OutlineAt(tic80, r, k, y)) &&
    (exists k :: x <= k <= r && OutlineAt(tic80, r, k, y))
  }

  ghost predicate ShapeAt(tic80: bool, filled: bool, r: nat, x: int, y: int) {
    if filled then DiscAt(tic80, r, x, y) else OutlineAt(tic80, r, x, y)
  }

  /** The grid shows the shape. */
  ghost predicate Renders(g: array2<bool>, tic80: bool, filled: bool, r: nat)
    requires GridFor(g, r)
    reads g
  {
    forall x: int, y: int :: Abs(x) <= r && Abs(y) <= r ==> (g[r + y, r + x] <==> ShapeAt(tic80, filled, r, x, y))
  }

  method RenderShape(tic80: bool, filled: bool, r: nat) returns (g: array2<bool>)
    ensures GridFor(g, r) && Renders(g, tic80, filled, r) && fresh(g)
  {
    hide Pico8Circle.OnCircle, Tic80Circle.Quarter, DiscAt, Within;
    g := new bool[2 * r + 1, 2 * r + 1]((i, j) => false);
    if tic80 {
      var top, bottom := Tic80Circle.OutlineTic80(r, g);
    } else {
      Pico8Circle.OutlinePico8(r, g);
    }
    assert Renders(g, tic80, false, r);
    if filled {
      ghost var rows := Rows(g);
      FillRows(g);
      FilledIsDisc(g, rows, tic80, r);
    }
  }

  ghost function Rows(g: array2<bool>): (rows: seq<seq<bool>>)
    reads g
    ensures |rows| == g.Length0 && forall y :: 0 <= y < g.Length0 ==> rows[y] == RowOf(g, y)
  {
    seq(g.Length0, y requires 0 <= y < g.Length0 reads g => RowOf(g, y))
  }

  lemma {:induction false} FilledIsDisc(g: array2<bool>, rows: seq<seq<bool>>, tic80: bool, r: nat)
    requires GridFor(g, r) && |rows| == 2 * r + 1
    requires forall y :: 0 <= y < |rows| ==> |rows[y]| == 2 * r + 1
    requires forall x: int, y: int :: Abs(x) <= r && Abs(y) <= r ==> (rows[r + y][r + x] <==> OutlineAt(tic80, r, x, y))
    requires forall y, x :: 0 <= y < g.Length0 && 0 <= x < g.Length1 ==> (g[y, x] <==> Within(rows[y], x))
    ensures Renders(g, tic80, true, r)
  {
    hide OutlineAt, Within, DiscAt;
    forall x: int, y: int | Abs(x) <= r && Abs(y) <= r
      ensures g[r + y, r + x] <==> DiscAt(tic80, r, x, y)
    {
      WithinIsDisc(rows[r + y], tic80, r, x, y);
    }
  }

  lemma {:induction false} WithinIsDisc(row: seq<bool>, tic80: bool, r: nat, x: int, y: int)
    requires |row| == 2 * r + 1 && Abs(x) <= r
    requires forall k: int :: Abs(k) <= r ==> (row[r + k] <==> OutlineAt(tic80, r, k, y))
    ensures Within(row, r + x) <==> DiscAt(tic80, r, x, y)
  {
    hide OutlineAt;
    if Within(row, r + x) {
      var i, j :| 0 <= i <= r + x && row[i] && r + x <= j < |row| && row[j];
      assert row[r + (i - r)] && row[r + (j - r)] && Abs(i - r) <= r && Abs(j - r) <= r;
    }
    if DiscAt(tic80, r, x, y) {
      var i, j :| -(r as int) <= i <= x && OutlineAt(tic80, r, i, y) && x <= j <= r && OutlineAt(tic80, r, j, y);
      assert row[r + i] && row[r + j] && Abs(i) <= r && Abs(j) <= r;
    }
  }

  /** Every row of a disc is one span of pixels about the middle. */
  lemma {:induction false} DiscRow(tic80: bool, r: nat, y: int) returns (w: nat)
    requires Abs(y) <= r
    ensures w <= r && OutlineAt(tic80, r, w, y) && OutlineAt(tic80, r, -(w as int), y)
    ensures forall x: int :: Abs(x) <= r ==> (DiscAt(tic80, r, x, y) <==> Abs(x) <= w)
  {
    hide OutlineAt, DiscAt;
    var row := seq(2 * r + 1, i => OutlineAt(tic80, r, i - r, y));
    RowMirrored(tic80, r, y);
    var at := SomeInRow(tic80, r, y);
    forall i | 0 <= i <= 2 * r
      ensures row[i] == row[2 * r - i]
    {
      assert OutlineAt(tic80, r, i - r, y) == OutlineAt(tic80, r, -(i - r), y);
    }
    w := FilledSpan(row, r, r + at);
    forall x: int | Abs(x) <= r
      ensures DiscAt(tic80, r, x, y) <==> Abs(x) <= w
    {
      WithinIsDisc(row, tic80, r, x, y);
    }
  }

  lemma {:induction false} RowMirrored(tic80: bool, r: nat, y: int)
    ensures forall x: int :: OutlineAt(tic80, r, x, y) == OutlineAt(tic80, r, -x, y)
  {
    hide Pico8Circle.OnCircle;
    forall x: int
      ensures OutlineAt(tic80, r, x, y) == OutlineAt(tic80, r, -x, y)
    {
      Pico8Circle.Symmetric(r, x, y);
      assert Abs(x) == Abs(-x);
    }
  }

  lemma {:induction false} SomeInRow(tic80: bool, r: nat, y: int) returns (x: nat)
    requires Abs(y) <= r
    ensures x <= r && OutlineAt(tic80, r, x, y)
  {
    hide Pico8Circle.OnCircle, Tic80Circle.Near;
    if tic80 {
      var way := Tic80Circle.Quarter(r);
      Tic80Circle.QuarterIsOutline(r);
      var i := Tic80Circle.VisitsRow(r, way, Abs(y));
      x := way[i].u;
      assert Tic80Circle.Step(Abs(x), Abs(y)) == way[i];
    } else {
      x := Pico8Circle.RowNotEmpty(r, Abs(y));
      Pico8Circle.Symmetric(r, x, y);
    }
  }

  // ---------------------------------------------------------------------------
  // Packing
  // ---------------------------------------------------------------------------

  const GAP := 1

  /** A region of the texture, both corners included. */
  datatype Region = Region(minX: int, minY: int, maxX: int, maxY: int)

  /** Discs come first, by radius, then outlines. */
  function Radius(maxR: nat, id: nat): nat {
    if id <= maxR then id else id - (maxR + 1)
  }

  /** No two texels of the regions touch: a gap runs between them. */
  predicate Apart(a: Region, b: Region) {
    a.maxX + GAP < b.minX || b.maxX + GAP < a.minX || a.maxY + GAP < b.minY || b.maxY + GAP < a.minY
  }

  predicate Fits(a: Region, width: int, height: int, size: int) {
    && 0 <= a.minX && a.maxX < width && 0 <= a.minY && a.maxY < height
    && a.maxX - a.minX + 1 == size && a.maxY - a.minY + 1 == size
  }

  /** Below the shelf, or on it and left of `x`. */
  predicate Behind(a: Region, x: int, y: int) {
    a.maxY + GAP < y || (a.minY == y && a.maxX + GAP < x)
  }

  /** The regions in `placed` are in the texture so far and apart. */
  ghost predicate Packed(regions: seq<Region>, maxR: nat, placed: set<nat>, width: int, x: int, y: int, shelf: int) {
    && |regions| == 2 * (maxR + 1) && 0 <= x && 0 <= y && 0 <= shelf
    && (forall i :: i in placed ==> i < |regions| && Behind(regions[i], x, y) &&
                                    Fits(regions[i], width, y + shelf, 2 * Radius(maxR, i) + 1))
    && (forall i, j :: i in placed && j in placed && i != j ==> Apart(regions[i], regions[j]))
  }

  /** What has been placed when radius `r` is next. */
  ghost function Larger(maxR: nat, r: nat): set<nat> {
    set i: nat | i < 2 * (maxR + 1) && Radius(maxR, i) >= r
  }

  /** One region is placed: on the shelf, or on a new one when it does not fit. */
  method Place(regions: array<Region>, maxR: nat, id: nat, width: int, x: int, y: int, shelf: int,
      ghost placed: set<nat>)
    returns (x': int, y': int, shelf': int)
    requires id < regions.Length && id !in placed && 2 * Radius(maxR, id) + 1 <= width
    requires Packed(regions[..], maxR, placed, width, x, y, shelf)
    modifies regions
    ensures Packed(regions[..], maxR, placed + {id}, width, x', y', shelf')
  {
    var size := 2 * Radius(maxR, id) + 1;
    x', y', shelf' := x, y, shelf;
    if x + size > width {
      y' := y + shelf + GAP;
      x', shelf' := 0, 0;
    }
    ghost var before := regions[..];
    StillPacked(before, maxR, placed, width, x, y, shelf, x', y', shelf');
    var region := Region(x', y', x' + size - 1, y' + size - 1);
    ghost var low := shelf';
    regions[id] := region;
    if size > shelf' {
      shelf' := size;
    }
    PackOne(before, maxR, placed, width, x', y', low, shelf', id, region);
    x' := x' + size + GAP;
  }

  lemma {:induction false} StillPacked(regions: seq<Region>, maxR: nat, placed: set<nat>, width: int,
                                       x: int, y: int, shelf: int, x': int, y': int, shelf': int)
    requires Packed(regions, maxR, placed, width, x, y, shelf)
    requires (x' == x && y' == y && shelf' == shelf) || (x' == 0 && y' == y + shelf + GAP && shelf' == 0)
    ensures Packed(regions, maxR, placed, width, x', y', shelf')
  {}

  lemma {:induction false} PackOne(regions: seq<Region>, maxR: nat, placed: set<nat>, width: int,
                                   x: int, y: int, shelf: int, shelf': int, id: nat, region: Region)
    requires Packed(regions, maxR, placed, width, x, y, shelf)
    requires id < |regions| && id !in placed
    requires var size := 2 * Radius(maxR, id) + 1;
             x + size <= width && region == Region(x, y, x + size - 1, y + size - 1) && shelf' == Max(shelf, size)
    ensures Packed(regions[id := region], maxR, placed + {id}, width, x + 2 * Radius(maxR, id) + 1 + GAP, y, shelf')
  {
    var after := regions[id := region];
    forall i, j | i in placed + {id} && j in placed + {id} && i != j
      ensures Apart(after[i], after[j])
    {}
  }

  /** Shelf packing, largest shapes first, disc and outline of a radius side by side. */
  method PackShapes(maxR: nat, width: int) returns (regions: array<Region>, height: int)
    requires 2 * maxR + 1 <= width
    ensures fresh(regions) && regions.Length == 2 * (maxR + 1)
    ensures forall i :: 0 <= i < regions.Length ==> Fits(regions[i], width, height, 2 * Radius(maxR, i) + 1)
    ensures forall i, j :: 0 <= i < regions.Length && 0 <= j < regions.Length && i != j ==>
            Apart(regions[i], regions[j])
  {
    hide Packed;
    regions := new Region[2 * (maxR + 1)](i => Region(0, 0, 0, 0));
    var x, y, shelf := 0, 0, 0;
    PackNothing(regions[..], maxR, width);
    for r := maxR + 1 downto 0
      invariant Packed(regions[..], maxR, Larger(maxR, r), width, x, y, shelf)
    {
      x, y, shelf := Place(regions, maxR, r, width, x, y, shelf, Larger(maxR, r + 1));
      x, y, shelf := Place(regions, maxR, maxR + 1 + r, width, x, y, shelf, Larger(maxR, r + 1) + {r});
      assert Larger(maxR, r) == Larger(maxR, r + 1) + {r} + {maxR + 1 + r};
    }
    height := y + shelf;
    PackedAll(regions[..], maxR, width, x, y, shelf);
  }

  lemma {:induction false} PackNothing(regions: seq<Region>, maxR: nat, width: int)
    requires |regions| == 2 * (maxR + 1)
    ensures Packed(regions, maxR, Larger(maxR, maxR + 1), width, 0, 0, 0)
  {}

  lemma {:induction false} PackedAll(regions: seq<Region>, maxR: nat, width: int, x: int, y: int, shelf: int)
    requires Packed(regions, maxR, Larger(maxR, 0), width, x, y, shelf)
    ensures forall i :: 0 <= i < |regions| ==> Fits(regions[i], width, y + shelf, 2 * Radius(maxR, i) + 1)
    ensures forall i, j :: 0 <= i < |regions| && 0 <= j < |regions| && i != j ==> Apart(regions[i], regions[j])
  {
    assert forall i :: 0 <= i < |regions| ==> i in Larger(maxR, 0);
  }

  // ---------------------------------------------------------------------------
  // The texture
  // ---------------------------------------------------------------------------

  type Texels = seq<seq<bool>>

  ghost predicate Sized(t: Texels, width: int, height: int) {
    |t| == height && forall y :: 0 <= y < |t| ==> |t[y]| == width
  }

  predicate Inside(a: Region, x: int, y: int) {
    a.minX <= x <= a.maxX && a.minY <= y <= a.maxY
  }

  /** The texels of the region show a shape. */
  ghost predicate Shows(t: Texels, a: Region, width: int, height: int, tic80: bool, filled: bool, r: nat)
    requires Sized(t, width, height) && Fits(a, width, height, 2 * r + 1)
  {
    forall x, y :: 0 <= x < width && 0 <= y < height && Inside(a, x, y) ==>
      (t[y][x] <==> ShapeAt(tic80, filled, r, x - a.minX - r, y - a.minY - r))
  }

  ghost predicate Clear(t: Texels, a: Region, width: int, height: int)
    requires Sized(t, width, height)
  {
    forall x, y :: 0 <= x < width && 0 <= y < height && Inside(a, x, y) ==> !t[y][x]
  }

  /** Only texels of the region differ. */
  ghost predicate Elsewhere(t: Texels, u: Texels, a: Region, width: int, height: int)
    requires Sized(t, width, height) && Sized(u, width, height)
  {
    forall x, y :: 0 <= x < width && 0 <= y < height && !Inside(a, x, y) ==> t[y][x] == u[y][x]
  }

  /** Copies the set cells of a shape to its region. */
  method Blit(g: array2<bool>, pix: array2<bool>, a: Region, tic80: bool, filled: bool, r: nat)
    requires g != pix && GridFor(g, r) && Renders(g, tic80, filled, r)
    requires Fits(a, pix.Length1, pix.Length0, 2 * r + 1) && Clear(Rows(pix), a, pix.Length1, pix.Length0)
    modifies pix
    ensures Shows(Rows(pix), a, pix.Length1, pix.Length0, tic80, filled, r)
    ensures Elsewhere(old(Rows(pix)), Rows(pix), a, pix.Length1, pix.Length0)
  {
    hide ShapeAt, Renders;
    ghost var before := Rows(pix);
    for py := 0 to g.Length0
      invariant forall x, y :: 0 <= x < pix.Length1 && 0 <= y < pix.Length0 ==>
                  pix[y, x] == if Inside(a, x, y) && y < a.minY + py then g[y - a.minY, x - a.minX] else before[y][x]
    {
      for px := 0 to g.Length1
        invariant forall x, y :: 0 <= x < pix.Length1 && 0 <= y < pix.Length0 ==>
                    pix[y, x] == if Inside(a, x, y) && (y < a.minY + py || (y == a.minY + py && x < a.minX + px))
                                 then g[y - a.minY, x - a.minX] else before[y][x]
      {
        if g[py, px] {
          pix[a.minY + py, a.minX + px] := true;
        }
      }
    }
    BlitShows(g, Rows(pix), a, pix.Length1, pix.Length0, tic80, filled, r);
  }

  lemma {:induction false} BlitShows(g: array2<bool>, t: Texels, a: Region, width: int, height: int,
                                     tic80: bool, filled: bool, r: nat)
    requires GridFor(g, r) && Renders(g, tic80, filled, r) && Sized(t, width, height) &&
             Fits(a, width, height, 2 * r + 1)
    requires forall x, y :: 0 <= x < width && 0 <= y < height && Inside(a, x, y) ==>
             t[y][x] == g[y - a.minY, x - a.minX]
    ensures Shows(t, a, width, height, tic80, filled, r)
  {
    hide ShapeAt;
    forall x, y | 0 <= x < width && 0 <= y < height && Inside(a, x, y)
      ensures t[y][x] <==> ShapeAt(tic80, filled, r, x - a.minX - r, y - a.minY - r)
    {
      var cx, cy := x - a.minX - r, y - a.minY - r;
      assert Abs(cx) <= r && Abs(cy) <= r;
      assert g[r + cy, r + cx] <==> ShapeAt(tic80, filled, r, cx, cy);
    }
  }

  lemma {:induction false} OthersKept(t: Texels, u: Texels, a: Region, b: Region, width: int, height: int,
                                      tic80: bool, filled: bool, r: nat)
    requires Sized(t, width, height) && Sized(u, width, height) && Elsewhere(t, u, b, width, height)
    requires Apart(a, b) && Fits(a, width, height, 2 * r + 1)
    ensures Clear(t, a, width, height) ==> Clear(u, a, width, height)
    ensures Shows(t, a, width, height, tic80, filled, r) ==> Shows(u, a, width, height, tic80, filled, r)
  {
    hide ShapeAt;
  }

  ghost predicate Laid(regions: seq<Region>, maxR: nat, width: int, height: int) {
    && |regions| == 2 * (maxR + 1)
    && (forall i :: 0 <= i < |regions| ==> Fits(regions[i], width, height, 2 * Radius(maxR, i) + 1))
    && (forall i, j :: 0 <= i < |regions| && 0 <= j < |regions| && i != j ==> Apart(regions[i], regions[j]))
  }

  /** The first `n` regions show their shapes; all other texels are clear. */
  ghost predicate Built(t: Texels, regions: seq<Region>, maxR: nat, width: int, height: int, tic80: bool, n: nat)
    requires Sized(t, width, height) && Laid(regions, maxR, width, height)
  {
    && (forall i: nat :: i < n && i < |regions| ==>
          Shows(t, regions[i], width, height, tic80, i <= maxR, Radius(maxR, i)))
    && (forall i: nat :: n <= i < |regions| ==> Clear(t, regions[i], width, height))
    && (forall x, y :: 0 <= x < width && 0 <= y < height && t[y][x] ==>
          exists i :: 0 <= i < |regions| && Inside(regions[i], x, y))
  }

  lemma {:induction false} BuiltOne(t: Texels, u: Texels, regions: seq<Region>, maxR: nat, width: int, height: int,
                                    tic80: bool, n: nat)
    requires Sized(t, width, height) && Sized(u, width, height) && Laid(regions, maxR, width, height) && n < |regions|
    requires Built(t, regions, maxR, width, height, tic80, n)
    requires Elsewhere(t, u, regions[n], width, height)
    requires Shows(u, regions[n], width, height, tic80, n <= maxR, Radius(maxR, n))
    ensures Built(u, regions, maxR, width, height, tic80, n + 1)
  {
    hide Shows, Clear, Apart, Fits, Elsewhere;
    forall i: nat | i < |regions| && i != n
      ensures if i < n then Shows(u, regions[i], width, height, tic80, i <= maxR, Radius(maxR, i))
              else Clear(u, regions[i], width, height)
    {
      OthersKept(t, u, regions[i], regions[n], width, height, tic80, i <= maxR, Radius(maxR, i));
    }
    forall x, y | 0 <= x < width && 0 <= y < height && u[y][x]
      ensures exists i :: 0 <= i < |regions| && Inside(regions[i], x, y)
    {
      SetBefore(t, u, regions[n], width, height, x, y);
    }
  }

  lemma {:induction false} SetBefore(t: Texels, u: Texels, a: Region, width: int, height: int, x: int, y: int)
    requires Sized(t, width, height) && Sized(u, width, height) && Elsewhere(t, u, a, width, height)
    requires 0 <= x < width && 0 <= y < height && u[y][x]
    ensures Inside(a, x, y) || t[y][x]
  {}

  /** The regions and the texture in which each shows its shape and everything else is
      transparent. */
  method BuildShapes(maxR: nat, width: int, tic80: bool) returns (regions: array<Region>, pix: array2<bool>)
    requires 2 * maxR + 1 <= width
    ensures pix.Length1 == width && Laid(regions[..], maxR, width, pix.Length0)
    ensures Built(Rows(pix), regions[..], maxR, width, pix.Length0, tic80, 2 * (maxR + 1))
  {
    hide Shows, Clear, Apart, Fits, Elsewhere, Built, Rows;
    var height;
    regions, height := PackShapes(maxR, width);
    SomeHeight(regions[0], width, height);
    pix := new bool[height, width]((i, j) => false);
    AllClear(pix, regions[..], maxR, tic80);
    for id := 0 to regions.Length
      invariant Laid(regions[..], maxR, width, height)
      invariant Built(Rows(pix), regions[..], maxR, width, height, tic80, id)
    {
      var r := Radius(maxR, id);
      var filled := id <= maxR;
      var g := RenderShape(tic80, filled, r);
      ghost var before := Rows(pix);
      NextIsClear(before, regions[..], maxR, width, height, tic80, id);
      Blit(g, pix, regions[id], tic80, filled, r);
      BuiltOne(before, Rows(pix), regions[..], maxR, width, height, tic80, id);
    }
  }

  lemma {:induction false} NextIsClear(t: Texels, regions: seq<Region>, maxR: nat, width: int, height: int,
      tic80: bool, n: nat)
    requires Sized(t, width, height) && Laid(regions, maxR, width, height) && n < |regions|
    requires Built(t, regions, maxR, width, height, tic80, n)
    ensures Clear(t, regions[n], width, height) && Fits(regions[n], width, height, 2 * Radius(maxR, n) + 1)
  {
    hide Shows, Clear, Apart, Fits;
  }

  lemma {:induction false} SomeHeight(a: Region, width: int, height: int)
    requires exists s: nat :: s >= 1 && Fits(a, width, height, s)
    ensures height >= 0 && width >= 0
  {}

  lemma {:induction false} AllClear(pix: array2<bool>, regions: seq<Region>, maxR: nat, tic80: bool)
    requires forall y, x :: 0 <= y < pix.Length0 && 0 <= x < pix.Length1 ==> !pix[y, x]
    requires Laid(regions, maxR, pix.Length1, pix.Length0)
    ensures Built(Rows(pix), regions, maxR, pix.Length1, pix.Length0, tic80, 0)
  {
    hide Shows, Apart, Fits;
  }
}
