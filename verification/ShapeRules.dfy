/** What the finished texture shows, texel by texel. */
module ShapeRules {
  import opened Numbers
  import opened ShapeAtlas
  import Tic80Circle
  import Tic80Pixels

  /** A pixel of the circle of radius `r`, by its place relative to the centre. */
  ghost predicate Ring(tic80: bool, r: nat, x: int, y: int) {
    var a, b := Max(Abs(x), Abs(y)), Min(Abs(x), Abs(y));
    var d := a * a + b * b - r * r;
    if r == 0 then a == 0
    else if !tic80 then 0 - a <= d < a
    else if a == b then 0 - a <= d < a - 1
    else 0 - a <= d < a
  }

  /** A pixel between two of the circle in its row. */
  ghost predicate Ball(tic80: bool, r: nat, x: int, y: int) {
    exists k, l :: k <= x <= l && Abs(k) <= r && Abs(l) <= r && Ring(tic80, r, k, y) && Ring(tic80, r, l, y)
  }

  lemma {:induction false} OutlineIsRing(tic80: bool, r: nat, x: int, y: int)
    requires Abs(x) <= r && Abs(y) <= r
    ensures OutlineAt(tic80, r, x, y) <==> Ring(tic80, r, x, y)
  {
    var a, b := Max(Abs(x), Abs(y)), Min(Abs(x), Abs(y));
    if tic80 {
      hide Tic80Circle.Quarter;
      Tic80Pixels.QuarterExact(r, Abs(x), Abs(y));
    } else {
      assert a * (a - 1) == a * a - a && a * (a + 1) == a * a + a;
    }
  }

  lemma {:induction false} DiscIsBall(tic80: bool, r: nat, x: int, y: int)
    requires Abs(x) <= r && Abs(y) <= r
    ensures DiscAt(tic80, r, x, y) <==> Ball(tic80, r, x, y)
  {
    hide OutlineAt, Ring;
    forall k | Abs(k) <= r
      ensures OutlineAt(tic80, r, k, y) <==> Ring(tic80, r, k, y)
    {
      OutlineIsRing(tic80, r, k, y);
    }
  }

  /** Every radius has a disc and an outline, in the texture, a texel apart from all others. */
  lemma {:induction false} AtlasLaid(regions: seq<Region>, maxR: nat, width: int, height: int, i: nat, j: nat)
    requires Laid(regions, maxR, width, height) && i < 2 * maxR + 2
    ensures |regions| == 2 * maxR + 2
    ensures var a, r := regions[i], if i <= maxR then i else i - maxR - 1;
            && 0 <= a.minX && a.maxX == a.minX + 2 * r && a.maxX < width
            && 0 <= a.minY && a.maxY == a.minY + 2 * r && a.maxY < height
    ensures j < |regions| && i != j ==>
              var a, b := regions[i], regions[j];
              a.maxX + 1 < b.minX || b.maxX + 1 < a.minX || a.maxY + 1 < b.minY || b.maxY + 1 < a.minY
  {
    assert Fits(regions[i], width, height, 2 * Radius(maxR, i) + 1);
    if j < |regions| && i != j {
      assert Apart(regions[i], regions[j]);
    }
  }

  /** The texel at column `x` and row `y` of a region's centre shows whether its shape has a pixel
      there. */
  lemma {:induction false} AtlasShows(
    t: Texels, regions: seq<Region>, maxR: nat, width: int, height: int, tic80: bool, r: nat, x: int, y: int)
    requires Sized(t, width, height) && Laid(regions, maxR, width, height)
    requires Built(t, regions, maxR, width, height, tic80, 2 * maxR + 2)
    requires r <= maxR && Abs(x) <= r && Abs(y) <= r
    ensures |regions| == 2 * maxR + 2
    ensures var disc, outline := regions[r], regions[maxR + 1 + r];
            && 0 <= disc.minY + r + y < |t| && 0 <= disc.minX + r + x < |t[disc.minY + r + y]|
            && 0 <= outline.minY + r + y < |t| && 0 <= outline.minX + r + x < |t[outline.minY + r + y]|
            && (t[disc.minY + r + y][disc.minX + r + x] <==> Ball(tic80, r, x, y))
            && (t[outline.minY + r + y][outline.minX + r + x] <==> Ring(tic80, r, x, y))
  {
    hide Ring, Ball, DiscAt, OutlineAt, Laid, Built;
    AtlasLaid(regions, maxR, width, height, r, r);
    AtlasLaid(regions, maxR, width, height, maxR + 1 + r, r);
    BuiltShows(t, regions, maxR, width, height, tic80, r);
    BuiltShows(t, regions, maxR, width, height, tic80, maxR + 1 + r);
    OutlineIsRing(tic80, r, x, y);
    DiscIsBall(tic80, r, x, y);
  }

  lemma {:induction false} BuiltShows(
    t: Texels, regions: seq<Region>, maxR: nat, width: int, height: int, tic80: bool, i: nat)
    requires Sized(t, width, height) && Laid(regions, maxR, width, height) && i < 2 * maxR + 2
    requires Built(t, regions, maxR, width, height, tic80, 2 * maxR + 2)
    ensures |regions| == 2 * maxR + 2
    ensures var r := if i <= maxR then i else i - maxR - 1;
            && Fits(regions[i], width, height, 2 * r + 1)
            && Shows(t, regions[i], width, height, tic80, i <= maxR, r)
  {
    hide Shows, Clear, Fits;
  }

  /** A texel that is set is one of a region's: the rest of the texture is transparent. */
  lemma {:induction false} RestClear(
    t: Texels, regions: seq<Region>, maxR: nat, width: int, height: int, tic80: bool, x: int, y: int)
    requires Sized(t, width, height) && Laid(regions, maxR, width, height)
    requires Built(t, regions, maxR, width, height, tic80, 2 * maxR + 2)
    requires 0 <= x < width && 0 <= y < height && t[y][x]
    ensures exists i :: 0 <= i < |regions| &&
              regions[i].minX <= x <= regions[i].maxX && regions[i].minY <= y <= regions[i].maxY
  {
    hide Shows, Clear, Laid;
    var i :| 0 <= i < |regions| && Inside(regions[i], x, y);
  }
}
