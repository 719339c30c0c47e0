/** The PNG row filters (RFC 2083, section 6) and the loop that undoes them in place. */
module Unfilter {
  import opened Bits
  import opened Numbers

  /** The Paeth predictor: left, above and upper left. */
  function Paeth(a: int, b: int, c: int): int {
    var p := a + b - c;
    var pa, pb, pc := Abs(p - a), Abs(p - b), Abs(p - c);
    if pa <= pb && pa <= pc then a else if pb <= pc then b else c
  }

  /** It answers the neighbour nearest to `a + b - c`, preferring left, then above. */
  lemma {:induction false} PaethNearest(a: int, b: int, c: int)
    ensures var p, r := a + b - c, Paeth(a, b, c);
            && (r == a || r == b || r == c)
            && Abs(p - r) <= Abs(p - a) && Abs(p - r) <= Abs(p - b) && Abs(p - r) <= Abs(p - c)
            && (Abs(p - a) == Abs(p - r) ==> r == a)
            && (Abs(p - b) == Abs(p - r) ==> r == a || r == b)
  {}

  /** What filter `kind` predicts for a byte from its neighbours. */
  function Predict(kind: nat, a: byte, b: byte, c: byte): (p: byte) {
    if kind == 1 then a
    else if kind == 2 then b
    else if kind == 3 then ((a as int) + (b as int)) / 2
    else if kind == 4 then (PaethNearest(a, b, c); Paeth(a, b, c))
    else 0
  }

  /** The byte `bpp` places before `x`, or zero off the left edge. */
  function Left(row: seq<byte>, x: nat, bpp: nat): byte
    requires x <= |row| && bpp > 0
  {
    if x >= bpp then row[x - bpp] else 0
  }

  // ---------------------------------------------------------------------------
  // One row
  // ---------------------------------------------------------------------------

  /** Of the bytes to the left, above and above to the left, the one nearest to their Paeth
      sum `left + above - corner`; the sum's distances from them are written out. */
  function Nearest(left: int, above: int, corner: int): (n: int)
    ensures n == left || n == above || n == corner
  {
    var toLeft, toAbove, toCorner := Abs(above - corner), Abs(left - corner), Abs(left + above - 2 * corner);
    if toLeft <= toAbove && toLeft <= toCorner then left
    else if toAbove <= toCorner then above
    else corner
  }

  /** One byte filtered as RFC 2083, sections 6.2 to 6.6, says for each type. */
  function FilterByte(kind: nat, x: byte, left: byte, above: byte, corner: byte): byte {
    match kind
    case 1 => ((x as int) - (left as int)) % 256
    case 2 => ((x as int) - (above as int)) % 256
    case 3 => ((x as int) - ((left as int) + (above as int)) / 2) % 256
    case 4 => ((x as int) - Nearest(left as int, above as int, corner as int)) % 256
    case _ => x
  }

  /** The filter as the standard defines it, on the original bytes; bytes off the left edge
      count as zero. */
  function FilterRow(kind: nat, row: seq<byte>, prev: seq<byte>, bpp: nat): (r: seq<byte>)
    requires |row| == |prev| && bpp > 0
    ensures |r| == |row|
  {
    seq(|row|, x requires 0 <= x < |row| =>
      if x < bpp then FilterByte(kind, row[x], 0, prev[x], 0)
      else FilterByte(kind, row[x], row[x - bpp], prev[x], prev[x - bpp]))
  }

  /** The first `x` bytes reconstructed, each from the reconstructed bytes before it. */
  function Reconstruct(kind: nat, filtered: seq<byte>, prev: seq<byte>, bpp: nat, x: nat): (r: seq<byte>)
    requires x <= |filtered| == |prev| && bpp > 0
    ensures |r| == x
    decreases x
  {
    if x == 0 then []
    else
      var r := Reconstruct(kind, filtered, prev, bpp, x - 1);
      r + [((filtered[x - 1] as int) + Predict(kind, Left(r, x - 1, bpp), prev[x - 1], Left(prev, x - 1, bpp))) % 256]
  }

  lemma {:induction false} UndoMod(v: byte, p: byte)
    ensures ((((v as int) - p) % 256) + p) % 256 == v
  {}

  /** Adding the prediction undoes every type of filter. */
  lemma {:induction false} ByteRoundTrip(kind: nat, x: byte, left: byte, above: byte, corner: byte)
    ensures ((FilterByte(kind, x, left, above, corner) as int) + Predict(kind, left, above, corner)) % 256 == x
  {
    UndoMod(x, Predict(kind, left, above, corner));
  }

  lemma {:induction false} RowRoundTrip(kind: nat, row: seq<byte>, prev: seq<byte>, bpp: nat, x: nat)
    requires x <= |row| == |prev| && bpp > 0
    ensures Reconstruct(kind, FilterRow(kind, row, prev, bpp), prev, bpp, x) == row[..x]
    decreases x
  {
    if x > 0 {
      hide Predict, FilterByte;
      RowRoundTrip(kind, row, prev, bpp, x - 1);
      ByteRoundTrip(kind, row[x - 1], Left(row, x - 1, bpp), prev[x - 1], Left(prev, x - 1, bpp));
      assert Left(row[..x - 1], x - 1, bpp) == Left(row, x - 1, bpp);
      assert row[..x] == row[..x - 1] + [row[x - 1]];
    }
  }

  // ---------------------------------------------------------------------------
  // The image
  // ---------------------------------------------------------------------------

  /** The raw data of an image: every row preceded by its filter type. */
  function FilterImage(kinds: seq<nat>, rows: seq<seq<byte>>, prev: seq<byte>, bpp: nat): seq<byte>
    requires |kinds| == |rows| && bpp > 0
    requires forall i :: 0 <= i < |rows| ==> kinds[i] < 256 && |rows[i]| == |prev|
    decreases |rows|
  {
    if |rows| == 0 then []
    else [kinds[0]] + FilterRow(kinds[0], rows[0], prev, bpp) + FilterImage(kinds[1..], rows[1..], rows[0], bpp)
  }

  /** The same layout with the original bytes: what the loop should leave behind. */
  function PlainImage(kinds: seq<nat>, rows: seq<seq<byte>>): seq<byte>
    requires |kinds| == |rows|
    requires forall i :: 0 <= i < |rows| ==> kinds[i] < 256
    decreases |rows|
  {
    if |rows| == 0 then []
    else [kinds[0]] + rows[0] + PlainImage(kinds[1..], rows[1..])
  }

  datatype Result = Image(raw: seq<byte>) | BadFilter

  /** Rows reconstructed one after the other; an unknown filter type on a row with any bytes
      stops it. */
  function UnfilterSpec(raw: seq<byte>, height: nat, prev: seq<byte>, bpp: nat): Result
    requires |raw| == (|prev| + 1) * height && bpp > 0
    decreases height
  {
    if height == 0 then Image([])
    else
      var stride := |prev|;
      RowSize(stride, height);
      if raw[0] > 4 && stride > 0 then BadFilter
      else
        var row := Reconstruct(raw[0], raw[1..stride + 1], prev, bpp, stride);
        match UnfilterSpec(raw[stride + 1..], height - 1, row, bpp)
        case BadFilter => BadFilter
        case Image(rest) => Image([raw[0]] + row + rest)
  }

  lemma {:induction false} RowSize(stride: nat, height: nat)
    requires height > 0
    ensures (stride + 1) * height == (stride + 1) + (stride + 1) * (height - 1)
  {}

  lemma {:induction false} FilterImageSize(kinds: seq<nat>, rows: seq<seq<byte>>, prev: seq<byte>, bpp: nat)
    requires |kinds| == |rows| && bpp > 0
    requires forall i :: 0 <= i < |rows| ==> kinds[i] < 256 && |rows[i]| == |prev|
    ensures |FilterImage(kinds, rows, prev, bpp)| == (|prev| + 1) * |rows|
    decreases |rows|
  {
    if |rows| > 0 {
      hide FilterRow;
      RowSize(|prev|, |rows|);
      FilterImageSize(kinds[1..], rows[1..], rows[0], bpp);
    }
  }

  /** Some row has a filter type the standard does not define. */
  ghost predicate HasUnknown(kinds: seq<nat>) {
    exists i :: 0 <= i < |kinds| && kinds[i] > 4
  }

  lemma {:induction false} UnknownStep(kinds: seq<nat>)
    requires |kinds| > 0
    ensures HasUnknown(kinds) <==> kinds[0] > 4 || HasUnknown(kinds[1..])
  {
    if HasUnknown(kinds) && kinds[0] <= 4 {
      var i :| 0 <= i < |kinds| && kinds[i] > 4;
      assert kinds[1..][i - 1] > 4;
    }
    if HasUnknown(kinds[1..]) {
      var i :| 0 <= i < |kinds[1..]| && kinds[1..][i] > 4;
      assert kinds[i + 1] > 4;
    }
  }

  lemma {:induction false} FirstFiltered(kinds: seq<nat>, rows: seq<seq<byte>>, prev: seq<byte>, bpp: nat)
    requires |kinds| == |rows| > 0 && bpp > 0
    requires forall i :: 0 <= i < |rows| ==> kinds[i] < 256 && |rows[i]| == |prev|
    ensures var raw := FilterImage(kinds, rows, prev, bpp);
            && |raw| > |prev| && raw[0] == kinds[0] && raw[1..|prev| + 1] == FilterRow(kinds[0], rows[0], prev, bpp)
            && raw[|prev| + 1..] == FilterImage(kinds[1..], rows[1..], rows[0], bpp)
  {
    hide FilterRow;
  }

  /** Undoing the filters gives the image back, for any choice of filters; a type above 4 is
      reported exactly when some row with any bytes has one. */
  lemma {:induction false} ImageRoundTrip(kinds: seq<nat>, rows: seq<seq<byte>>, prev: seq<byte>, bpp: nat)
    requires |kinds| == |rows| && bpp > 0
    requires forall i :: 0 <= i < |rows| ==> kinds[i] < 256 && |rows[i]| == |prev|
    ensures |FilterImage(kinds, rows, prev, bpp)| == (|prev| + 1) * |rows|
    ensures UnfilterSpec(FilterImage(kinds, rows, prev, bpp), |rows|, prev, bpp) ==
            if |prev| > 0 && HasUnknown(kinds) then BadFilter else Image(PlainImage(kinds, rows))
    decreases |rows|
  {
    FilterImageSize(kinds, rows, prev, bpp);
    if |rows| > 0 {
      hide FilterRow, Reconstruct, HasUnknown, FilterImage;
      var raw := FilterImage(kinds, rows, prev, bpp);
      var stride := |prev|;
      FirstFiltered(kinds, rows, prev, bpp);
      RowRoundTrip(kinds[0], rows[0], prev, bpp, stride);
      assert rows[0][..stride] == rows[0];
      ImageRoundTrip(kinds[1..], rows[1..], rows[0], bpp);
      UnknownStep(kinds);
    }
  }

  /** A file's first row has a row of zeros above it; decoding starts from the same. */
  lemma {:induction false} FileRoundTrip(kinds: seq<nat>, rows: seq<seq<byte>>, stride: nat, bpp: nat)
    requires |kinds| == |rows| && bpp > 0
    requires forall i :: 0 <= i < |rows| ==> kinds[i] < 256 && |rows[i]| == stride
    ensures var zeros: seq<byte> := seq(stride, i => 0);
            && |FilterImage(kinds, rows, zeros, bpp)| == (stride + 1) * |rows|
            && UnfilterSpec(FilterImage(kinds, rows, zeros, bpp), |rows|, NoRow(stride), bpp) ==
               if stride > 0 && HasUnknown(kinds) then BadFilter else Image(PlainImage(kinds, rows))
  {
    hide FilterImage, UnfilterSpec, HasUnknown, NoRow, PlainImage;
    var zeros: seq<byte> := seq(stride, i => 0);
    assert zeros == NoRow(stride);
    ImageRoundTrip(kinds, rows, zeros, bpp);
  }

  // ---------------------------------------------------------------------------
  // The loop
  // ---------------------------------------------------------------------------

  /** One more row in front of what the rest of the image becomes. */
  function Prepend(done: seq<byte>, rest: Result): Result {
    match rest
    case BadFilter => BadFilter
    case Image(raw) => Image(done + raw)
  }

  /** One step of `UnfilterSpec` on the rest of the image. */
  lemma {:induction false} SpecStep(done: seq<byte>, raw: seq<byte>, height: nat, prev: seq<byte>, bpp: nat)
    requires height > 0 && |raw| == (|prev| + 1) * height && bpp > 0
    ensures |raw| >= |prev| + 1
    ensures |raw[|prev| + 1..]| == (|prev| + 1) * (height - 1)
    ensures var stride := |prev|;
            var row := Reconstruct(raw[0], raw[1..stride + 1], prev, bpp, stride);
            Prepend(done, UnfilterSpec(raw, height, prev, bpp)) ==
            if raw[0] > 4 && stride > 0 then BadFilter
            else Prepend(done + [raw[0]] + row, UnfilterSpec(raw[stride + 1..], height - 1, row, bpp))
  {
    hide Reconstruct;
    var stride := |prev|;
    RowSize(stride, height);
    var row := Reconstruct(raw[0], raw[1..stride + 1], prev, bpp, stride);
    match UnfilterSpec(raw[stride + 1..], height - 1, row, bpp)
    case BadFilter =>
    case Image(rest) => assert done + ([raw[0]] + row + rest) == done + [raw[0]] + row + rest;
  }

  /** The rows before `at` are done, `left` are left; `target` is what the image becomes. */
  ghost predicate RowsDone(now: seq<byte>, s0: seq<byte>, done: seq<byte>, prev: seq<byte>, left: nat, bpp: nat,
      target: Result) {
    && |done| <= |s0| && bpp > 0 && |s0[|done|..]| == (|prev| + 1) * left && now == done + s0[|done|..]
    && target == Prepend(done, UnfilterSpec(s0[|done|..], left, prev, bpp))
  }

  lemma {:induction false} NextRow(now: seq<byte>, s0: seq<byte>, done: seq<byte>, prev: seq<byte>, left: nat,
      bpp: nat, target: Result)
    requires RowsDone(now, s0, done, prev, left, bpp, target) && left > 0
    ensures var at, stride := |done|, |prev|;
            && at + 1 + stride <= |now|
            && var row := Reconstruct(now[at], now[at + 1..at + 1 + stride], prev, bpp, stride);
               && (now[at] > 4 && stride > 0 ==> target == BadFilter)
               && (now[at] <= 4 || stride == 0 ==>
                     && RowsDone(WithRow(now, at, row), s0, done + [now[at]] + row, row, left - 1, bpp, target)
                     && WithRow(now, at, row)[at + 1..at + 1 + stride] == row)
  {
    hide UnfilterSpec, Reconstruct, WithRow;
    var at, stride, rest := |done|, |prev|, s0[|done|..];
    SpecStep(done, rest, left, prev, bpp);
    assert now[at] == rest[0] && now[at + 1..at + 1 + stride] == rest[1..stride + 1];
    var row := Reconstruct(rest[0], rest[1..stride + 1], prev, bpp, stride);
    Advance(done, s0, at, row);
    assert rest[stride + 1..] == s0[at + 1 + stride..];
    RowIn(now, at, row);
  }

  lemma {:induction false} RowIn(s: seq<byte>, at: nat, r: seq<byte>)
    requires at + 1 + |r| <= |s|
    ensures WithRow(s, at, r)[at + 1..at + 1 + |r|] == r
  {}

  lemma {:induction false} LastRow(now: seq<byte>, s0: seq<byte>, done: seq<byte>, prev: seq<byte>, bpp: nat,
      target: Result)
    requires RowsDone(now, s0, done, prev, 0, bpp, target)
    ensures target == Image(now)
  {
    UnfilterNothing(s0[|done|..], 0, prev, bpp);
    assert s0[|done|..] == [];
    assert done + [] == done == now;
  }

  lemma {:induction false} FirstRow(raw: seq<byte>, height: nat, prev: seq<byte>, bpp: nat)
    requires |raw| == (|prev| + 1) * height && bpp > 0
    ensures RowsDone(raw, raw, [], prev, height, bpp, UnfilterSpec(raw, height, prev, bpp))
  {
    hide UnfilterSpec;
    UnfilterNothing(raw, height, prev, bpp);
  }

  /** Undoes the filters of `height` rows of `stride` bytes in place. */
  method UnfilterRows(raw: array<byte>, height: nat, stride: nat, bpp: nat) returns (ok: bool)
    requires raw.Length == (stride + 1) * height && bpp > 0
    modifies raw
    ensures match UnfilterSpec(old(raw[..]), height, NoRow(stride), bpp)
            case BadFilter => !ok
            case Image(plain) => ok && raw[..] == plain
  {
    hide UnfilterSpec, Reconstruct, WithRow, NoRow, RowsDone;
    var at := 0;  // where row y starts
    ghost var s0, done, prev := raw[..], [], NoRow(stride);
    ghost var target := UnfilterSpec(s0, height, prev, bpp);
    FirstRow(s0, height, prev, bpp);
    for y := 0 to height
      invariant |done| == at <= raw.Length && |prev| == stride
      invariant if y > 0 then at > stride && prev == raw[at - stride..at] else prev == NoRow(stride)
      invariant RowsDone(raw[..], s0, done, prev, height - y, bpp, target)
    {
      NextRow(raw[..], s0, done, prev, height - y, bpp, target);
      ghost var row := Reconstruct(raw[at], raw[at + 1..at + 1 + stride], prev, bpp, stride);
      ghost var kind := raw[at];
      ok := UnfilterRow(raw, at, stride, y > 0, bpp, prev);
      if !ok {
        return;
      }
      done, prev := done + [kind] + row, row;
      at := at + 1 + stride;
    }
    LastRow(raw[..], s0, done, prev, bpp, target);
    return true;
  }

  /** There is no row above the first one; its neighbours count as zero. */
  function NoRow(stride: nat): (r: seq<byte>)
    ensures |r| == stride && forall i :: 0 <= i < stride ==> r[i] == 0
  {
    seq(stride, _ => 0)
  }

  lemma {:induction false} UnfilterNothing(raw: seq<byte>, height: nat, prev: seq<byte>, bpp: nat)
    requires |raw| == (|prev| + 1) * height && bpp > 0
    ensures raw[0..] == raw && Prepend([], UnfilterSpec(raw, height, prev, bpp)) == UnfilterSpec(raw, height, prev, bpp)
    ensures height == 0 ==> UnfilterSpec(raw, height, prev, bpp) == Image([])
  {
    match UnfilterSpec(raw, height, prev, bpp)
    case BadFilter =>
    case Image(r) => assert [] + r == r;
  }

  /** A finished row joins the rows already done. */
  lemma {:induction false} Advance(done: seq<byte>, s0: seq<byte>, at: nat, row: seq<byte>)
    requires |done| == at && at + 1 + |row| <= |s0|
    ensures WithRow(done + s0[at..], at, row) == (done + [s0[at]] + row) + s0[at + 1 + |row|..]
    ensures (done + [s0[at]] + row)[at + 1..] == row
  {}

  lemma {:induction false} ReconstructNone(kind: nat, filtered: seq<byte>, prev: seq<byte>, bpp: nat)
    requires |filtered| == |prev| && bpp > 0
    ensures Reconstruct(kind, filtered, prev, bpp, 0) == []
  {}

  lemma {:induction false} ReconstructStep(kind: nat, filtered: seq<byte>, prev: seq<byte>, bpp: nat, x: nat)
    requires x < |filtered| == |prev| && bpp > 0
    ensures var r := Reconstruct(kind, filtered, prev, bpp, x);
            Reconstruct(kind, filtered, prev, bpp, x + 1) ==
            r + [((filtered[x] as int) + Predict(kind, Left(r, x, bpp), prev[x], Left(prev, x, bpp))) % 256]
  {}

  /** The inner loop: the row that starts at `at`; the row above it, if any, ends just before. */
  method UnfilterRow(raw: array<byte>, at: nat, stride: nat, above: bool, bpp: nat, ghost prev: seq<byte>)
    returns (ok: bool)
    requires at + 1 + stride <= raw.Length && bpp > 0 && |prev| == stride
    requires if above then at > stride && prev == raw[at - stride..at] else prev == NoRow(stride)
    modifies raw
    ensures ok == (old(raw[at]) <= 4 || stride == 0)
    ensures ok ==> raw[..] == WithRow(old(raw[..]), at,
                       Reconstruct(old(raw[at]), old(raw[at + 1..at + 1 + stride]), prev, bpp, stride))
  {
    hide Predict, Reconstruct, Left, WithRow, NoRow;
    ghost var s0, filtered := raw[..], raw[at + 1..at + 1 + stride];
    WithRowStart(s0, at);
    ReconstructNone(s0[at], filtered, prev, bpp);
    for x := 0 to stride
      invariant raw[..] == WithRow(s0, at, Reconstruct(s0[at], filtered, prev, bpp, x))
      invariant x > 0 ==> s0[at] <= 4
    {
      ghost var r := Reconstruct(s0[at], filtered, prev, bpp, x);
      var cur := at + 1 + x;
      Neighbours(s0, at, r, stride, above, prev, bpp);
      var a: byte := if x >= bpp then raw[cur - bpp] else 0;
      var b: byte := if above then raw[at - stride + x] else 0;
      var c: byte := if above && x >= bpp then raw[at - stride + x - bpp] else 0;
      if raw[at] > 4 {
        return false;
      }
      var v: byte := ((raw[cur] as int) + Predict(raw[at], a, b, c)) % 256;
      WithRowNext(s0, at, r, v);
      ReconstructStep(s0[at], filtered, prev, bpp, x);
      raw[cur] := v;
    }
    return true;
  }

  /** `s` with the row that starts at `at` begun: its first bytes are `r`. */
  function WithRow(s: seq<byte>, at: nat, r: seq<byte>): (t: seq<byte>)
    requires at + 1 + |r| <= |s|
    ensures |t| == |s|
  {
    s[..at + 1] + r + s[at + 1 + |r|..]
  }

  lemma {:induction false} WithRowStart(s: seq<byte>, at: nat)
    requires at < |s|
    ensures WithRow(s, at, []) == s
  {}

  lemma {:induction false} WithRowAt(s: seq<byte>, at: nat, r: seq<byte>)
    requires at + 1 + |r| <= |s|
    ensures forall i :: 0 <= i <= at ==> WithRow(s, at, r)[i] == s[i]
    ensures forall i :: 0 <= i < |r| ==> WithRow(s, at, r)[at + 1 + i] == r[i]
    ensures forall i :: at + 1 + |r| <= i < |s| ==> WithRow(s, at, r)[i] == s[i]
  {}

  /** Where the loop finds the byte itself and its three neighbours. */
  lemma {:induction false} Neighbours(s: seq<byte>, at: nat, r: seq<byte>, stride: nat, above: bool, prev: seq<byte>,
      bpp: nat)
    requires at + 1 + stride <= |s| && |r| < stride == |prev| && bpp > 0
    requires if above then at > stride && prev == s[at - stride..at] else prev == NoRow(stride)
    ensures var x, w := |r|, WithRow(s, at, r);
            && w[at] == s[at] && w[at + 1 + x] == s[at + 1..at + 1 + stride][x]
            && (if x >= bpp then w[at + 1 + x - bpp] else 0) == Left(r, x, bpp)
            && (if above then w[at - stride + x] else 0) == prev[x]
            && (if above && x >= bpp then w[at - stride + x - bpp] else 0) == Left(prev, x, bpp)
  {
    WithRowAt(s, at, r);
  }

  lemma {:induction false} WithRowNext(s: seq<byte>, at: nat, r: seq<byte>, v: byte)
    requires at + 1 + |r| < |s|
    ensures WithRow(s, at, r)[at + 1 + |r| := v] == WithRow(s, at, r + [v])
  {}
}
