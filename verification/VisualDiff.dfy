/** Screenshot comparison of framework/analysis/visual_analyzer.py, in exact arithmetic. */
module VisualDiff {
  import opened Wrappers

  type Level = n: int | 0 <= n < 256

  datatype Pixel = Pixel(r: Level, g: Level, b: Level)

  predicate Black(p: Pixel) {
    p.r == 0 && p.g == 0 && p.b == 0
  }

  /** Rows of pixels, top to bottom; `width` is kept for images without rows. */
  datatype Image = Image(width: nat, rows: seq<seq<Pixel>>) {
    ghost predicate Valid() {
      forall y :: 0 <= y < |rows| ==> |rows[y]| == width
    }

    function Height(): nat {
      |rows|
    }
  }

  // ---------------------------------------------------------------- the difference image

  function LevelDiff(a: Level, b: Level): Level {
    if a >= b then a - b else b - a
  }

  function PixelDiff(a: Pixel, b: Pixel): Pixel {
    Pixel(LevelDiff(a.r, b.r), LevelDiff(a.g, b.g), LevelDiff(a.b, b.b))
  }

  function RowDiff(a: seq<Pixel>, b: seq<Pixel>): (r: seq<Pixel>)
    requires |a| == |b|
    ensures |r| == |a| && forall x :: 0 <= x < |a| ==> r[x] == PixelDiff(a[x], b[x])
  {
    seq(|a|, x requires 0 <= x < |a| => PixelDiff(a[x], b[x]))
  }

  ghost predicate SameSize(a: Image, b: Image) {
    a.Valid() && b.Valid() && a.width == b.width && a.Height() == b.Height()
  }

  /** `ImageChops.difference`. */
  function Difference(a: Image, b: Image): (d: Image)
    requires SameSize(a, b)
    ensures SameSize(d, a)
  {
    Image(a.width, seq(|a.rows|, y requires 0 <= y < |a.rows| => RowDiff(a.rows[y], b.rows[y])))
  }

  function Pixels(rows: seq<seq<Pixel>>): seq<Pixel> {
    if rows == [] then [] else rows[0] + Pixels(rows[1..])
  }

  function Channel(ps: seq<Pixel>, c: nat): (r: seq<Level>)
    ensures |r| == |ps|
  {
    if ps == [] then []
    else [if c == 0 then ps[0].r else if c == 1 then ps[0].g else ps[0].b] + Channel(ps[1..], c)
  }

  function Occurrences(levels: seq<Level>, v: int): nat {
    if levels == [] then 0 else (if levels[0] == v then 1 else 0) + Occurrences(levels[1..], v)
  }

  /** Pillow's `histogram`: 256 bins for each of the three channels, one after the other. */
  function Histogram(d: Image): (h: seq<nat>)
    ensures |h| == 768
    ensures forall c, v :: 0 <= c < 3 && 0 <= v < 256 ==>
              h[Bin(c, v)] == Occurrences(Channel(Pixels(d.rows), c), v)
  {
    seq(768, i requires 0 <= i < 768 => Occurrences(Channel(Pixels(d.rows), i / 256), i % 256))
  }

  function Bin(c: nat, v: nat): (i: nat)
    requires c < 3 && v < 256
    ensures i < 768 && i / 256 == c && i % 256 == v
  {
    c * 256 + v
  }

  /** The generator sum over one channel's bins, up to but not including `v`. */
  function WeightedBins(h: seq<nat>, c: nat, v: nat): int
    requires |h| == 768 && c < 3 && v <= 256
  {
    if v == 0 then 0 else WeightedBins(h, c, v - 1) + (v - 1) * h[Bin(c, v - 1)]
  }

  function HistogramTotal(h: seq<nat>): int
    requires |h| == 768
  {
    WeightedBins(h, 0, 256) + WeightedBins(h, 1, 256) + WeightedBins(h, 2, 256)
  }

  function PixelSum(p: Pixel): nat {
    p.r + p.g + p.b
  }

  function TotalOf(ps: seq<Pixel>): nat {
    if ps == [] then 0 else PixelSum(ps[0]) + TotalOf(ps[1..])
  }

  function LevelTotal(levels: seq<Level>): nat {
    if levels == [] then 0 else levels[0] + LevelTotal(levels[1..])
  }

  // ---------------------------------------------------------------- the metric

  function MaxTotal(d: Image): nat {
    d.width * d.Height() * 3 * 255
  }

  /** `_calculate_diff` on readable images of one size. */
  function DiffPercentage(base: Image, cur: Image): real
    requires SameSize(base, cur)
  {
    var d := Difference(base, cur);
    var total, max := HistogramTotal(Histogram(d)), MaxTotal(base);
    if max == 0 then 0.0
    else
      var p := total as real / max as real * 100.0;
      if p < 100.0 then p else 100.0
  }

  /** One channel: adding up value times count is adding up the values. */
  lemma {:induction false} BinsAreLevels(h: seq<nat>, c: nat, levels: seq<Level>, v: nat)
    requires |h| == 768 && c < 3 && v <= 256
    requires forall k: nat :: k < 256 ==> h[Bin(c, k)] == Occurrences(levels, k)
    ensures WeightedBins(h, c, v) == WeightedOccurrences(levels, v)
    decreases v
  {
    if v > 0 {
      BinsAreLevels(h, c, levels, v - 1);
    }
  }

  function WeightedOccurrences(levels: seq<Level>, v: nat): int {
    if v == 0 then 0 else WeightedOccurrences(levels, v - 1) + (v - 1) * Occurrences(levels, v - 1)
  }

  lemma {:induction false} WeightedCons(levels: seq<Level>, v: nat)
    requires levels != []
    ensures WeightedOccurrences(levels, v)
         == WeightedOccurrences(levels[1..], v) + if (levels[0]) < v then levels[0] else 0
    decreases v
  {
    if v > 0 {
      WeightedCons(levels, v - 1);
      var n := Occurrences(levels[1..], v - 1);
      assert (v - 1) * (n + 1) == (v - 1) * n + (v - 1);
    }
  }

  lemma {:induction false} WeightedIsTotal(levels: seq<Level>)
    ensures WeightedOccurrences(levels, 256) == LevelTotal(levels)
  {
    if levels == [] {
      WeightedNothing(256);
    } else {
      WeightedCons(levels, 256);
      WeightedIsTotal(levels[1..]);
    }
  }

  lemma {:induction false} WeightedNothing(v: nat)
    ensures WeightedOccurrences([], v) == 0
  {
    if v > 0 {
      WeightedNothing(v - 1);
    }
  }

  lemma {:induction false} ChannelsAddUp(ps: seq<Pixel>)
    ensures LevelTotal(Channel(ps, 0)) + LevelTotal(Channel(ps, 1)) + LevelTotal(Channel(ps, 2)) == TotalOf(ps)
  {
    if ps != [] {
      ChannelsAddUp(ps[1..]);
    }
  }

  /** The histogram form equals the per-pixel sum of absolute channel differences. */
  lemma HistogramIsPixelSum(d: Image)
    ensures HistogramTotal(Histogram(d)) == TotalOf(Pixels(d.rows))
  {
    var h, ps := Histogram(d), Pixels(d.rows);
    BinsAreLevels(h, 0, Channel(ps, 0), 256);
    BinsAreLevels(h, 1, Channel(ps, 1), 256);
    BinsAreLevels(h, 2, Channel(ps, 2), 256);
    WeightedIsTotal(Channel(ps, 0));
    WeightedIsTotal(Channel(ps, 1));
    WeightedIsTotal(Channel(ps, 2));
    ChannelsAddUp(ps);
  }

  lemma {:induction false} PixelCount(rows: seq<seq<Pixel>>, width: nat)
    requires forall y :: 0 <= y < |rows| ==> |rows[y]| == width
    ensures |Pixels(rows)| == width * |rows|
  {
    if rows != [] {
      PixelCount(rows[1..], width);
      assert width * |rows| == width + width * (|rows| - 1);
    }
  }

  lemma {:induction false} TotalAtMost(ps: seq<Pixel>)
    ensures TotalOf(ps) <= 765 * |ps|
  {
    if ps != [] {
      TotalAtMost(ps[1..]);
    }
  }

  lemma {:induction false} ZeroMeansBlack(ps: seq<Pixel>, i: nat)
    requires TotalOf(ps) == 0 && i < |ps|
    ensures Black(ps[i])
  {
    if i > 0 {
      ZeroMeansBlack(ps[1..], i - 1);
    }
  }

  lemma {:induction false} BlackMeansZero(ps: seq<Pixel>)
    requires forall i :: 0 <= i < |ps| ==> Black(ps[i])
    ensures TotalOf(ps) == 0
  {
    if ps != [] {
      BlackMeansZero(ps[1..]);
    }
  }

  // ---------------------------------------------------------------- the changed region

  /** `(left, upper, right, lower)`, the last two exclusive. */
  datatype Box = Box(left: nat, upper: nat, right: nat, lower: nat)

  datatype Region = Region(x: nat, y: nat, width: nat, height: nat)

  predicate Changed(rows: seq<seq<Pixel>>, x: nat, y: nat) {
    y < |rows| && x < |rows[y]| && !Black(rows[y][x])
  }

  predicate Inside(b: Box, x: nat, y: nat) {
    b.left <= x < b.right && b.upper <= y < b.lower
  }

  ghost predicate CoversAll(b: Box, rows: seq<seq<Pixel>>) {
    forall x: nat, y: nat :: Changed(rows, x, y) ==> Inside(b, x, y)
  }

  /** First and one-past-last changed position of a row. */
  function RowSpan(row: seq<Pixel>): Option<(nat, nat)> {
    if row == [] then None
    else
      var n := |row| - 1;
      var before := RowSpan(row[..n]);
      if Black(row[n]) then before
      else Some((if before.Some? then before.value.0 else n, n + 1))
  }

  /** Pillow's `getbbox`: the box of the non-black pixels, row by row. */
  function BoundingBox(rows: seq<seq<Pixel>>): Option<Box> {
    if rows == [] then None
    else
      var y := |rows| - 1;
      var above, span := BoundingBox(rows[..y]), RowSpan(rows[y]);
      if span.None? then above
      else
        var (first, end) := span.value;
        if above.None? then Some(Box(first, y, end, y + 1))
        else
          var b := above.value;
          Some(Box(if first < b.left then first else b.left, b.upper, if end > b.right then end else b.right, y + 1))
  }

  function DiffRegions(base: Image, cur: Image): seq<Region>
    requires SameSize(base, cur)
  {
    var box := BoundingBox(Difference(base, cur).rows);
    if box.None? then []
    else
      BoxOrdered(Difference(base, cur).rows);
      var b := box.value;
      [Region(b.left, b.upper, b.right - b.left, b.lower - b.upper)]
  }

  lemma {:induction false} SpanIsTight(row: seq<Pixel>)
    ensures RowSpan(row).None? ==> forall x :: 0 <= x < |row| ==> Black(row[x])
    ensures RowSpan(row).Some? ==>
              var (first, end) := RowSpan(row).value;
              && first < end <= |row| && !Black(row[first]) && !Black(row[end - 1])
              && forall x :: 0 <= x < |row| && !Black(row[x]) ==> first <= x < end
  {
    if row != [] {
      var before := row[..|row| - 1];
      SpanIsTight(before);
      assert forall x :: 0 <= x < |before| ==> before[x] == row[x];
      if RowSpan(before).Some? {
        var (f, e) := RowSpan(before).value;
        assert before[f] == row[f] && before[e - 1] == row[e - 1];
      }
    }
  }

  ghost predicate ColumnChanged(rows: seq<seq<Pixel>>, x: nat) {
    exists y: nat :: Changed(rows, x, y)
  }

  ghost predicate RowChanged(rows: seq<seq<Pixel>>, y: nat) {
    exists x: nat :: Changed(rows, x, y)
  }

  /** A box whose four sides each touch a changed pixel. */
  ghost predicate Touches(b: Box, rows: seq<seq<Pixel>>) {
    && b.right > 0 && b.lower > 0
    && ColumnChanged(rows, b.left) && ColumnChanged(rows, b.right - 1)
    && RowChanged(rows, b.upper) && RowChanged(rows, b.lower - 1)
  }

  lemma ChangedBelow(rows: seq<seq<Pixel>>)
    requires rows != []
    ensures forall x: nat, y: nat :: Changed(rows, x, y) <==>
              Changed(rows[..|rows| - 1], x, y) || (y == |rows| - 1 && x < |rows[y]| && !Black(rows[y][x]))
  {
  }

  lemma TouchesBelow(b: Box, rows: seq<seq<Pixel>>)
    requires rows != [] && Touches(b, rows[..|rows| - 1])
    ensures Touches(b, rows)
  {
    var above := rows[..|rows| - 1];
    assert forall x: nat, y: nat :: Changed(above, x, y) ==> Changed(rows, x, y);
    var yl: nat :| Changed(above, b.left, yl);
    var yr: nat :| Changed(above, b.right - 1, yr);
    var xu: nat :| Changed(above, xu, b.upper);
    var xl: nat :| Changed(above, xl, b.lower - 1);
    assert Changed(rows, b.left, yl) && Changed(rows, b.right - 1, yr);
    assert Changed(rows, xu, b.upper) && Changed(rows, xl, b.lower - 1);
  }

  lemma {:induction false} BoxIsTight(rows: seq<seq<Pixel>>)
    ensures BoundingBox(rows).None? <==> forall x: nat, y: nat :: !Changed(rows, x, y)
    ensures BoundingBox(rows).Some? ==>
              CoversAll(BoundingBox(rows).value, rows) && Touches(BoundingBox(rows).value, rows)
  {
    if rows != [] {
      var y := |rows| - 1;
      var above := rows[..y];
      BoxIsTight(above);
      SpanIsTight(rows[y]);
      ChangedBelow(rows);
      var span := RowSpan(rows[y]);
      if span.Some? {
        assert Changed(rows, span.value.0, y) && Changed(rows, span.value.1 - 1, y);
        if BoundingBox(above).Some? {
          var b := BoundingBox(above).value;
          TouchesBelow(b, rows);
        }
      } else if BoundingBox(above).Some? {
        TouchesBelow(BoundingBox(above).value, rows);
      }
    }
  }

  lemma BoxOrdered(rows: seq<seq<Pixel>>)
    ensures BoundingBox(rows).Some? ==>
              BoundingBox(rows).value.left < BoundingBox(rows).value.right
              && BoundingBox(rows).value.upper < BoundingBox(rows).value.lower
  {
    BoxIsTight(rows);
    if BoundingBox(rows).Some? {
      var b := BoundingBox(rows).value;
      var y: nat :| Changed(rows, b.left, y);
      assert Inside(b, b.left, y);
    }
  }

  /** Any box that covers every changed pixel contains the bounding box. */
  lemma BoxIsSmallest(rows: seq<seq<Pixel>>, other: Box)
    requires BoundingBox(rows).Some? && CoversAll(other, rows)
    ensures var b := BoundingBox(rows).value;
            other.left <= b.left && b.right <= other.right && other.upper <= b.upper && b.lower <= other.lower
  {
    BoxIsTight(rows);
    var b := BoundingBox(rows).value;
    assert ColumnChanged(rows, b.left) && RowChanged(rows, b.upper);
    assert ColumnChanged(rows, b.right - 1) && RowChanged(rows, b.lower - 1);
    var yl: nat :| Changed(rows, b.left, yl);
    var xu: nat :| Changed(rows, xu, b.upper);
    var yr: nat :| Changed(rows, b.right - 1, yr);
    var xl: nat :| Changed(rows, xl, b.lower - 1);
    assert Inside(other, b.left, yl) && Inside(other, xu, b.upper);
    assert Inside(other, b.right - 1, yr) && Inside(other, xl, b.lower - 1);
  }

  // ---------------------------------------------------------------- metric and region agree

  /** Every pixel of a row is in the flat list, and every pixel of the list is in a row. */
  lemma {:induction false} PixelInRows(rows: seq<seq<Pixel>>, i: nat)
    requires i < |Pixels(rows)|
    ensures exists x: nat, y: nat :: y < |rows| && x < |rows[y]| && rows[y][x] == Pixels(rows)[i]
  {
    if i < |rows[0]| {
      assert rows[0][i] == Pixels(rows)[i];
    } else {
      var j := i - |rows[0]|;
      PixelInRows(rows[1..], j);
      var x: nat, y: nat :| y < |rows[1..]| && x < |rows[1..][y]| && rows[1..][y][x] == Pixels(rows[1..])[j];
      assert rows[y + 1][x] == Pixels(rows)[i];
    }
  }

  lemma {:induction false} RowInPixels(rows: seq<seq<Pixel>>, x: nat, y: nat)
    requires y < |rows| && x < |rows[y]|
    ensures exists i: nat :: i < |Pixels(rows)| && Pixels(rows)[i] == rows[y][x]
    decreases y
  {
    if y == 0 {
      assert Pixels(rows)[x] == rows[0][x];
    } else {
      RowInPixels(rows[1..], x, y - 1);
      var i: nat :| i < |Pixels(rows[1..])| && Pixels(rows[1..])[i] == rows[1..][y - 1][x];
      assert Pixels(rows)[|rows[0]| + i] == rows[y][x];
    }
  }

  /** The total is zero exactly when nothing has changed. */
  lemma TotalZeroIffUnchanged(rows: seq<seq<Pixel>>)
    ensures TotalOf(Pixels(rows)) == 0 <==> forall x: nat, y: nat :: !Changed(rows, x, y)
  {
    var ps := Pixels(rows);
    if TotalOf(ps) == 0 {
      forall x: nat, y: nat
        ensures !Changed(rows, x, y)
      {
        if y < |rows| && x < |rows[y]| {
          RowInPixels(rows, x, y);
          var i: nat :| i < |ps| && ps[i] == rows[y][x];
          ZeroMeansBlack(ps, i);
        }
      }
    }
    if forall x: nat, y: nat :: !Changed(rows, x, y) {
      forall i | 0 <= i < |ps|
        ensures Black(ps[i])
      {
        PixelInRows(rows, i);
        var x: nat, y: nat :| y < |rows| && x < |rows[y]| && rows[y][x] == ps[i];
        assert !Changed(rows, x, y);
      }
      BlackMeansZero(ps);
    }
  }

  /** The percentage is the mean absolute channel difference, lies in [0, 100] without the clamp, and is
      zero exactly when no region is reported. */
  lemma {:induction false} PercentageAndRegions(base: Image, cur: Image)
    requires SameSize(base, cur)
    ensures var p, max := DiffPercentage(base, cur), MaxTotal(base);
            var total := TotalOf(Pixels(Difference(base, cur).rows));
            && 0.0 <= p <= 100.0
            && total <= max
            && (max > 0 ==> p == total as real / max as real * 100.0)
            && (p == 0.0 <==> DiffRegions(base, cur) == [])
  {
    var d := Difference(base, cur);
    var total, max := TotalOf(Pixels(d.rows)), MaxTotal(base);
    HistogramIsPixelSum(d);
    PixelCount(d.rows, d.width);
    TotalAtMost(Pixels(d.rows));
    assert max == 765 * |Pixels(d.rows)|;
    TotalZeroIffUnchanged(d.rows);
    BoxIsTight(d.rows);
    if max > 0 {
      Percentage(total, max);
    }
  }

  lemma Percentage(total: nat, max: nat)
    requires total <= max && max > 0
    ensures var p := total as real / max as real * 100.0; 0.0 <= p <= 100.0 && (p == 0.0 <==> total == 0)
  {
    var q := total as real / max as real;
    assert q * max as real == total as real;
    assert 0.0 <= q <= 1.0;
  }

  /** A pixel is changed exactly where the two images differ, so identical images score zero and report
      nothing, and different ones do not. */
  lemma ZeroIffIdentical(base: Image, cur: Image)
    requires SameSize(base, cur)
    ensures DiffPercentage(base, cur) == 0.0 <==> base.rows == cur.rows
  {
    PercentageAndRegions(base, cur);
    BoxIsTight(Difference(base, cur).rows);
    UnchangedIffSame(base, cur);
  }

  lemma UnchangedIffSame(base: Image, cur: Image)
    requires SameSize(base, cur)
    ensures (forall x: nat, y: nat :: !Changed(Difference(base, cur).rows, x, y)) <==> base.rows == cur.rows
  {
    var d := Difference(base, cur);
    forall x: nat, y: nat | y < |base.rows| && x < base.width
      ensures Changed(d.rows, x, y) <==> base.rows[y][x] != cur.rows[y][x]
    {
      assert d.rows[y][x] == PixelDiff(base.rows[y][x], cur.rows[y][x]);
    }
    if forall x: nat, y: nat :: !Changed(d.rows, x, y) {
      forall y: nat | y < |base.rows|
        ensures base.rows[y] == cur.rows[y]
      {
        forall x: nat | x < base.width
          ensures base.rows[y][x] == cur.rows[y][x]
        {
          assert !Changed(d.rows, x, y);
        }
      }
    }
  }

  /** The one reported region, read as position and size, covers every pixel in which the images differ
      and lies inside every box that does. */
  lemma RegionIsTightest(base: Image, cur: Image, other: Box)
    requires SameSize(base, cur) && DiffRegions(base, cur) != []
    ensures var r, rows := DiffRegions(base, cur)[0], Difference(base, cur).rows;
            && |DiffRegions(base, cur)| == 1 && r.width > 0 && r.height > 0
            && (forall x: nat, y: nat :: Changed(rows, x, y) ==> r.x <= x < r.x + r.width && r.y <= y < r.y + r.height)
            && (CoversAll(other, rows) ==>
                  other.left <= r.x && r.x + r.width <= other.right && other.upper <= r.y && r.y + r.height <= other.lower)
  {
    var rows := Difference(base, cur).rows;
    BoxIsTight(rows);
    BoxOrdered(rows);
    if CoversAll(other, rows) {
      BoxIsSmallest(rows, other);
    }
    var b := BoundingBox(rows).value;
    assert forall x: nat, y: nat :: Changed(rows, x, y) ==> Inside(b, x, y);
  }

  // ---------------------------------------------------------------- the metric, said of the two images

  function Abs(x: int): nat {
    if x < 0 then -x else x
  }

  /** Sum of the absolute differences of the red, green and blue levels of two lists of pixels. */
  function AbsTotal(a: seq<Pixel>, b: seq<Pixel>): nat
    requires |a| == |b|
  {
    if a == [] then 0
    else Abs(a[0].r - b[0].r) + Abs(a[0].g - b[0].g) + Abs(a[0].b - b[0].b) + AbsTotal(a[1..], b[1..])
  }

  lemma {:induction false} TotalOfAppend(a: seq<Pixel>, b: seq<Pixel>)
    ensures TotalOf(a + b) == TotalOf(a) + TotalOf(b)
  {
    if a == [] {
      assert a + b == b;
    } else {
      assert (a + b)[1..] == a[1..] + b;
      TotalOfAppend(a[1..], b);
    }
  }

  lemma {:induction false} AbsTotalAppend(a: seq<Pixel>, b: seq<Pixel>, c: seq<Pixel>, d: seq<Pixel>)
    requires |a| == |b| && |c| == |d|
    ensures AbsTotal(a + c, b + d) == AbsTotal(a, b) + AbsTotal(c, d)
  {
    if a == [] {
      assert a + c == c && b + d == d;
    } else {
      assert (a + c)[1..] == a[1..] + c && (b + d)[1..] == b[1..] + d;
      AbsTotalAppend(a[1..], b[1..], c, d);
    }
  }

  lemma {:induction false} RowTotal(a: seq<Pixel>, b: seq<Pixel>)
    requires |a| == |b|
    ensures TotalOf(RowDiff(a, b)) == AbsTotal(a, b)
  {
    if a != [] {
      RowTotal(a[1..], b[1..]);
      assert RowDiff(a, b)[1..] == RowDiff(a[1..], b[1..]);
    }
  }

  lemma {:induction false} RowsTotal(d: seq<seq<Pixel>>, a: seq<seq<Pixel>>, b: seq<seq<Pixel>>)
    requires |d| == |a| == |b| && forall y :: 0 <= y < |a| ==> |a[y]| == |b[y]| && d[y] == RowDiff(a[y], b[y])
    ensures |Pixels(a)| == |Pixels(b)| && TotalOf(Pixels(d)) == AbsTotal(Pixels(a), Pixels(b))
  {
    if d != [] {
      RowsTotal(d[1..], a[1..], b[1..]);
      RowTotal(a[0], b[0]);
      TotalOfAppend(d[0], Pixels(d[1..]));
      AbsTotalAppend(a[0], b[0], Pixels(a[1..]), Pixels(b[1..]));
    }
  }

  /** The percentage is the mean absolute channel difference of the two images: over all their pixels, out of
      255 for each of three channels.  An image without pixels scores zero. */
  lemma {:induction false} PercentageIsMeanDifference(base: Image, cur: Image)
    requires SameSize(base, cur)
    ensures |Pixels(base.rows)| == |Pixels(cur.rows)| == base.width * |base.rows|
    ensures var p, n := DiffPercentage(base, cur), base.width * |base.rows|;
            if n == 0 then p == 0.0
            else p == AbsTotal(Pixels(base.rows), Pixels(cur.rows)) as real / (n * 3 * 255) as real * 100.0
  {
    var d := Difference(base, cur);
    PixelCount(base.rows, base.width);
    RowsTotal(d.rows, base.rows, cur.rows);
    PercentageAndRegions(base, cur);
    assert MaxTotal(base) == base.width * |base.rows| * 3 * 255;
  }

  lemma {:induction false} FullTotal(ps: seq<Pixel>)
    ensures TotalOf(ps) == 765 * |ps| <==> forall i :: 0 <= i < |ps| ==> ps[i] == Pixel(255, 255, 255)
  {
    if ps != [] {
      TotalAtMost(ps[1..]);
      FullTotal(ps[1..]);
      assert forall i :: 1 <= i < |ps| ==> ps[i] == ps[1..][i - 1];
    }
  }

  /** It is a hundred exactly when there is a pixel and every pixel differs as far as it can in every
      channel. */
  lemma HundredIffOpposite(base: Image, cur: Image)
    requires SameSize(base, cur)
    ensures DiffPercentage(base, cur) == 100.0 <==>
            && base.width * |base.rows| > 0
            && forall x: nat, y: nat :: y < |base.rows| && x < base.width ==> Opposite(base.rows[y][x], cur.rows[y][x])
  {
    var d := Difference(base, cur);
    var ps := Pixels(d.rows);
    PixelCount(d.rows, d.width);
    PercentageAndRegions(base, cur);
    WhiteIffOpposite(base, cur);
    assert MaxTotal(base) == 765 * |ps|;
    if |ps| > 0 {
      HundredPercent(TotalOf(ps), 765 * |ps|);
    }
  }

  lemma WhiteIffOpposite(base: Image, cur: Image)
    requires SameSize(base, cur)
    ensures var ps := Pixels(Difference(base, cur).rows);
            TotalOf(ps) == 765 * |ps| <==>
            forall x: nat, y: nat :: y < |base.rows| && x < base.width ==> Opposite(base.rows[y][x], cur.rows[y][x])
  {
    var d, white := Difference(base, cur), Pixel(255, 255, 255);
    FullTotal(Pixels(d.rows));
    AllPixels(d.rows, white);
    forall x: nat, y: nat | y < |base.rows| && x < base.width
      ensures Opposite(base.rows[y][x], cur.rows[y][x]) <==> d.rows[y][x] == white
    {
      assert d.rows[y][x] == PixelDiff(base.rows[y][x], cur.rows[y][x]);
    }
  }

  predicate Opposite(a: Pixel, b: Pixel) {
    Abs(a.r - b.r) == 255 && Abs(a.g - b.g) == 255 && Abs(a.b - b.b) == 255
  }

  lemma HundredPercent(total: nat, max: nat)
    requires max > 0
    ensures total as real / max as real * 100.0 == 100.0 <==> total == max
  {
    var q := total as real / max as real;
    assert q * max as real == total as real;
  }

  lemma AllPixels(rows: seq<seq<Pixel>>, p: Pixel)
    ensures (forall i :: 0 <= i < |Pixels(rows)| ==> Pixels(rows)[i] == p) <==>
            forall x: nat, y: nat :: y < |rows| && x < |rows[y]| ==> rows[y][x] == p
  {
    var ps := Pixels(rows);
    forall x: nat, y: nat | y < |rows| && x < |rows[y]|
      ensures exists i: nat :: i < |ps| && ps[i] == rows[y][x]
    {
      RowInPixels(rows, x, y);
    }
    forall i: nat | i < |ps|
      ensures exists x: nat, y: nat :: y < |rows| && x < |rows[y]| && rows[y][x] == ps[i]
    {
      PixelInRows(rows, i);
    }
  }

  /** A bin counts. */
  lemma {:induction false} OccurrencesIsMultiplicity(levels: seq<Level>, v: Level)
    ensures Occurrences(levels, v) == multiset(levels)[v]
  {
    if levels != [] {
      OccurrencesIsMultiplicity(levels[1..], v);
      assert levels == [levels[0]] + levels[1..];
    }
  }
}
