/**
 * The square grid: a rectangle tiled row by row, from its top edge downward and from
 * its left edge rightward, with squares of fixed sides. Coordinates are scaled to
 * integers by 10^10 before the loops and scaled back for every square.
 */
module Square {
  import opened Wrappers

  import opened Digits

  import opened Data

  import JpMesh

  import opened Arith

  /** The scaling factor of the integer loops. */
  const Scale: int := 10000000000

  /**
   * A box from its top-left corner and its side lengths; the vertical side defaults to
   * the horizontal one.
   */
  function CreateSquareFromLength(x_min: real, y_max: real, horizontal: real, vertical: Option<real>): (b: Bounds)
    ensures b.x_min == x_min && b.y_max == y_max
    ensures b.x_max - b.x_min == horizontal
    ensures b.y_max - b.y_min == (if vertical.Some? then vertical.value else horizontal)
  {
    var v := if vertical.Some? then vertical.value else horizontal;
    Bounds(x_min, y_max - v, x_min + horizontal, y_max)
  }

  /**
   * A square from its top-left corner and its side, the side being the square root of
   * the area; its area is side * side.
   */
  function CreateSquareFromArea(x_min: real, y_max: real, side: real): (b: Bounds)
    ensures b == CreateSquareFromLength(x_min, y_max, side, None)
    ensures (b.x_max - b.x_min) * (b.y_max - b.y_min) == side * side
  {
    Bounds(x_min, y_max - side, x_min + side, y_max)
  }

  /** The rectangle a square mesh tiles. */
  datatype SquareMesh = SquareMesh(bounds: Bounds)

  /** The generated table: the `id` column, the `xy` labels and the squares. */
  datatype SquareTable = SquareTable(ids: seq<int>, xy: seq<string>, squares: seq<Bounds>)

  /** `range()` refuses a step of zero. */
  datatype SquareError = ZeroStep

  /**
   * Python's `range(start, stop, step)`: start, start + step, ... while short of stop in
   * the direction of the step.
   */
  function RangeSeq(start: int, stop: int, step: int): (r: seq<int>)
    requires step != 0
    ensures |r| > 0 ==> r[0] == start
    ensures forall k :: 0 <= k < |r| - 1 ==> r[k + 1] == r[k] + step
    ensures forall k :: 0 <= k < |r| ==> if step > 0 then start <= r[k] < stop else stop < r[k] <= start
    decreases if step > 0 then stop - start else start - stop
  {
    if (step > 0 && start < stop) || (step < 0 && start > stop) then
      var rest := RangeSeq(start + step, stop, step);
      assert forall k :: 1 <= k < |rest| + 1 ==> ([start] + rest)[k] == rest[k - 1];
      [start] + rest
    else
      []
  }

  /** The values of a range are start + k * step. */
  lemma {:induction false} RangeAt(start: int, stop: int, step: int, k: nat)
    requires step != 0 && k < |RangeSeq(start, stop, step)|
    ensures RangeSeq(start, stop, step)[k] == start + k * step
  {
    if k > 0 {
      RangeAt(start, stop, step, k - 1);
      assert (k - 1) * step + step == k * step;
    }
  }

  /**
   * A nonempty range holds ceil((stop - start) / step) values: n with
   * (n - 1) * |step| < |stop - start| <= n * |step|; an empty one holds none.
   */
  lemma {:induction false} RangeLength(start: int, stop: int, step: int)
    requires step != 0
    ensures var n := |RangeSeq(start, stop, step)|;
      if step > 0 then
        (start < stop ==> (n - 1) * step < stop - start <= n * step) && (start >= stop ==> n == 0)
      else
        (start > stop ==> (n - 1) * (-step) < start - stop <= n * (-step)) && (start <= stop ==> n == 0)
    decreases if step > 0 then stop - start else start - stop
  {
    if (step > 0 && start < stop) || (step < 0 && start > stop) {
      var m := |RangeSeq(start + step, stop, step)|;
      RangeLength(start + step, stop, step);
      assert |RangeSeq(start, stop, step)| == m + 1;
      if step > 0 {
        assert (m + 1) * step == m * step + step;
        assert (m - 1) * step == m * step - step;
      } else {
        assert (m + 1) * (-step) == m * (-step) - step;
        assert (m - 1) * (-step) == m * (-step) + step;
      }
    }
  }

  /** The count n of a positive-width range is pinned down by n*s bracketing the width. */
  lemma CeilUnique(d: int, s: int, n: int, n': int)
    requires s > 0 && (n - 1) * s < d <= n * s && (n' - 1) * s < d <= n' * s
    ensures n == n'
  {
    if n < n' {
      MulLe(n, n' - 1, s);
    } else if n' < n {
      MulLe(n', n - 1, s);
    }
  }

  /** A square of the integer loops, scaled back: v / 10^10 for each coordinate. */
  function ScaledSquare(x: int, y: int, h: int, v: int): (b: Bounds)
    ensures b.x_min == x as real / Scale as real && b.y_max == y as real / Scale as real
    ensures b.x_max == (x + h) as real / Scale as real && b.y_min == (y - v) as real / Scale as real
  {
    var s := CreateSquareFromLength(x as real, y as real, h as real, Some(v as real));
    Bounds(s.x_min / Scale as real, s.y_min / Scale as real, s.x_max / Scale as real, s.y_max / Scale as real)
  }

  /** The label `f"{x_id}/{y_id}"`. */
  function XyLabel(xId: nat, yId: nat): string {
    NatToString(xId) + "/" + NatToString(yId)
  }

  /** The reference table: the squares of every row of ys, each over the columns xs. */
  function RowSquares(y: int, xs: seq<int>, h: int, v: int): (r: seq<Bounds>)
    ensures |r| == |xs| && forall b :: 0 <= b < |xs| ==> r[b] == ScaledSquare(xs[b], y, h, v)
  {
    seq(|xs|, b requires 0 <= b < |xs| => ScaledSquare(xs[b], y, h, v))
  }

  function GridSquares(ys: seq<int>, xs: seq<int>, h: int, v: int): seq<Bounds>
    decreases |ys|
  {
    if ys == [] then [] else GridSquares(ys[..|ys| - 1], xs, h, v) + RowSquares(ys[|ys| - 1], xs, h, v)
  }

  function RowLabels(yId: nat, n: nat): (r: seq<string>)
    ensures |r| == n && forall b :: 0 <= b < n ==> r[b] == XyLabel(b, yId)
  {
    seq(n, b requires 0 <= b < n => XyLabel(b, yId))
  }

  function GridLabels(m: nat, n: nat): seq<string>
    decreases m
  {
    if m == 0 then [] else GridLabels(m - 1, n) + RowLabels(m - 1, n)
  }

  function Ids(n: nat): (r: seq<int>)
    ensures |r| == n && forall k :: 0 <= k < n ==> r[k] == k
  {
    seq(n, k requires 0 <= k < n => k)
  }

  /** The columns of a row; a zero step never reaches a row without failing first. */
  function Columns(xMin: int, xMax: int, h: int): seq<int> {
    if h == 0 then [] else RangeSeq(xMin, xMax, h)
  }

  /**
   * The reference result of the loops on scaled integers: a zero vertical step fails,
   * a zero horizontal step fails as soon as there is a row, otherwise the table of all
   * rows and columns.
   */
  function SquareGrid(xMin: int, yMin: int, xMax: int, yMax: int, h: int, v: int): Result<SquareTable, SquareError> {
    if v == 0 then Err(ZeroStep)
    else
      var ys := RangeSeq(yMax, yMin, -v);
      if ys != [] && h == 0 then Err(ZeroStep)
      else
        var xs := Columns(xMin, xMax, h);
        Ok(SquareTable(Ids(|ys| * |xs|), GridLabels(|ys|, |xs|), GridSquares(ys, xs, h, v)))
  }

  /**
   * The loops of `generate_squares_from_length` and `generate_squares_from_area` on
   * scaled integers: rows y from yMax down toward yMin, columns x from xMin toward xMax,
   * one square and one label per pair, the column counter reset at each row.
   */
  method TileScaled(xMin: int, yMin: int, xMax: int, yMax: int, h: int, v: int) returns (r: Result<SquareTable, SquareError>)
    ensures r == SquareGrid(xMin, yMin, xMax, yMax, h, v)
  {
    if v == 0 {
      return Err(ZeroStep);
    }
    var ys := RangeSeq(yMax, yMin, -v);
    var xId, yId := 0, 0;
    var labels: seq<string> := [];
    var squares: seq<Bounds> := [];
    for a := 0 to |ys|
      invariant yId == a && xId == 0
      invariant a > 0 ==> h != 0
      invariant squares == GridSquares(ys[..a], Columns(xMin, xMax, h), h, v)
      invariant labels == GridLabels(a, |Columns(xMin, xMax, h)|)
    {
      if h == 0 {
        return Err(ZeroStep);
      }
      var xs := RangeSeq(xMin, xMax, h);
      assert xs == Columns(xMin, xMax, h);
      squares, labels, xId := TileRow(squares, labels, ys[a], yId, xs, h, v);
      GridSquaresSnoc(ys, a, xs, h, v);
      yId := yId + 1;
      xId := 0;
    }
    assert ys[..|ys|] == ys;
    GridSquaresLength(ys, Columns(xMin, xMax, h), h, v);
    r := Ok(SquareTable(Ids(|squares|), labels, squares));
  }

  /** The inner loop: one square and one label per column of the row y, numbered from 0. */
  method TileRow(squares: seq<Bounds>, labels: seq<string>, y: int, yId: nat, xs: seq<int>, h: int, v: int)
      returns (squares': seq<Bounds>, labels': seq<string>, xId: nat)
    ensures squares' == squares + RowSquares(y, xs, h, v)
    ensures labels' == labels + RowLabels(yId, |xs|)
    ensures xId == |xs|
  {
    squares', labels', xId := squares, labels, 0;
    for b := 0 to |xs|
      invariant xId == b
      invariant squares' == squares + RowSquares(y, xs[..b], h, v)
      invariant labels' == labels + RowLabels(yId, b)
    {
      var square := ScaledSquare(xs[b], y, h, v);
      RowSquaresSnoc(y, xs, b, h, v);
      RowLabelsSnoc(yId, b);
      squares' := squares' + [square];
      labels' := labels' + [XyLabel(xId, yId)];
      xId := xId + 1;
    }
    assert xs[..|xs|] == xs;
  }

  lemma RowSquaresSnoc(y: int, xs: seq<int>, b: nat, h: int, v: int)
    requires b < |xs|
    ensures RowSquares(y, xs[..b + 1], h, v) == RowSquares(y, xs[..b], h, v) + [ScaledSquare(xs[b], y, h, v)]
  {
    assert RowSquares(y, xs[..|xs|], h, v) == RowSquares(y, xs, h, v) by { assert xs[..|xs|] == xs; }
  }

  lemma RowLabelsSnoc(yId: nat, b: nat)
    ensures RowLabels(yId, b + 1) == RowLabels(yId, b) + [XyLabel(b, yId)]
  {
  }

  lemma GridSquaresSnoc(ys: seq<int>, a: nat, xs: seq<int>, h: int, v: int)
    requires a < |ys|
    ensures GridSquares(ys[..a + 1], xs, h, v) == GridSquares(ys[..a], xs, h, v) + RowSquares(ys[a], xs, h, v)
  {
    assert ys[..a + 1][..a] == ys[..a];
    assert xs[..|xs|] == xs;
  }

  /** The integer part of a coordinate scaled by 10^10, Python's `int(v * DIGITS)`. */
  function Scaled(x: real): int {
    JpMesh.Trunc(x * Scale as real)
  }

  /** `SquareMesh.generate_squares_from_length`: the vertical side defaults to the horizontal one. */
  method GenerateSquaresFromLength(mesh: SquareMesh, horizontal: real, vertical: Option<real>)
      returns (r: Result<SquareTable, SquareError>)
    ensures var v := if vertical.Some? then vertical.value else horizontal;
      r == SquareGrid(Scaled(mesh.bounds.x_min), Scaled(mesh.bounds.y_min), Scaled(mesh.bounds.x_max),
                      Scaled(mesh.bounds.y_max), Scaled(horizontal), Scaled(v))
  {
    var v := if vertical.Some? then vertical.value else horizontal;
    var xMin := Scaled(mesh.bounds.x_min);
    var yMax := Scaled(mesh.bounds.y_max);
    var xMax := Scaled(mesh.bounds.x_max);
    var yMin := Scaled(mesh.bounds.y_min);
    r := TileScaled(xMin, yMin, xMax, yMax, Scaled(horizontal), Scaled(v));
  }

  /**
   * `SquareMesh.generate_squares_from_area`, given the side length (the square root of
   * the area): the same loops with equal sides.
   */
  method GenerateSquaresFromArea(mesh: SquareMesh, side: real) returns (r: Result<SquareTable, SquareError>)
    ensures r == SquareGrid(Scaled(mesh.bounds.x_min), Scaled(mesh.bounds.y_min), Scaled(mesh.bounds.x_max),
                            Scaled(mesh.bounds.y_max), Scaled(side), Scaled(side))
  {
    var xMin := Scaled(mesh.bounds.x_min);
    var yMax := Scaled(mesh.bounds.y_max);
    var xMax := Scaled(mesh.bounds.x_max);
    var yMin := Scaled(mesh.bounds.y_min);
    var s := Scaled(side);
    r := TileScaled(xMin, yMin, xMax, yMax, s, s);
  }

  // ---------------------------------------------------------------------------
  // Properties of the reference table
  // ---------------------------------------------------------------------------

  lemma {:induction false} GridSquaresLength(ys: seq<int>, xs: seq<int>, h: int, v: int)
    ensures |GridSquares(ys, xs, h, v)| == |ys| * |xs|
    decreases |ys|
  {
    if ys != [] {
      GridSquaresLength(ys[..|ys| - 1], xs, h, v);
      assert (|ys| - 1) * |xs| + |xs| == |ys| * |xs|;
    }
  }

  /** Row-major layout: the square of row a and column b is at index a * |xs| + b. */
  lemma {:induction false} GridSquaresAt(ys: seq<int>, xs: seq<int>, h: int, v: int, a: nat, b: nat)
    requires a < |ys| && b < |xs|
    ensures a * |xs| + b < |GridSquares(ys, xs, h, v)|
    ensures GridSquares(ys, xs, h, v)[a * |xs| + b] == ScaledSquare(xs[b], ys[a], h, v)
    decreases |ys|
  {
    var init := ys[..|ys| - 1];
    GridSquaresLength(init, xs, h, v);
    GridSquaresLength(ys, xs, h, v);
    RowMajor(a, b, |ys|, |xs|);
    var k := a * |xs| + b;
    var left := GridSquares(init, xs, h, v);
    assert GridSquares(ys, xs, h, v) == left + RowSquares(ys[|ys| - 1], xs, h, v);
    if a < |ys| - 1 {
      GridSquaresAt(init, xs, h, v, a, b);
      RowMajor(a, b, |init|, |xs|);
      assert GridSquares(ys, xs, h, v)[k] == left[k];
    } else {
      assert GridSquares(ys, xs, h, v)[k] == RowSquares(ys[|ys| - 1], xs, h, v)[b];
    }
  }

  lemma {:induction false} GridLabelsLength(m: nat, n: nat)
    ensures |GridLabels(m, n)| == m * n
    decreases m
  {
    if m > 0 {
      GridLabelsLength(m - 1, n);
      assert (m - 1) * n + n == m * n;
    }
  }

  lemma {:induction false} GridLabelsAt(m: nat, n: nat, a: nat, b: nat)
    requires a < m && b < n
    ensures a * n + b < |GridLabels(m, n)|
    ensures GridLabels(m, n)[a * n + b] == XyLabel(b, a)
    decreases m
  {
    GridLabelsLength(m - 1, n);
    GridLabelsLength(m, n);
    RowMajor(a, b, m, n);
    var left, row := GridLabels(m - 1, n), RowLabels(m - 1, n);
    if a < m - 1 {
      GridLabelsAt(m - 1, n, a, b);
      RowMajor(a, b, m - 1, n);
      assert (left + row)[a * n + b] == left[a * n + b];
    } else {
      assert a * n + b == |left| + b;
      assert (left + row)[|left| + b] == row[b];
    }
  }


  /**
   * For positive sides the grid succeeds and holds nx * ny squares, one label and one
   * id per square, where nx = ceil(width / h) and ny = ceil(height / v) (both zero for
   * an empty side).
   */
  lemma SquareCount(xMin: int, yMin: int, xMax: int, yMax: int, h: int, v: int)
    requires h > 0 && v > 0
    ensures var r := SquareGrid(xMin, yMin, xMax, yMax, h, v);
      var nx, ny := |RangeSeq(xMin, xMax, h)|, |RangeSeq(yMax, yMin, -v)|;
      r.Ok? &&
      |r.value.squares| == |r.value.xy| == |r.value.ids| == nx * ny &&
      (xMin < xMax ==> (nx - 1) * h < xMax - xMin <= nx * h) && (xMin >= xMax ==> nx == 0) &&
      (yMin < yMax ==> (ny - 1) * v < yMax - yMin <= ny * v) && (yMin >= yMax ==> ny == 0)
  {
    var ys := RangeSeq(yMax, yMin, -v);
    var xs := RangeSeq(xMin, xMax, h);
    assert SquareGrid(xMin, yMin, xMax, yMax, h, v) == Ok(SquareTable(Ids(|ys| * |xs|), GridLabels(|ys|, |xs|), GridSquares(ys, xs, h, v)));
    assert |Ids(|ys| * |xs|)| == |xs| * |ys|;
    GridSquaresLength(ys, xs, h, v);
    GridLabelsLength(|ys|, |xs|);
    RangeLength(xMin, xMax, h);
    RangeLength(yMax, yMin, -v);
    assert (|ys| - 1) * (- -v) == (|ys| - 1) * v;
    assert |ys| * (- -v) == |ys| * v;
  }

  /** The corner of row a and column b lies in [xMin, xMax) by (yMin, yMax]. */
  lemma CornerWithin(xMin: int, yMin: int, xMax: int, yMax: int, h: int, v: int, a: nat, b: nat)
    requires h > 0 && v > 0
    requires a < |RangeSeq(yMax, yMin, -v)| && b < |RangeSeq(xMin, xMax, h)|
    ensures RangeSeq(xMin, xMax, h)[b] == xMin + b * h && RangeSeq(yMax, yMin, -v)[a] == yMax - a * v
    ensures xMin <= xMin + b * h < xMax && yMin < yMax - a * v <= yMax
  {
    RangeAt(yMax, yMin, -v, a);
    RangeAt(xMin, xMax, h, b);
    assert a * (-v) == -(a * v);
  }

  /**
   * Where the squares lie, for positive sides: the square of row a and column b has its
   * top-left corner at (xMin + b*h, yMax - a*v) scaled back, inside [xMin, xMax) by
   * (yMin, yMax], and its label is "b/a".
   */
  lemma SquareAt(xMin: int, yMin: int, xMax: int, yMax: int, h: int, v: int, a: nat, b: nat)
    requires h > 0 && v > 0
    requires a < |RangeSeq(yMax, yMin, -v)| && b < |RangeSeq(xMin, xMax, h)|
    ensures var r := SquareGrid(xMin, yMin, xMax, yMax, h, v);
      var k := a * |RangeSeq(xMin, xMax, h)| + b;
      var x, y := xMin + b * h, yMax - a * v;
      r.Ok? && k < |r.value.squares| && k < |r.value.xy| &&
      r.value.squares[k] == ScaledSquare(x, y, h, v) &&
      xMin <= x < xMax && yMin < y <= yMax &&
      r.value.xy[k] == XyLabel(b, a)
  {
    var ys := RangeSeq(yMax, yMin, -v);
    var xs := RangeSeq(xMin, xMax, h);
    var r := SquareGrid(xMin, yMin, xMax, yMax, h, v);
    assert r == Ok(SquareTable(Ids(|ys| * |xs|), GridLabels(|ys|, |xs|), GridSquares(ys, xs, h, v)));
    GridSquaresAt(ys, xs, h, v, a, b);
    GridLabelsAt(|ys|, |xs|, a, b);
    CornerWithin(xMin, yMin, xMax, yMax, h, v, a, b);
  }

  /** A nonempty rectangle's first square has its top-left corner at the rectangle's top-left corner. */
  lemma FirstSquareCorner(xMin: int, yMin: int, xMax: int, yMax: int, h: int, v: int)
    requires h > 0 && v > 0 && xMin < xMax && yMin < yMax
    ensures var r := SquareGrid(xMin, yMin, xMax, yMax, h, v);
      r.Ok? && |r.value.squares| > 0 && r.value.squares[0] == ScaledSquare(xMin, yMax, h, v) &&
      r.value.xy[0] == "0/0"
  {
    SquareAt(xMin, yMin, xMax, yMax, h, v, 0, 0);
    assert NatToString(0) == "0";
  }

  /** A zero vertical side always fails; a zero horizontal side fails exactly when there is a row. */
  lemma ZeroSideFails(xMin: int, yMin: int, xMax: int, yMax: int, h: int, v: int)
    ensures v == 0 ==> SquareGrid(xMin, yMin, xMax, yMax, h, v) == Err(ZeroStep)
    ensures v > 0 && h == 0 ==> (SquareGrid(xMin, yMin, xMax, yMax, h, v).Err? <==> yMin < yMax)
  {
  }

  /** A side that is not longer never yields fewer columns. */
  lemma RangeLengthAntitone(start: int, stop: int, s1: int, s2: int)
    requires 0 < s1 <= s2
    ensures |RangeSeq(start, stop, s1)| >= |RangeSeq(start, stop, s2)|
  {
    RangeLength(start, stop, s1);
    RangeLength(start, stop, s2);
    var n1, n2 := |RangeSeq(start, stop, s1)|, |RangeSeq(start, stop, s2)|;
    if start < stop && n1 < n2 {
      MulLe(n1, n2 - 1, s1);
      MulLe(s1, s2, n2 - 1);
    }
  }

  /**
   * Smaller sides never give fewer squares: the column count and the row count each do not
   * shrink, so neither does their product. Strictly more is not promised, because two
   * different sides can still give the same counts.
   */
  lemma SmallerSidesNoFewerSquares(xMin: int, yMin: int, xMax: int, yMax: int, h: int, v: int, h': int, v': int)
    requires 0 < h <= h' && 0 < v <= v'
    ensures var fine := SquareGrid(xMin, yMin, xMax, yMax, h, v);
      var coarse := SquareGrid(xMin, yMin, xMax, yMax, h', v');
      fine.Ok? && coarse.Ok? && |fine.value.squares| >= |coarse.value.squares|
  {
    SquareCount(xMin, yMin, xMax, yMax, h, v);
    SquareCount(xMin, yMin, xMax, yMax, h', v');
    var nx, ny := |RangeSeq(xMin, xMax, h)|, |RangeSeq(yMax, yMin, -v)|;
    var nx', ny' := |RangeSeq(xMin, xMax, h')|, |RangeSeq(yMax, yMin, -v')|;
    RangeLengthAntitone(xMin, xMax, h, h');
    CountAntitone(yMax - yMin, ny, ny', v, v');
    MulLe(nx', nx, ny');
    MulLe(ny', ny, nx);
  }

  /** Two counts that bracket the same width, the first with the smaller step, are in the reverse order. */
  lemma CountAntitone(w: int, n1: nat, n2: nat, s1: int, s2: int)
    requires 0 < s1 <= s2
    requires w > 0 ==> (n1 - 1) * s1 < w <= n1 * s1 && (n2 - 1) * s2 < w
    requires w <= 0 ==> n1 == 0 && n2 == 0
    ensures n1 >= n2
  {
    if w > 0 && n1 < n2 {
      MulLe(n1, n2 - 1, s1);
      MulLe(s1, s2, n2 - 1);
    }
  }

  /**
   * On the scaled square 139..140 by 35..36 degrees, a side of 0.1 degrees gives 100
   * squares and a side of 0.01 degrees gives 10000.
   */
  lemma SmallerSideMoreSquares()
    ensures var large := SquareGrid(Scaled(139.0), Scaled(35.0), Scaled(140.0), Scaled(36.0), Scaled(0.1), Scaled(0.1));
      var small := SquareGrid(Scaled(139.0), Scaled(35.0), Scaled(140.0), Scaled(36.0), Scaled(0.01), Scaled(0.01));
      large.Ok? && small.Ok? && |large.value.squares| == 100 && |small.value.squares| == 10000
  {
    ScaledCorners();
    CountOf(1390000000000, 1400000000000, 1000000000, 10);
    CountOf(1390000000000, 1400000000000, 100000000, 100);
    CountOf(350000000000, 360000000000, 1000000000, 10);
    CountOf(350000000000, 360000000000, 100000000, 100);
    GridSize(1390000000000, 350000000000, 1400000000000, 360000000000, 1000000000, 1000000000, 10, 10);
    GridSize(1390000000000, 350000000000, 1400000000000, 360000000000, 100000000, 100000000, 100, 100);
  }

  /** A grid whose sides have nx and ny steps holds nx * ny squares. */
  lemma GridSize(xMin: int, yMin: int, xMax: int, yMax: int, h: int, v: int, nx: int, ny: int)
    requires h > 0 && v > 0 && |RangeSeq(xMin, xMax, h)| == nx && |RangeSeq(yMax, yMin, -v)| == ny
    ensures SquareGrid(xMin, yMin, xMax, yMax, h, v).Ok? && |SquareGrid(xMin, yMin, xMax, yMax, h, v).value.squares| == nx * ny
  {
    SquareCount(xMin, yMin, xMax, yMax, h, v);
  }

  /** The scaled values of the corners and sides used above. */
  lemma ScaledCorners()
    ensures Scaled(0.1) == 1000000000 && Scaled(0.01) == 100000000
    ensures Scaled(139.0) == 1390000000000 && Scaled(140.0) == 1400000000000
    ensures Scaled(35.0) == 350000000000 && Scaled(36.0) == 360000000000
  {
    assert Scaled(0.1) == 1000000000;
    assert Scaled(0.01) == 100000000;
  }

  /** A range whose width is n steps exactly has n values, upward and downward. */
  lemma CountOf(lo: int, hi: int, s: int, n: int)
    requires s > 0 && n > 0 && hi - lo == n * s
    ensures |RangeSeq(lo, hi, s)| == n && |RangeSeq(hi, lo, -s)| == n
  {
    RangeLength(lo, hi, s);
    RangeLength(hi, lo, -s);
    assert n * s > 0 by { MulLe(1, n, s); }
    CeilUnique(hi - lo, s, |RangeSeq(lo, hi, s)|, n);
    assert |RangeSeq(hi, lo, -s)| * (- -s) == |RangeSeq(hi, lo, -s)| * s;
    assert (|RangeSeq(hi, lo, -s)| - 1) * (- -s) == (|RangeSeq(hi, lo, -s)| - 1) * s;
    CeilUnique(hi - lo, s, |RangeSeq(hi, lo, -s)|, n);
  }
}
