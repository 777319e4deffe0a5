/**
 * Slippy-map tiles (z/x/y): the x index of a longitude at a zoom level, tile designs
 * built from an index, and the enumeration of every tile between the south-west and
 * north-east corners of a box. The y index (tangent, cosine and logarithm) and a tile's
 * bounds (hyperbolic sine, arctangent, reprojection and flooring to 4 places) are
 * parameters of the model: `yIndex` and `tileBounds`.
 */
module GlMesh {
  import opened Wrappers

  import opened Data

  import opened Arith

  import JpMesh

  const MinZoom: int := 0
  const MaxZoom: int := 24
  const DefaultTileSize: int := 256

  /** The zoom check wrapped around `from_lonlat`, `from_tile_idx` and `tiles`. */
  predicate ValidZoom(zoom: int) {
    MinZoom <= zoom <= MaxZoom
  }

  datatype TileError = ZoomOutOfRange(zoom: int)

  /** The pixel size of the tiles a designer describes. */
  datatype TileDesigner = TileDesigner(width: int, height: int)

  /** A tile: its zoom level, its indices, its bounds and its pixel size. */
  datatype TileDesign = TileDesign(zoom: int, x: int, y: int, bounds: Bounds, width: int, height: int)

  datatype TileIdx = TileIdx(x: int, y: int)

  /** `TileDesigner()` with its default arguments: 256 by 256 pixels. */
  function DefaultTileDesigner(): (d: TileDesigner)
    ensures d.width == 256 && d.height == 256
  {
    TileDesigner(DefaultTileSize, DefaultTileSize)
  }

  function Pow2(n: nat): (p: nat)
    ensures p >= 1
  {
    if n == 0 then 1 else 2 * Pow2(n - 1)
  }

  /**
   * `int((lon + 180) / 360 * 2^zoom)`: the column of a longitude, truncated toward zero.
   * A longitude in [-180, 180) falls in a column of [0, 2^zoom), the one whose span
   * [x, x + 1) holds its scaled position.
   */
  function XIndex(lon: real, zoom: nat): (x: int)
    ensures -180.0 <= lon ==> x as real <= ScaledLon(lon, zoom) < x as real + 1.0
    ensures -180.0 <= lon < 180.0 ==> 0 <= x < Pow2(zoom)
  {
    var u := ScaledLon(lon, zoom);
    var i := JpMesh.Trunc(u);
    ColumnRange(lon, zoom);
    assert -180.0 <= lon < 180.0 ==> 0.0 <= u && i as real <= u < Pow2(zoom) as real;
    i
  }

  /** The position of a longitude in units of columns: (lon + 180) / 360 * 2^zoom. */
  function ScaledLon(lon: real, zoom: nat): real {
    (lon + 180.0) / 360.0 * Pow2(zoom) as real
  }

  lemma ColumnRange(lon: real, zoom: nat)
    ensures -180.0 <= lon ==> 0.0 <= ScaledLon(lon, zoom)
    ensures -180.0 <= lon < 180.0 ==> ScaledLon(lon, zoom) < Pow2(zoom) as real
  {
    var t, n := (lon + 180.0) / 360.0, Pow2(zoom) as real;
    if 0.0 <= t < 1.0 {
      JpMesh.MulMonoLt(t, 1.0, n);
    }
    if 0.0 <= t {
      JpMesh.MulMonoLe(0.0, t, n);
    }
  }

  /** `lonlat_to_tile_idx` on longitude and latitude: the x of the formula, the y of `yIndex`. */
  function LonLatToTileIdx(lon: real, lat: real, zoom: nat, yIndex: (real, nat) -> int): (t: TileIdx)
    ensures t.x == XIndex(lon, zoom) && t.y == yIndex(lat, zoom)
  {
    TileIdx(XIndex(lon, zoom), yIndex(lat, zoom))
  }

  /** The design of tile (x, y) at a zoom level, with the designer's pixel size. */
  function Design(designer: TileDesigner, x: int, y: int, zoom: nat, tileBounds: (int, int, nat) -> Bounds): TileDesign {
    TileDesign(zoom, x, y, tileBounds(x, y, zoom), designer.width, designer.height)
  }

  /**
   * `from_tile_idx`: a zoom outside [0, 24] fails; otherwise the design carries exactly the
   * given indices and zoom, the bounds of that tile and the designer's width and height.
   */
  function FromTileIdx(designer: TileDesigner, x: int, y: int, zoom: int, tileBounds: (int, int, nat) -> Bounds)
    : (r: Result<TileDesign, TileError>)
    ensures r.Err? <==> !ValidZoom(zoom)
    ensures r.Err? ==> r.error == ZoomOutOfRange(zoom)
    ensures r.Ok? ==>
      (r.value.zoom == zoom && r.value.x == x && r.value.y == y &&
       r.value.bounds == tileBounds(x, y, zoom) &&
       r.value.width == designer.width && r.value.height == designer.height)
  {
    if !ValidZoom(zoom) then Err(ZoomOutOfRange(zoom)) else Ok(Design(designer, x, y, zoom, tileBounds))
  }

  /**
   * `from_lonlat`: a zoom outside [0, 24] fails; otherwise the design of the tile whose
   * indices `lonlat_to_tile_idx` computes for the same position and zoom.
   */
  function FromLonLat(designer: TileDesigner, lon: real, lat: real, zoom: int, yIndex: (real, nat) -> int,
                      tileBounds: (int, int, nat) -> Bounds): (r: Result<TileDesign, TileError>)
    ensures r.Err? <==> !ValidZoom(zoom)
    ensures r.Ok? ==> r.value.x == XIndex(lon, zoom) && r.value.y == yIndex(lat, zoom) && r.value.zoom == zoom
    ensures r.Ok? ==> r == FromTileIdx(designer, XIndex(lon, zoom), yIndex(lat, zoom), zoom, tileBounds)
  {
    if !ValidZoom(zoom) then Err(ZoomOutOfRange(zoom))
    else
      var t := LonLatToTileIdx(lon, lat, zoom, yIndex);
      Ok(Design(designer, t.x, t.y, zoom, tileBounds))
  }

  /** The number of integers in lo..hi, inclusive. */
  function Span(lo: int, hi: int): nat {
    if hi < lo then 0 else hi - lo + 1
  }

  /** The designs of column x, rows y0..y1 inclusive, north to south. */
  function TileColumn(designer: TileDesigner, x: int, y0: int, y1: int, zoom: nat, tileBounds: (int, int, nat) -> Bounds)
    : (c: seq<TileDesign>)
    ensures |c| == Span(y0, y1)
    ensures forall b :: 0 <= b < |c| ==> c[b] == Design(designer, x, y0 + b, zoom, tileBounds)
  {
    seq(Span(y0, y1), b requires 0 <= b < Span(y0, y1) => Design(designer, x, y0 + b, zoom, tileBounds))
  }

  /** The reference enumeration: columns x0..x1 in order, each a full column y0..y1. */
  function TileGrid(designer: TileDesigner, x0: int, x1: int, y0: int, y1: int, zoom: nat,
                    tileBounds: (int, int, nat) -> Bounds): seq<TileDesign>
    decreases Span(x0, x1)
  {
    if x1 < x0 then [] else TileGrid(designer, x0, x1 - 1, y0, y1, zoom, tileBounds) + TileColumn(designer, x1, y0, y1, zoom, tileBounds)
  }

  /**
   * `tiles`: a zoom outside [0, 24] fails; otherwise the corner tiles of the south-west and
   * north-east positions, then every column from the south-west x to the north-east x and,
   * in each, every row from the north-east y down to the south-west y.
   */
  method Tiles(designer: TileDesigner, x_min: real, y_min: real, x_max: real, y_max: real, zoom: int,
               yIndex: (real, nat) -> int, tileBounds: (int, int, nat) -> Bounds)
      returns (r: Result<seq<TileDesign>, TileError>)
    ensures !ValidZoom(zoom) ==> r == Err(ZoomOutOfRange(zoom))
    ensures ValidZoom(zoom) ==>
      var sw := LonLatToTileIdx(x_min, y_min, zoom, yIndex);
      var ne := LonLatToTileIdx(x_max, y_max, zoom, yIndex);
      r == Ok(TileGrid(designer, sw.x, ne.x, ne.y, sw.y, zoom, tileBounds))
  {
    if !ValidZoom(zoom) {
      return Err(ZoomOutOfRange(zoom));
    }
    var sw := LonLatToTileIdx(x_min, y_min, zoom, yIndex);
    var ne := LonLatToTileIdx(x_max, y_max, zoom, yIndex);
    var designs: seq<TileDesign> := [];
    var x := sw.x;
    while x <= ne.x
      invariant x == sw.x || sw.x <= x <= ne.x + 1
      invariant designs == TileGrid(designer, sw.x, x - 1, ne.y, sw.y, zoom, tileBounds)
      decreases ne.x + 1 - x
    {
      designs := TileColumnAppend(designs, designer, x, ne.y, sw.y, zoom, tileBounds);
      x := x + 1;
    }
    r := Ok(designs);
  }

  /** The inner loop of `tiles`: the designs of column x appended, row by row. */
  method TileColumnAppend(designs: seq<TileDesign>, designer: TileDesigner, x: int, y0: int, y1: int, zoom: nat,
                          tileBounds: (int, int, nat) -> Bounds) returns (designs': seq<TileDesign>)
    requires ValidZoom(zoom)
    ensures designs' == designs + TileColumn(designer, x, y0, y1, zoom, tileBounds)
  {
    designs' := designs;
    var y := y0;
    while y <= y1
      invariant y == y0 || y0 <= y <= y1 + 1
      invariant designs' == designs + TileColumn(designer, x, y0, y - 1, zoom, tileBounds)
      decreases y1 + 1 - y
    {
      var design := FromTileIdx(designer, x, y, zoom, tileBounds);
      ColumnSnoc(designer, x, y0, y, zoom, tileBounds);
      designs' := designs' + [design.value];
      y := y + 1;
    }
  }

  lemma ColumnSnoc(designer: TileDesigner, x: int, y0: int, y: int, zoom: nat, tileBounds: (int, int, nat) -> Bounds)
    requires y0 <= y
    ensures TileColumn(designer, x, y0, y, zoom, tileBounds)
         == TileColumn(designer, x, y0, y - 1, zoom, tileBounds) + [Design(designer, x, y, zoom, tileBounds)]
  {
  }

  // ---------------------------------------------------------------------------
  // Properties
  // ---------------------------------------------------------------------------

  /** The enumeration holds Span(x0, x1) * Span(y0, y1) designs: none when either range is empty. */
  lemma {:induction false} TileGridLength(designer: TileDesigner, x0: int, x1: int, y0: int, y1: int, zoom: nat,
                                          tileBounds: (int, int, nat) -> Bounds)
    ensures |TileGrid(designer, x0, x1, y0, y1, zoom, tileBounds)| == Span(x0, x1) * Span(y0, y1)
    decreases Span(x0, x1)
  {
    if x0 <= x1 {
      TileGridLength(designer, x0, x1 - 1, y0, y1, zoom, tileBounds);
      assert Span(x0, x1 - 1) * Span(y0, y1) + Span(y0, y1) == Span(x0, x1) * Span(y0, y1);
    }
  }

  /** Column-major layout: the design of (x0 + a, y0 + b) is at index a * Span(y0, y1) + b. */
  lemma {:induction false} TileGridAt(designer: TileDesigner, x0: int, x1: int, y0: int, y1: int, zoom: nat,
                                      tileBounds: (int, int, nat) -> Bounds, a: nat, b: nat)
    requires a < Span(x0, x1) && b < Span(y0, y1)
    ensures a * Span(y0, y1) + b < |TileGrid(designer, x0, x1, y0, y1, zoom, tileBounds)|
    ensures TileGrid(designer, x0, x1, y0, y1, zoom, tileBounds)[a * Span(y0, y1) + b]
         == Design(designer, x0 + a, y0 + b, zoom, tileBounds)
    decreases Span(x0, x1)
  {
    var ny := Span(y0, y1);
    var g := TileGrid(designer, x0, x1, y0, y1, zoom, tileBounds);
    var left := TileGrid(designer, x0, x1 - 1, y0, y1, zoom, tileBounds);
    TileGridLength(designer, x0, x1, y0, y1, zoom, tileBounds);
    TileGridLength(designer, x0, x1 - 1, y0, y1, zoom, tileBounds);
    RowMajor(a, b, Span(x0, x1), ny);
    assert g == left + TileColumn(designer, x1, y0, y1, zoom, tileBounds);
    var k := a * ny + b;
    if a < Span(x0, x1) - 1 {
      TileGridAt(designer, x0, x1 - 1, y0, y1, zoom, tileBounds, a, b);
      assert g[k] == left[k];
    } else {
      assert k - |left| == b;
      assert g[k] == TileColumn(designer, x1, y0, y1, zoom, tileBounds)[b];
    }
  }

  /** Every index of the enumeration holds the tile (x0 + k / ny, y0 + k % ny). */
  lemma TileGridIndex(designer: TileDesigner, x0: int, x1: int, y0: int, y1: int, zoom: nat,
                      tileBounds: (int, int, nat) -> Bounds, k: nat)
    requires k < |TileGrid(designer, x0, x1, y0, y1, zoom, tileBounds)|
    ensures Span(y0, y1) > 0
    ensures TileGrid(designer, x0, x1, y0, y1, zoom, tileBounds)[k]
         == Design(designer, x0 + k / Span(y0, y1), y0 + k % Span(y0, y1), zoom, tileBounds)
  {
    var ny := Span(y0, y1);
    TileGridLength(designer, x0, x1, y0, y1, zoom, tileBounds);
    SplitIndex(k, Span(x0, x1), ny);
    TileGridAt(designer, x0, x1, y0, y1, zoom, tileBounds, k / ny, k % ny);
  }

  /**
   * What `tiles` returns, for a valid zoom: exactly Span(sw.x, ne.x) * Span(ne.y, sw.y)
   * designs; every design's indices lie in those ranges; no pair appears twice.
   */
  lemma TilesEnumeration(designer: TileDesigner, x0: int, x1: int, y0: int, y1: int, zoom: nat,
                         tileBounds: (int, int, nat) -> Bounds)
    ensures var g := TileGrid(designer, x0, x1, y0, y1, zoom, tileBounds);
      |g| == Span(x0, x1) * Span(y0, y1) &&
      (forall k :: 0 <= k < |g| ==> x0 <= g[k].x <= x1 && y0 <= g[k].y <= y1 && g[k].zoom == zoom) &&
      (forall i, j :: 0 <= i < j < |g| ==> (g[i].x, g[i].y) != (g[j].x, g[j].y))
  {
    var g := TileGrid(designer, x0, x1, y0, y1, zoom, tileBounds);
    TileGridLength(designer, x0, x1, y0, y1, zoom, tileBounds);
    forall k | 0 <= k < |g|
      ensures x0 <= g[k].x <= x1 && y0 <= g[k].y <= y1 && g[k].zoom == zoom
    {
      TileWithin(designer, x0, x1, y0, y1, zoom, tileBounds, k);
    }
    forall i, j | 0 <= i < j < |g|
      ensures (g[i].x, g[i].y) != (g[j].x, g[j].y)
    {
      TilesDistinct(designer, x0, x1, y0, y1, zoom, tileBounds, i, j);
    }
  }

  lemma TileWithin(designer: TileDesigner, x0: int, x1: int, y0: int, y1: int, zoom: nat,
                   tileBounds: (int, int, nat) -> Bounds, k: nat)
    requires k < |TileGrid(designer, x0, x1, y0, y1, zoom, tileBounds)|
    ensures var t := TileGrid(designer, x0, x1, y0, y1, zoom, tileBounds)[k];
      x0 <= t.x <= x1 && y0 <= t.y <= y1 && t.zoom == zoom
  {
    TileGridIndex(designer, x0, x1, y0, y1, zoom, tileBounds, k);
    TileGridLength(designer, x0, x1, y0, y1, zoom, tileBounds);
    SplitIndex(k, Span(x0, x1), Span(y0, y1));
  }

  lemma TilesDistinct(designer: TileDesigner, x0: int, x1: int, y0: int, y1: int, zoom: nat,
                      tileBounds: (int, int, nat) -> Bounds, i: nat, j: nat)
    requires i < j < |TileGrid(designer, x0, x1, y0, y1, zoom, tileBounds)|
    ensures var g := TileGrid(designer, x0, x1, y0, y1, zoom, tileBounds);
      (g[i].x, g[i].y) != (g[j].x, g[j].y)
  {
    TileGridIndex(designer, x0, x1, y0, y1, zoom, tileBounds, i);
    TileGridIndex(designer, x0, x1, y0, y1, zoom, tileBounds, j);
    QuotientRemainderInjective(i, j, Span(y0, y1));
  }

  /** Two different indices differ in their row or in their column. */
  lemma QuotientRemainderInjective(i: nat, j: nat, n: int)
    requires n > 0 && i != j
    ensures i / n != j / n || i % n != j % n
  {
    assert i == (i / n) * n + i % n && j == (j / n) * n + j % n;
  }

  /** Every tile of the ranges is enumerated. */
  lemma TilesComplete(designer: TileDesigner, x0: int, x1: int, y0: int, y1: int, zoom: nat,
                      tileBounds: (int, int, nat) -> Bounds, x: int, y: int)
    requires x0 <= x <= x1 && y0 <= y <= y1
    ensures Design(designer, x, y, zoom, tileBounds) in TileGrid(designer, x0, x1, y0, y1, zoom, tileBounds)
  {
    TileGridAt(designer, x0, x1, y0, y1, zoom, tileBounds, x - x0, y - y0);
  }

  /** Columns are ordered like longitudes: a longitude further east is never in a column further west. */
  lemma XIndexMonotone(lon1: real, lon2: real, zoom: nat)
    requires lon1 <= lon2
    ensures XIndex(lon1, zoom) <= XIndex(lon2, zoom)
  {
    var n := Pow2(zoom) as real;
    JpMesh.MulMonoLe((lon1 + 180.0) / 360.0, (lon2 + 180.0) / 360.0, n);
    TruncMonotone(ScaledLon(lon1, zoom), ScaledLon(lon2, zoom));
  }

  lemma TruncMonotone(a: real, b: real)
    requires a <= b
    ensures JpMesh.Trunc(a) <= JpMesh.Trunc(b)
  {
  }

  /** With the south-west corner west of the north-east one, `tiles` spans at least one column. */
  lemma TilesNonEmptyColumns(x_min: real, x_max: real, zoom: nat)
    requires x_min <= x_max
    ensures Span(XIndex(x_min, zoom), XIndex(x_max, zoom)) >= 1
  {
    XIndexMonotone(x_min, x_max, zoom);
  }

  /** The default designer's tiles are 256 by 256 pixels. */
  lemma DefaultDesignSize(x: int, y: int, zoom: int, tileBounds: (int, int, nat) -> Bounds)
    requires ValidZoom(zoom)
    ensures var r := FromTileIdx(DefaultTileDesigner(), x, y, zoom, tileBounds);
      r.Ok? && r.value.width == 256 && r.value.height == 256
  {
  }
}
