/**
 * Properties of the Japanese mesh encoder and decoders: the layout of the codes, the
 * cell each decoder yields for an encoded point, cell sizes, nesting, the error paths,
 * and the converse direction from a decoded cell back to its code.
 */
module JpMeshProperties {
  import opened Wrappers
  import opened Digits
  import opened Data
  import opened JpMesh

  /** The point lies in the cell, west and south edges included. */
  predicate InCell(b: Bounds, lon: real, lat: real) {
    b.x_min <= lon < b.x_max && b.y_min <= lat < b.y_max
  }

  /** Japan's box lies inside the domain of two-digit codes. */
  lemma JapanInDomain(lon: real, lat: real)
    requires InJapan(lon, lat)
    ensures CodeDomain(lon, lat)
  {
    FloorUnique(lat * 1.5, (lat * 1.5).Floor);
  }

  lemma FloorUnique(x: real, k: int)
    requires k as real <= x < k as real + 1.0
    ensures x.Floor == k
  {
  }

  /** The grid cell of index (i, j). */
  lemma GridCellAt(l: Level, lon: real, lat: real, i: int, j: int)
    requires (lon * LonScale(l)).Floor == i && (lat * LatScale(l)).Floor == j
    ensures GridCell(l, lon, lat) == Bounds(i as real / LonScale(l), j as real / LatScale(l), (i + 1) as real / LonScale(l), (j + 1) as real / LatScale(l))
  {
  }

  /** A grid cell holds its point, half-open on the east and north sides. */
  lemma GridCellContains(l: Level, lon: real, lat: real)
    ensures var b := GridCell(l, lon, lat);
      b.x_min <= lon < b.x_max && b.y_min <= lat < b.y_max &&
      b.x_max - b.x_min == 1.0 / LonScale(l) && b.y_max - b.y_min == 1.0 / LatScale(l)
  {
    var i := (lon * LonScale(l)).Floor;
    var j := (lat * LatScale(l)).Floor;
    FloorBounds(lon * LonScale(l));
    FloorBounds(lat * LatScale(l));
  }

  /**
   * What the divisions of the encoder compute: inside the domain, the quotients are the
   * digits of the grid indices at every resolution.
   */
  lemma EncodedIndices(lon: real, lat: real)
    requires CodeDomain(lon, lat)
    ensures var z := LatDivisionOf(lat);
      (lat * 1.5).Floor == z.p &&
      (lat * 12.0).Floor == 8 * z.p + z.q &&
      (lat * 120.0).Floor == 80 * z.p + 10 * z.q + z.r &&
      (lat * 240.0).Floor == 160 * z.p + 20 * z.q + 2 * z.r + z.s
    ensures var w := LonDivisionOf(lon);
      lon.Floor == w.u + 100 &&
      (lon * 8.0).Floor == 8 * (w.u + 100) + w.v &&
      (lon * 80.0).Floor == 80 * (w.u + 100) + 10 * w.v + w.w &&
      (lon * 160.0).Floor == 160 * (w.u + 100) + 20 * w.v + 2 * w.w + w.x &&
      (lon * 320.0).Floor == 320 * (w.u + 100) + 40 * w.v + 4 * w.w + 2 * w.x + w.y
  {
    var z := LatDivisionOf(lat);
    FloorUnique(lat * 1.5, z.p);
    FloorUnique(lat * 12.0, 8 * z.p + z.q);
    FloorUnique(lat * 120.0, 80 * z.p + 10 * z.q + z.r);
    FloorUnique(lat * 240.0, 160 * z.p + 20 * z.q + 2 * z.r + z.s);
    var w := LonDivisionOf(lon);
    FloorUnique(lon, w.u + 100);
    FloorUnique(lon * 8.0, 8 * (w.u + 100) + w.v);
    FloorUnique(lon * 80.0, 80 * (w.u + 100) + 10 * w.v + w.w);
    FloorUnique(lon * 160.0, 160 * (w.u + 100) + 20 * w.v + 2 * w.w + w.x);
    FloorUnique(lon * 320.0, 320 * (w.u + 100) + 40 * w.v + 4 * w.w + 2 * w.x + w.y);
  }

  /**
   * The layout of the encoded codes inside the domain: two digits each for the
   * first-level latitude and longitude indices, one each for the second and standard
   * levels, then the half digit 2s + x + 1 and the quarter digit y + 1.
   */
  lemma EncodedDigits(lon: real, lat: real)
    requires CodeDomain(lon, lat)
    ensures var z := LatDivisionOf(lat);
      var w := LonDivisionOf(lon);
      var c := MeshCodeOf(lon, lat);
      10 <= z.p <= 99 && 10 <= w.u <= 99 && 0 <= w.v <= 7 &&
      c.first == [DigitChar(z.p / 10), DigitChar(z.p % 10), DigitChar(w.u / 10), DigitChar(w.u % 10)] &&
      c.secondary == c.first + [DigitChar(z.q), DigitChar(w.v)] &&
      c.standard == c.secondary + [DigitChar(z.r), DigitChar(w.w)] &&
      c.half == c.standard + [DigitChar(2 * z.s + w.x + 1)] &&
      c.quarter == c.half + [DigitChar(w.y + 1)]
  {
    var z := LatDivisionOf(lat);
    var w := LonDivisionOf(lon);
    EncodedIndices(lon, lat);
    TwoDigitText(z.p);
    TwoDigitText(w.u);
    OneDigitText(z.q);
    OneDigitText(w.v);
    OneDigitText(z.r);
    OneDigitText(w.w);
    OneDigitText(2 * z.s + w.x + 1);
    OneDigitText(2 * z.t + w.y + 1);
  }

  /** The five code lengths inside the domain, each code a prefix of the next. */
  lemma EncodedLengths(lon: real, lat: real)
    requires CodeDomain(lon, lat)
    ensures var c := MeshCodeOf(lon, lat);
      |c.first| == 4 && |c.secondary| == 6 && |c.standard| == 8 && |c.half| == 9 && |c.quarter| == 10 &&
      AllDigits(c.quarter)
  {
    var z, w := LatDivisionOf(lat), LonDivisionOf(lon);
    EncodedDigits(lon, lat);
    LayoutLengths(MeshCodeOf(lon, lat), z.p, w.u, z.q, w.v, z.r, w.w, 2 * z.s + w.x + 1, w.y + 1);
  }

  /** Five codes laid out as the encoder lays them out have 4, 6, 8, 9 and 10 digits. */
  lemma LayoutLengths(c: MeshCode, p: int, u: int, q: int, v: int, r: int, w: int, m: int, n: int)
    requires 0 <= p <= 99 && 0 <= u <= 99 && 0 <= q <= 9 && 0 <= v <= 9 && 0 <= r <= 9 && 0 <= w <= 9 && 0 <= m <= 9 && 0 <= n <= 9
    requires c.first == [DigitChar(p / 10), DigitChar(p % 10), DigitChar(u / 10), DigitChar(u % 10)] &&
      c.secondary == c.first + [DigitChar(q), DigitChar(v)] &&
      c.standard == c.secondary + [DigitChar(r), DigitChar(w)] &&
      c.half == c.standard + [DigitChar(m)] &&
      c.quarter == c.half + [DigitChar(n)]
    ensures |c.first| == 4 && |c.secondary| == 6 && |c.standard| == 8 && |c.half| == 9 && |c.quarter| == 10 &&
      AllDigits(c.quarter)
  {
    assert forall k :: 0 <= k < |c.quarter| ==> c.quarter[k] in c.quarter;
  }

  /** The standard, half and quarter codes of the encoder, digit by digit. */
  lemma EncodedCodeDigits(lon: real, lat: real, z: LatDivision, w: LonDivision)
    requires CodeDomain(lon, lat) && z == LatDivisionOf(lat) && w == LonDivisionOf(lon)
    ensures StandardDigitsAre(MeshCodeOf(lon, lat).half, z.p, w.u, z.q, w.v, z.r, w.w) &&
      |MeshCodeOf(lon, lat).half| == 9 && MeshCodeOf(lon, lat).half[8] == DigitChar(2 * z.s + w.x + 1)
    ensures StandardDigitsAre(MeshCodeOf(lon, lat).quarter, z.p, w.u, z.q, w.v, z.r, w.w) &&
      |MeshCodeOf(lon, lat).quarter| == 10 && MeshCodeOf(lon, lat).quarter[8] == DigitChar(2 * z.s + w.x + 1) &&
      MeshCodeOf(lon, lat).quarter[9] == DigitChar(w.y + 1)
  {
    EncodedDigits(lon, lat);
    LayoutDigits(MeshCodeOf(lon, lat), z.p, w.u, z.q, w.v, z.r, w.w, 2 * z.s + w.x + 1, w.y + 1);
  }

  /** Five codes laid out as the encoder lays them out, read digit by digit. */
  lemma LayoutDigits(c: MeshCode, p: int, u: int, q: int, v: int, r: int, w: int, m: int, n: int)
    requires 0 <= p <= 99 && 0 <= u <= 99 && 0 <= q <= 9 && 0 <= v <= 9 && 0 <= r <= 9 && 0 <= w <= 9 && 0 <= m <= 9 && 0 <= n <= 9
    requires c.first == [DigitChar(p / 10), DigitChar(p % 10), DigitChar(u / 10), DigitChar(u % 10)] &&
      c.secondary == c.first + [DigitChar(q), DigitChar(v)] &&
      c.standard == c.secondary + [DigitChar(r), DigitChar(w)] &&
      c.half == c.standard + [DigitChar(m)] &&
      c.quarter == c.half + [DigitChar(n)]
    ensures StandardDigitsAre(c.half, p, u, q, v, r, w) && |c.half| == 9 && c.half[8] == DigitChar(m)
    ensures StandardDigitsAre(c.quarter, p, u, q, v, r, w) && |c.quarter| == 10 && c.quarter[8] == DigitChar(m) && c.quarter[9] == DigitChar(n)
  {
  }

  lemma IntAtTwo(code: string, i: nat, a: int, b: int)
    requires i + 2 <= |code| && 0 <= a <= 9 && 0 <= b <= 9
    requires code[i] == DigitChar(a) && code[i + 1] == DigitChar(b)
    ensures IntAt(code, i, i + 2) == Ok(10 * a + b)
  {
    assert Slice(code, i, i + 2) == [DigitChar(a), DigitChar(b)];
    ParseTwoDigits(a, b);
  }

  lemma IntAtOne(code: string, i: nat, a: int)
    requires i + 1 <= |code| && 0 <= a <= 9
    requires code[i] == DigitChar(a)
    ensures IntAt(code, i, i + 1) == Ok(a)
  {
    assert Slice(code, i, i + 1) == [DigitChar(a)];
    ParseOneDigit(a);
  }

  /** The first-level cell of a code that starts with the digits of p and u. */
  lemma DecodeFirstDigits(code: string, p: int, u: int)
    requires 0 <= p <= 99 && 0 <= u <= 99 && |code| >= 4
    requires code[0] == DigitChar(p / 10) && code[1] == DigitChar(p % 10) && code[2] == DigitChar(u / 10) && code[3] == DigitChar(u % 10)
    ensures DecodeFirst(code) == Ok(Bounds((u + 100) as real, p as real / 1.5, (u + 101) as real, (p + 1) as real / 1.5))
  {
    IntAtTwo(code, 0, p / 10, p % 10);
    IntAtTwo(code, 2, u / 10, u % 10);
  }

  /** The second-level cell, as the 1/8 by 1/12 degree grid cell of index (X, Y). */
  lemma DecodeSecondaryDigits(code: string, p: int, u: int, q: int, v: int)
    requires 0 <= p <= 99 && 0 <= u <= 99 && 0 <= q <= 9 && 0 <= v <= 9 && |code| >= 6
    requires code[0] == DigitChar(p / 10) && code[1] == DigitChar(p % 10) && code[2] == DigitChar(u / 10) && code[3] == DigitChar(u % 10)
    requires code[4] == DigitChar(q) && code[5] == DigitChar(v)
    ensures DecodeSecondary(code) == Ok(Bounds((8 * (u + 100) + v) as real / 8.0, (8 * p + q) as real / 12.0,
                                               (8 * (u + 100) + v + 1) as real / 8.0, (8 * p + q + 1) as real / 12.0))
  {
    DecodeFirstDigits(code, p, u);
    IntAtOne(code, 4, q);
    IntAtOne(code, 5, v);
  }

  /**
   * The first eight characters of `code` are the digits of p and u, two each, then
   * the digits q, v, r and w.
   */
  predicate StandardDigitsAre(code: string, p: int, u: int, q: int, v: int, r: int, w: int) {
    0 <= p <= 99 && 0 <= u <= 99 && 0 <= q <= 9 && 0 <= v <= 9 && 0 <= r <= 9 && 0 <= w <= 9 && |code| >= 8 &&
    code[0] == DigitChar(p / 10) && code[1] == DigitChar(p % 10) && code[2] == DigitChar(u / 10) && code[3] == DigitChar(u % 10) &&
    code[4] == DigitChar(q) && code[5] == DigitChar(v) && code[6] == DigitChar(r) && code[7] == DigitChar(w)
  }

  /** The standard cell, as the 1/80 by 1/120 degree grid cell of index (X, Y). */
  lemma DecodeStandardDigits(code: string, p: int, u: int, q: int, v: int, r: int, w: int)
    requires StandardDigitsAre(code, p, u, q, v, r, w)
    ensures DecodeStandard(code) == Ok(Bounds((80 * (u + 100) + 10 * v + w) as real / 80.0, (80 * p + 10 * q + r) as real / 120.0,
                                              (80 * (u + 100) + 10 * v + w + 1) as real / 80.0, (80 * p + 10 * q + r + 1) as real / 120.0))
  {
    DecodeSecondaryDigits(code, p, u, q, v);
    IntAtOne(code, 6, r);
    IntAtOne(code, 7, w);
  }

  /** Decoding the encoded first code gives the first-level grid cell of the point. */
  lemma DecodeEncodedFirst(lon: real, lat: real)
    requires CodeDomain(lon, lat)
    ensures DecodeFirst(MeshCodeOf(lon, lat).first) == Ok(GridCell(First, lon, lat))
  {
    var z, w := LatDivisionOf(lat), LonDivisionOf(lon);
    EncodedDigits(lon, lat);
    EncodedIndices(lon, lat);
    FirstOfIndices(MeshCodeOf(lon, lat).first, lon, lat, z.p, w.u);
  }

  lemma FirstOfIndices(code: string, lon: real, lat: real, p: int, u: int)
    requires 0 <= p <= 99 && 0 <= u <= 99
    requires code == [DigitChar(p / 10), DigitChar(p % 10), DigitChar(u / 10), DigitChar(u % 10)]
    requires lon.Floor == u + 100 && (lat * 1.5).Floor == p
    ensures DecodeFirst(code) == Ok(GridCell(First, lon, lat))
  {
    DecodeFirstDigits(code, p, u);
    assert lon * 1.0 == lon;
    GridCellAt(First, lon, lat, u + 100, p);
  }

  lemma DecodeEncodedSecondary(lon: real, lat: real)
    requires CodeDomain(lon, lat)
    ensures DecodeSecondary(MeshCodeOf(lon, lat).secondary) == Ok(GridCell(Secondary, lon, lat))
  {
    var z, w, c := LatDivisionOf(lat), LonDivisionOf(lon), MeshCodeOf(lon, lat);
    EncodedDigits(lon, lat);
    EncodedIndices(lon, lat);
    SecondaryOfIndices(c.secondary, lon, lat, z.p, w.u, z.q, w.v);
  }

  lemma SecondaryOfIndices(code: string, lon: real, lat: real, p: int, u: int, q: int, v: int)
    requires 0 <= p <= 99 && 0 <= u <= 99 && 0 <= q <= 9 && 0 <= v <= 9
    requires code == [DigitChar(p / 10), DigitChar(p % 10), DigitChar(u / 10), DigitChar(u % 10), DigitChar(q), DigitChar(v)]
    requires (lon * 8.0).Floor == 8 * (u + 100) + v && (lat * 12.0).Floor == 8 * p + q
    ensures DecodeSecondary(code) == Ok(GridCell(Secondary, lon, lat))
  {
    DecodeSecondaryDigits(code, p, u, q, v);
  }

  lemma DecodeEncodedStandard(lon: real, lat: real)
    requires CodeDomain(lon, lat)
    ensures DecodeStandard(MeshCodeOf(lon, lat).standard) == Ok(GridCell(Standard, lon, lat))
  {
    var z, w, c := LatDivisionOf(lat), LonDivisionOf(lon), MeshCodeOf(lon, lat);
    EncodedDigits(lon, lat);
    EncodedIndices(lon, lat);
    StandardOfIndices(c.standard, lon, lat, z.p, w.u, z.q, w.v, z.r, w.w);
  }

  lemma StandardOfIndices(code: string, lon: real, lat: real, p: int, u: int, q: int, v: int, r: int, w: int)
    requires 0 <= p <= 99 && 0 <= u <= 99 && 0 <= q <= 9 && 0 <= v <= 9 && 0 <= r <= 9 && 0 <= w <= 9
    requires code == [DigitChar(p / 10), DigitChar(p % 10), DigitChar(u / 10), DigitChar(u % 10),
                      DigitChar(q), DigitChar(v), DigitChar(r), DigitChar(w)]
    requires (lon * 80.0).Floor == 80 * (u + 100) + 10 * v + w && (lat * 120.0).Floor == 80 * p + 10 * q + r
    ensures DecodeStandard(code) == Ok(GridCell(Standard, lon, lat))
  {
    DecodeStandardDigits(code, p, u, q, v, r, w);
  }

  /** The half digit 2s + x + 1 names the quadrant (x, s) of the standard cell. */
  lemma HalfDigitQuadrant(s: int, x: int)
    requires 0 <= s <= 1 && 0 <= x <= 1
    ensures 1 <= 2 * s + x + 1 <= 4 && Quadrant(2 * s + x + 1) == Some((x, s))
  {
  }

  lemma DecodeEncodedHalf(lon: real, lat: real)
    requires CodeDomain(lon, lat)
    ensures DecodeHalf(MeshCodeOf(lon, lat).half) == Ok(GridCell(Half, lon, lat))
  {
    var z, w := LatDivisionOf(lat), LonDivisionOf(lon);
    EncodedCodeDigits(lon, lat, z, w);
    EncodedIndices(lon, lat);
    var i, j := 160 * (w.u + 100) + 20 * w.v + 2 * w.w + w.x, 160 * z.p + 20 * z.q + 2 * z.r + z.s;
    HalfOfIndices(MeshCodeOf(lon, lat).half, z.p, w.u, z.q, w.v, z.r, w.w, z.s, w.x, i, j);
    HalfCellAt(lon, lat, i, j);
  }

  lemma HalfOfIndices(code: string, p: int, u: int, q: int, v: int, r: int, w: int, s: int, x: int, i: int, j: int)
    requires StandardDigitsAre(code, p, u, q, v, r, w)
    requires 0 <= s <= 1 && 0 <= x <= 1 && |code| >= 9 && code[8] == DigitChar(2 * s + x + 1)
    requires i == 160 * (u + 100) + 20 * v + 2 * w + x && j == 160 * p + 20 * q + 2 * r + s
    ensures DecodeHalf(code) == Ok(Bounds(i as real / 160.0, j as real / 240.0, (i + 1) as real / 160.0, (j + 1) as real / 240.0))
  {
    HalfDigitQuadrant(s, x);
    DecodeHalfDigits(code, p, u, q, v, r, w, 2 * s + x + 1, x, s, i, j);
  }

  /** The half-level grid cell of index (i, j). */
  lemma HalfCellAt(lon: real, lat: real, i: int, j: int)
    requires (lon * 160.0).Floor == i && (lat * 240.0).Floor == j
    ensures GridCell(Half, lon, lat) == Bounds(i as real / 160.0, j as real / 240.0, (i + 1) as real / 160.0, (j + 1) as real / 240.0)
  {
    GridCellAt(Half, lon, lat, i, j);
  }

  /**
   * Decoding the encoded quarter code: the longitude side is the quarter-level grid
   * cell, but because the latitude bit t is always 0 the latitude side is always the
   * southern half of the point's half cell.
   */
  lemma DecodeEncodedQuarter(lon: real, lat: real)
    requires CodeDomain(lon, lat)
    ensures var g, h := GridCell(Quarter, lon, lat), GridCell(Half, lon, lat);
      DecodeQuarter(MeshCodeOf(lon, lat).quarter) == Ok(Bounds(g.x_min, h.y_min, g.x_max, h.y_min + 1.0 / 480.0))
  {
    var z, w := LatDivisionOf(lat), LonDivisionOf(lon);
    EncodedCodeDigits(lon, lat, z, w);
    EncodedIndices(lon, lat);
    var i, j := 320 * (w.u + 100) + 40 * w.v + 4 * w.w + 2 * w.x + w.y, 160 * z.p + 20 * z.q + 2 * z.r + z.s;
    QuarterOfIndices(MeshCodeOf(lon, lat).quarter, z.p, w.u, z.q, w.v, z.r, w.w, z.s, w.x, w.y, i, j);
    QuarterCellOf(DecodeQuarter(MeshCodeOf(lon, lat).quarter), lon, lat, i, j);
  }

  lemma QuarterOfIndices(code: string, p: int, u: int, q: int, v: int, r: int, w: int, s: int, x: int, y: int, i: int, j: int)
    requires StandardDigitsAre(code, p, u, q, v, r, w)
    requires 0 <= s <= 1 && 0 <= x <= 1 && 0 <= y <= 1 && |code| >= 10
    requires code[8] == DigitChar(2 * s + x + 1) && code[9] == DigitChar(y + 1)
    requires i == 320 * (u + 100) + 40 * v + 4 * w + 2 * x + y && j == 160 * p + 20 * q + 2 * r + s
    ensures DecodeQuarter(code) == Ok(Bounds(i as real / 320.0, (2 * j) as real / 480.0, (i + 1) as real / 320.0, (2 * j + 1) as real / 480.0))
  {
    HalfDigitQuadrant(s, x);
    HalfDigitQuadrant(0, y);
    DecodeQuarterDigits(code, p, u, q, v, r, w, 2 * s + x + 1, y + 1, x, s, y, 0, i, 2 * j);
  }

  lemma QuarterCellOf(d: Result<Bounds, DecodeError>, lon: real, lat: real, i: int, j: int)
    requires d == Ok(Bounds(i as real / 320.0, (2 * j) as real / 480.0, (i + 1) as real / 320.0, (2 * j + 1) as real / 480.0))
    requires (lon * 320.0).Floor == i && (lat * 240.0).Floor == j
    ensures var g, h := GridCell(Quarter, lon, lat), GridCell(Half, lon, lat);
      d == Ok(Bounds(g.x_min, h.y_min, g.x_max, h.y_min + 1.0 / 480.0))
  {
    QuarterBoundsOfIndices(lon, lat, i, j);
  }

  /**
   * The box of longitude index i at the quarter resolution and of the southern half of
   * the half-level row j.
   */
  lemma QuarterBoundsOfIndices(lon: real, lat: real, i: int, j: int)
    requires (lon * 320.0).Floor == i && (lat * 240.0).Floor == j
    ensures var g, h := GridCell(Quarter, lon, lat), GridCell(Half, lon, lat);
      Bounds(i as real / 320.0, (2 * j) as real / 480.0, (i + 1) as real / 320.0, (2 * j + 1) as real / 480.0)
      == Bounds(g.x_min, h.y_min, g.x_max, h.y_min + 1.0 / 480.0)
  {
    GridCellAt(Quarter, lon, lat, i, (lat * 480.0).Floor);
    GridCellAt(Half, lon, lat, (lon * 160.0).Floor, j);
  }

  /** The half cell of a code of digits, as the grid cell of index (X, Y) at 1/160 by 1/240 degree. */
  lemma DecodeHalfDigits(code: string, p: int, u: int, q: int, v: int, r: int, w: int, m: int, hx: int, hy: int, gx: int, gy: int)
    requires StandardDigitsAre(code, p, u, q, v, r, w)
    requires 0 <= m <= 9 && Quadrant(m) == Some((hx, hy)) && |code| >= 9 && code[8] == DigitChar(m)
    requires gx == 160 * (u + 100) + 20 * v + 2 * w + hx && gy == 160 * p + 20 * q + 2 * r + hy
    ensures DecodeHalf(code) == Ok(Bounds(gx as real / 160.0, gy as real / 240.0, (gx + 1) as real / 160.0, (gy + 1) as real / 240.0))
  {
    DecodeStandardDigits(code, p, u, q, v, r, w);
    IntAtOne(code, 8, m);
  }

  /** The quarter cell of a code of digits, as the grid cell of index (X, Y) at 1/320 by 1/480 degree. */
  lemma DecodeQuarterDigits(code: string, p: int, u: int, q: int, v: int, r: int, w: int, m: int, n: int,
                            hx: int, hy: int, qx: int, qy: int, gx: int, gy: int)
    requires StandardDigitsAre(code, p, u, q, v, r, w)
    requires 0 <= m <= 9 && Quadrant(m) == Some((hx, hy)) && 0 <= n <= 9 && Quadrant(n) == Some((qx, qy))
    requires |code| >= 10 && code[8] == DigitChar(m) && code[9] == DigitChar(n)
    requires gx == 320 * (u + 100) + 40 * v + 4 * w + 2 * hx + qx && gy == 320 * p + 40 * q + 4 * r + 2 * hy + qy
    ensures DecodeQuarter(code) == Ok(Bounds(gx as real / 320.0, gy as real / 480.0, (gx + 1) as real / 320.0, (gy + 1) as real / 480.0))
  {
    DecodeStandardDigits(code, p, u, q, v, r, w);
    IntAtOne(code, 8, m);
    IntAtOne(code, 9, n);
  }

  /** The index at double resolution is one of the two sub-indices of the index. */
  lemma FloorDouble(x: real)
    ensures var n := x.Floor; (x * 2.0).Floor == 2 * n || (x * 2.0).Floor == 2 * n + 1
  {
    var n := x.Floor;
    if x - n as real < 0.5 {
      FloorUnique(x * 2.0, 2 * n);
    } else {
      FloorUnique(x * 2.0, 2 * n + 1);
    }
  }

  /**
   * Membership: inside the domain, the encoded point lies in the decoded cell of each
   * of the first four levels, west and south edges included.
   */
  lemma EncodedInCell(l: Level, lon: real, lat: real)
    requires CodeDomain(lon, lat) && l != Quarter
    ensures var r := DecodeAt(l, CodeAt(l, MeshCodeOf(lon, lat)));
      r.Ok? && r.value.x_min <= lon < r.value.x_max && r.value.y_min <= lat < r.value.y_max
  {
    GridCellContains(l, lon, lat);
    match l
    case First => DecodeEncodedFirst(lon, lat);
    case Secondary => DecodeEncodedSecondary(lon, lat);
    case Standard => DecodeEncodedStandard(lon, lat);
    case Half => DecodeEncodedHalf(lon, lat);
  }

  /**
   * Membership at the quarter level: the longitude is always inside, the latitude is
   * inside exactly when the point lies in the southern half of its half cell, which is
   * when its latitude index at the quarter resolution is even.
   */
  lemma EncodedInQuarterCell(lon: real, lat: real)
    requires CodeDomain(lon, lat)
    ensures var r := DecodeQuarter(MeshCodeOf(lon, lat).quarter);
      r.Ok? && r.value.x_min <= lon < r.value.x_max && r.value.y_min <= lat &&
      (lat < r.value.y_max <==> (lat * 480.0).Floor % 2 == 0)
  {
    DecodeEncodedQuarter(lon, lat);
    QuarterCellSides(lon, lat);
  }

  /**
   * The decoded quarter cell of an encoded point is the quarter-level grid cell exactly
   * when the point lies in the southern half of its half cell.
   */
  lemma QuarterCellIsGridCell(lon: real, lat: real)
    requires CodeDomain(lon, lat)
    ensures DecodeQuarter(MeshCodeOf(lon, lat).quarter) == Ok(GridCell(Quarter, lon, lat)) <==> (lat * 480.0).Floor % 2 == 0
  {
    DecodeEncodedQuarter(lon, lat);
    QuarterCellSides(lon, lat);
  }

  /** The box the quarter decoder yields for a point, against the point and the grid cell. */
  lemma QuarterCellSides(lon: real, lat: real)
    ensures var g, h := GridCell(Quarter, lon, lat), GridCell(Half, lon, lat);
      var b := Bounds(g.x_min, h.y_min, g.x_max, h.y_min + 1.0 / 480.0);
      b.x_min <= lon < b.x_max && b.y_min <= lat &&
      (lat < b.y_max <==> (lat * 480.0).Floor % 2 == 0) &&
      (b == g <==> (lat * 480.0).Floor % 2 == 0)
  {
    var k, j := (lat * 240.0).Floor, (lat * 480.0).Floor;
    GridCellAt(Quarter, lon, lat, (lon * 320.0).Floor, j);
    GridCellAt(Half, lon, lat, (lon * 160.0).Floor, k);
    FloorBounds(lon * 320.0);
    QuarterLatSides(lat, k, j);
  }

  /** The half-cell row k against the quarter-resolution row j of the same latitude. */
  lemma QuarterLatSides(lat: real, k: int, j: int)
    requires k == (lat * 240.0).Floor && j == (lat * 480.0).Floor
    ensures k as real / 240.0 <= lat
    ensures lat < k as real / 240.0 + 1.0 / 480.0 <==> j % 2 == 0
    ensures k as real / 240.0 == j as real / 480.0 <==> j % 2 == 0
  {
    FloorDouble(lat * 240.0);
    assert lat * 240.0 * 2.0 == lat * 480.0;
    FloorBounds(lat * 240.0);
    FloorBounds(lat * 480.0);
  }

  /** `int(code[i:i+1])` succeeds exactly on a digit, and reads its value. */
  lemma IntAtSingle(code: string, i: nat)
    requires i < |code|
    ensures IntAt(code, i, i + 1).Ok? <==> IsDigit(code[i])
    ensures IsDigit(code[i]) ==> IntAt(code, i, i + 1) == Ok(DigitValue(code[i]))
  {
    assert Slice(code, i, i + 1) == [code[i]];
    ParseSingle(code[i]);
  }

  /**
   * Nesting of the second level in the first: when the second-level digits are at most
   * 7 (eight cells per side), the second-level cell lies inside the first-level cell of
   * the same code.
   */
  lemma SecondaryWithinFirst(code: string)
    requires DecodeSecondary(code).Ok? && |code| >= 6 && code[4] <= '7' && code[5] <= '7'
    ensures DecodeFirst(code).Ok? && Within(DecodeSecondary(code).value, DecodeFirst(code).value)
  {
    IntAtSingle(code, 4);
    IntAtSingle(code, 5);
  }

  /** Nesting of the standard level in the second: ten digits per side always fit. */
  lemma StandardWithinSecondary(code: string)
    requires DecodeStandard(code).Ok?
    ensures DecodeSecondary(code).Ok? && Within(DecodeStandard(code).value, DecodeSecondary(code).value)
  {
    assert |code| >= 8 by {
      assert ParseInt(Slice(code, 7, 8)).Some?;
    }
    IntAtSingle(code, 4);
    IntAtSingle(code, 5);
    IntAtSingle(code, 6);
    IntAtSingle(code, 7);
  }

  /** Nesting of the half level in the standard level. */
  lemma HalfWithinStandard(code: string)
    requires DecodeHalf(code).Ok?
    ensures DecodeStandard(code).Ok? && Within(DecodeHalf(code).value, DecodeStandard(code).value)
  {
    QuadrantBits(IntAt(code, 8, 9).value);
  }

  /** Nesting of the quarter level in the half level. */
  lemma QuarterWithinHalf(code: string)
    requires DecodeQuarter(code).Ok?
    ensures DecodeHalf(code).Ok? && Within(DecodeQuarter(code).value, DecodeHalf(code).value)
  {
    var h, n := IntAt(code, 8, 9).value, IntAt(code, 9, 10).value;
    QuadrantBits(h);
    QuadrantBits(n);
  }

  /** The two bits of a quadrant digit. */
  lemma QuadrantBits(d: int)
    requires 1 <= d <= 4
    ensures 0 <= Quadrant(d).value.0 <= 1 && 0 <= Quadrant(d).value.1 <= 1
  {
  }

  /**
   * The half digit is checked against the table after the standard cell is decoded:
   * with a decodable standard part and a digit in ninth place, decoding fails exactly
   * when the digit is not 1 to 4, and then with that digit.
   */
  lemma HalfDigitError(code: string)
    requires DecodeStandard(code).Ok? && |code| >= 9 && IsDigit(code[8])
    ensures DecodeHalf(code).Ok? <==> '1' <= code[8] <= '4'
    ensures DecodeHalf(code).Err? ==> DecodeHalf(code).error == InvalidHalfCode(DigitValue(code[8]))
  {
    IntAtSingle(code, 8);
  }

  /** The quarter decoder checks the ninth digit first, then the tenth. */
  lemma QuarterDigitError(code: string)
    requires DecodeStandard(code).Ok? && |code| >= 10 && IsDigit(code[8]) && IsDigit(code[9])
    ensures DecodeQuarter(code).Ok? <==> '1' <= code[8] <= '4' && '1' <= code[9] <= '4'
    ensures !('1' <= code[8] <= '4') ==> DecodeQuarter(code) == Err(InvalidHalfCode(DigitValue(code[8])))
    ensures '1' <= code[8] <= '4' && !('1' <= code[9] <= '4') ==> DecodeQuarter(code) == Err(InvalidQuarterCode(DigitValue(code[9])))
  {
    IntAtSingle(code, 8);
    IntAtSingle(code, 9);
  }

  lemma CoarsenBy2(t: real, a: int, d: int)
    requires 0 <= d <= 1 && (t * 2.0).Floor == 2 * a + d
    ensures t.Floor == a
  {
    FloorBounds(t * 2.0);
    FloorUnique(t, a);
  }

  lemma CoarsenBy8(t: real, a: int, d: int)
    requires 0 <= d <= 7 && (t * 8.0).Floor == 8 * a + d
    ensures t.Floor == a
  {
    FloorBounds(t * 8.0);
    FloorUnique(t, a);
  }

  lemma CoarsenBy10(t: real, a: int, d: int)
    requires 0 <= d <= 9 && (t * 10.0).Floor == 10 * a + d
    ensures t.Floor == a
  {
    FloorBounds(t * 10.0);
    FloorUnique(t, a);
  }

  /** From the standard index of a point, the first and second level indices. */
  lemma StandardIndexFloors(lon: real, lat: real, p: int, u: int, q: int, v: int, r: int, w: int)
    requires 0 <= q <= 7 && 0 <= v <= 7 && 0 <= r <= 9 && 0 <= w <= 9
    requires (lon * 80.0).Floor == 80 * (u + 100) + 10 * v + w && (lat * 120.0).Floor == 80 * p + 10 * q + r
    ensures (lon * 8.0).Floor == 8 * (u + 100) + v && lon.Floor == u + 100
    ensures (lat * 12.0).Floor == 8 * p + q && (lat * 1.5).Floor == p
  {
    assert lon * 8.0 * 10.0 == lon * 80.0 && lat * 12.0 * 10.0 == lat * 120.0;
    CoarsenBy10(lon * 8.0, 8 * (u + 100) + v, w);
    CoarsenBy10(lat * 12.0, 8 * p + q, r);
    SecondaryIndexFloors(lon, lat, p, u, q, v);
  }

  lemma SecondaryIndexFloors(lon: real, lat: real, p: int, u: int, q: int, v: int)
    requires 0 <= q <= 7 && 0 <= v <= 7
    requires (lon * 8.0).Floor == 8 * (u + 100) + v && (lat * 12.0).Floor == 8 * p + q
    ensures lon.Floor == u + 100 && (lat * 1.5).Floor == p
  {
    assert lat * 1.5 * 8.0 == lat * 12.0;
    CoarsenBy8(lon, u + 100, v);
    CoarsenBy8(lat * 1.5, p, q);
  }

  /** The encoder's half code of a point whose grid indices have the given digits. */
  lemma EncodedHalfOfIndices(lon: real, lat: real, p: int, u: int, q: int, v: int, r: int, w: int, s: int, x: int)
    requires 10 <= p <= 99 && 10 <= u <= 99 && 0 <= q <= 7 && 0 <= v <= 7 && 0 <= r <= 9 && 0 <= w <= 9
    requires 0 <= s <= 1 && 0 <= x <= 1
    requires (lon * 160.0).Floor == 160 * (u + 100) + 20 * v + 2 * w + x
    requires (lat * 240.0).Floor == 160 * p + 20 * q + 2 * r + s
    ensures CodeDomain(lon, lat)
    ensures MeshCodeOf(lon, lat).half == [DigitChar(p / 10), DigitChar(p % 10), DigitChar(u / 10), DigitChar(u % 10),
                                          DigitChar(q), DigitChar(v), DigitChar(r), DigitChar(w), DigitChar(2 * s + x + 1)]
  {
    HalfIndexFloors(lon, lat, p, u, q, v, r, w, s, x);
    EncodedIndices(lon, lat);
    EncodedDigits(lon, lat);
  }

  lemma HalfIndexFloors(lon: real, lat: real, p: int, u: int, q: int, v: int, r: int, w: int, s: int, x: int)
    requires 0 <= q <= 7 && 0 <= v <= 7 && 0 <= r <= 9 && 0 <= w <= 9 && 0 <= s <= 1 && 0 <= x <= 1
    requires (lon * 160.0).Floor == 160 * (u + 100) + 20 * v + 2 * w + x
    requires (lat * 240.0).Floor == 160 * p + 20 * q + 2 * r + s
    ensures (lon * 80.0).Floor == 80 * (u + 100) + 10 * v + w && (lat * 120.0).Floor == 80 * p + 10 * q + r
    ensures (lon * 8.0).Floor == 8 * (u + 100) + v && lon.Floor == u + 100
    ensures (lat * 12.0).Floor == 8 * p + q && (lat * 1.5).Floor == p
  {
    assert lon * 80.0 * 2.0 == lon * 160.0 && lat * 120.0 * 2.0 == lat * 240.0;
    CoarsenBy2(lon * 80.0, 80 * (u + 100) + 10 * v + w, x);
    CoarsenBy2(lat * 120.0, 80 * p + 10 * q + r, s);
    StandardIndexFloors(lon, lat, p, u, q, v, r, w);
  }

  /**
   * The converse of membership at the half level: every point of the decoded cell of a
   * well-formed half code, west and south edges included, is encoded to that code.
   */
  lemma HalfCellEncodes(code: string, lon: real, lat: real)
    requires WellFormedCode(code) && |code| == 9
    requires DecodeHalf(code).Ok? && InCell(DecodeHalf(code).value, lon, lat)
    ensures MeshCodeOf(lon, lat).half == code
  {
    var p := 10 * DigitValue(code[0]) + DigitValue(code[1]);
    var u := 10 * DigitValue(code[2]) + DigitValue(code[3]);
    var q, v, r, w := DigitValue(code[4]), DigitValue(code[5]), DigitValue(code[6]), DigitValue(code[7]);
    var m := DigitValue(code[8]);
    var s, x := (m - 1) / 2, (m - 1) % 2;
    HalfCellFloors(code, lon, lat, p, u, q, v, r, w, m, s, x);
    EncodedHalfOfIndices(lon, lat, p, u, q, v, r, w, s, x);
  }

  /** A well-formed half code with leading pairs p and u, digits q, v, r and w, and quadrant digit m. */
  predicate HalfCodeAt(code: string, p: int, u: int, q: int, v: int, r: int, w: int, m: int) {
    WellFormedCode(code) && |code| == 9 &&
    p == 10 * DigitValue(code[0]) + DigitValue(code[1]) && u == 10 * DigitValue(code[2]) + DigitValue(code[3]) &&
    q == DigitValue(code[4]) && v == DigitValue(code[5]) && r == DigitValue(code[6]) && w == DigitValue(code[7]) &&
    m == DigitValue(code[8])
  }

  /** A well-formed half code is the text of its own digits. */
  lemma HalfText(code: string, p: int, u: int, q: int, v: int, r: int, w: int, m: int, s: int, x: int)
    requires HalfCodeAt(code, p, u, q, v, r, w, m)
    requires s == (m - 1) / 2 && x == (m - 1) % 2
    ensures [DigitChar(p / 10), DigitChar(p % 10), DigitChar(u / 10), DigitChar(u % 10),
              DigitChar(q), DigitChar(v), DigitChar(r), DigitChar(w), DigitChar(2 * s + x + 1)] == code
  {
    DigitsOfCode(code, 9);
    TwoDigits(DigitValue(code[0]), DigitValue(code[1]));
    TwoDigits(DigitValue(code[2]), DigitValue(code[3]));
  }

  /** The grid indices of a point of the decoded cell of a well-formed half code, and the code's text. */
  lemma HalfCellFloors(code: string, lon: real, lat: real, p: int, u: int, q: int, v: int, r: int, w: int, m: int, s: int, x: int)
    requires HalfCodeAt(code, p, u, q, v, r, w, m)
    requires s == (m - 1) / 2 && x == (m - 1) % 2
    requires DecodeHalf(code).Ok? && InCell(DecodeHalf(code).value, lon, lat)
    ensures 10 <= p <= 99 && 10 <= u <= 99 && 0 <= q <= 7 && 0 <= v <= 7 && 0 <= r <= 9 && 0 <= w <= 9
    ensures 0 <= s <= 1 && 0 <= x <= 1
    ensures (lon * 160.0).Floor == 160 * (u + 100) + 20 * v + 2 * w + x
    ensures (lat * 240.0).Floor == 160 * p + 20 * q + 2 * r + s
    ensures [DigitChar(p / 10), DigitChar(p % 10), DigitChar(u / 10), DigitChar(u % 10),
              DigitChar(q), DigitChar(v), DigitChar(r), DigitChar(w), DigitChar(2 * s + x + 1)] == code
  {
    HalfText(code, p, u, q, v, r, w, m, s, x);
    CodeDigits(code, p, u);
    QuadrantOffsets(m);
    var gx := 160 * (u + 100) + 20 * v + 2 * w + x;
    var gy := 160 * p + 20 * q + 2 * r + s;
    DecodeHalfDigits(code, p, u, q, v, r, w, m, x, s, gx, gy);
    FloorUnique(lon * 160.0, gx);
    FloorUnique(lat * 240.0, gy);
  }

  /**
   * The digits of a well-formed code: the leading pairs p and u, read back as digits, and
   * the ranges of the other digits.
   */
  lemma CodeDigits(code: string, p: int, u: int)
    requires WellFormedCode(code)
    requires p == 10 * DigitValue(code[0]) + DigitValue(code[1]) && u == 10 * DigitValue(code[2]) + DigitValue(code[3])
    ensures 10 <= p <= 99 && 10 <= u <= 99
    ensures code[0] == DigitChar(p / 10) && code[1] == DigitChar(p % 10) && code[2] == DigitChar(u / 10) && code[3] == DigitChar(u % 10)
    ensures forall k :: 0 <= k < |code| ==> code[k] == DigitChar(DigitValue(code[k]))
    ensures |code| >= 6 ==> DigitValue(code[4]) <= 7 && DigitValue(code[5]) <= 7
    ensures |code| >= 9 ==> 1 <= DigitValue(code[8]) <= 4
    ensures |code| >= 10 ==> 1 <= DigitValue(code[9]) <= 4
  {
    DigitsOfCode(code, |code|);
    TwoDigits(DigitValue(code[0]), DigitValue(code[1]));
    TwoDigits(DigitValue(code[2]), DigitValue(code[3]));
  }

  lemma TwoDigits(a: int, b: int)
    requires 0 <= a <= 9 && 0 <= b <= 9
    ensures (10 * a + b) / 10 == a && (10 * a + b) % 10 == b
  {
  }

  /** A code of decimal digits is the text of its digit values. */
  lemma DigitsOfCode(code: string, n: nat)
    requires n <= |code| && AllDigits(code)
    ensures forall k :: 0 <= k < n ==> DigitChar(DigitValue(code[k])) == code[k]
  {
  }

  lemma EncodedFirstOfIndices(lon: real, lat: real, p: int, u: int)
    requires 10 <= p <= 99 && 10 <= u <= 99
    requires lon.Floor == u + 100 && (lat * 1.5).Floor == p
    ensures CodeDomain(lon, lat)
    ensures MeshCodeOf(lon, lat).first == [DigitChar(p / 10), DigitChar(p % 10), DigitChar(u / 10), DigitChar(u % 10)]
  {
    EncodedIndices(lon, lat);
    EncodedDigits(lon, lat);
  }

  lemma EncodedSecondaryOfIndices(lon: real, lat: real, p: int, u: int, q: int, v: int)
    requires 10 <= p <= 99 && 10 <= u <= 99 && 0 <= q <= 7 && 0 <= v <= 7
    requires (lon * 8.0).Floor == 8 * (u + 100) + v && (lat * 12.0).Floor == 8 * p + q
    ensures CodeDomain(lon, lat)
    ensures MeshCodeOf(lon, lat).secondary == [DigitChar(p / 10), DigitChar(p % 10), DigitChar(u / 10), DigitChar(u % 10),
                                               DigitChar(q), DigitChar(v)]
  {
    SecondaryIndexFloors(lon, lat, p, u, q, v);
    EncodedIndices(lon, lat);
    EncodedDigits(lon, lat);
  }

  lemma EncodedStandardOfIndices(lon: real, lat: real, p: int, u: int, q: int, v: int, r: int, w: int)
    requires 10 <= p <= 99 && 10 <= u <= 99 && 0 <= q <= 7 && 0 <= v <= 7 && 0 <= r <= 9 && 0 <= w <= 9
    requires (lon * 80.0).Floor == 80 * (u + 100) + 10 * v + w && (lat * 120.0).Floor == 80 * p + 10 * q + r
    ensures CodeDomain(lon, lat)
    ensures MeshCodeOf(lon, lat).standard == [DigitChar(p / 10), DigitChar(p % 10), DigitChar(u / 10), DigitChar(u % 10),
                                              DigitChar(q), DigitChar(v), DigitChar(r), DigitChar(w)]
  {
    StandardIndexFloors(lon, lat, p, u, q, v, r, w);
    EncodedIndices(lon, lat);
    EncodedDigits(lon, lat);
  }

  /**
   * The quarter-resolution grid indices of (lon, lat) are made of the digits p and u of
   * the first level, q, v, r and w of the second and standard levels, and the bits s, x,
   * y and t of the half and quarter levels.
   */
  predicate QuarterIndicesAre(lon: real, lat: real, p: int, u: int, q: int, v: int, r: int, w: int, s: int, x: int, y: int, t: int) {
    10 <= p <= 99 && 10 <= u <= 99 && 0 <= q <= 7 && 0 <= v <= 7 && 0 <= r <= 9 && 0 <= w <= 9 &&
    0 <= s <= 1 && 0 <= x <= 1 && 0 <= y <= 1 && 0 <= t <= 1 &&
    (lon * 320.0).Floor == 320 * (u + 100) + 40 * v + 4 * w + 2 * x + y &&
    (lat * 480.0).Floor == 2 * (160 * p + 20 * q + 2 * r + s) + t
  }

  lemma EncodedQuarterOfIndices(lon: real, lat: real, p: int, u: int, q: int, v: int, r: int, w: int, s: int, x: int, y: int, t: int)
    requires QuarterIndicesAre(lon, lat, p, u, q, v, r, w, s, x, y, t)
    ensures CodeDomain(lon, lat)
    ensures MeshCodeOf(lon, lat).quarter == [DigitChar(p / 10), DigitChar(p % 10), DigitChar(u / 10), DigitChar(u % 10),
                                             DigitChar(q), DigitChar(v), DigitChar(r), DigitChar(w), DigitChar(2 * s + x + 1),
                                             DigitChar(y + 1)]
  {
    var z, d := LatDivisionOf(lat), LonDivisionOf(lon);
    DivisionsOfIndices(lon, lat, p, u, q, v, r, w, s, x, y, t, z, d);
    EncodedDigits(lon, lat);
    QuarterLayout(MeshCodeOf(lon, lat), z.p, d.u, z.q, d.v, z.r, d.w, 2 * z.s + d.x + 1, d.y + 1);
  }

  /** The divisions of a point are the digits its quarter-resolution grid indices are made of. */
  lemma DivisionsOfIndices(lon: real, lat: real, p: int, u: int, q: int, v: int, r: int, w: int, s: int, x: int, y: int, t: int,
                           z: LatDivision, d: LonDivision)
    requires QuarterIndicesAre(lon, lat, p, u, q, v, r, w, s, x, y, t)
    requires z == LatDivisionOf(lat) && d == LonDivisionOf(lon)
    ensures CodeDomain(lon, lat)
    ensures z.p == p && z.q == q && z.r == r && z.s == s && d.u == u && d.v == v && d.w == w && d.x == x && d.y == y
  {
    assert lon * 160.0 * 2.0 == lon * 320.0;
    CoarsenBy2(lon * 160.0, 160 * (u + 100) + 20 * v + 2 * w + x, y);
    HalveLatitudeIndex(lat, 160 * p + 20 * q + 2 * r + s, t);
    HalfIndexFloors(lon, lat, p, u, q, v, r, w, s, x);
    EncodedIndices(lon, lat);
  }

  /** The quarter code of five codes laid out as the encoder lays them out. */
  lemma QuarterLayout(c: MeshCode, p: int, u: int, q: int, v: int, r: int, w: int, m: int, n: int)
    requires 0 <= p <= 99 && 0 <= u <= 99 && 0 <= q <= 9 && 0 <= v <= 9 && 0 <= r <= 9 && 0 <= w <= 9 && 0 <= m <= 9 && 0 <= n <= 9
    requires c.first == [DigitChar(p / 10), DigitChar(p % 10), DigitChar(u / 10), DigitChar(u % 10)] &&
      c.secondary == c.first + [DigitChar(q), DigitChar(v)] &&
      c.standard == c.secondary + [DigitChar(r), DigitChar(w)] &&
      c.half == c.standard + [DigitChar(m)] &&
      c.quarter == c.half + [DigitChar(n)]
    ensures c.quarter == [DigitChar(p / 10), DigitChar(p % 10), DigitChar(u / 10), DigitChar(u % 10),
                          DigitChar(q), DigitChar(v), DigitChar(r), DigitChar(w), DigitChar(m), DigitChar(n)]
  {
  }

  lemma FirstCellFloors(code: string, lon: real, lat: real, p: int, u: int)
    requires WellFormedCode(code) && |code| == 4
    requires p == 10 * DigitValue(code[0]) + DigitValue(code[1]) && u == 10 * DigitValue(code[2]) + DigitValue(code[3])
    requires DecodeFirst(code).Ok? && InCell(DecodeFirst(code).value, lon, lat)
    ensures lon.Floor == u + 100 && (lat * 1.5).Floor == p
  {
    CodeDigits(code, p, u);
    DecodeFirstDigits(code, p, u);
    FloorUnique(lon, u + 100);
    FloorUnique(lat * 1.5, p);
  }

  lemma SecondaryCellFloors(code: string, lon: real, lat: real, p: int, u: int)
    requires WellFormedCode(code) && |code| == 6
    requires p == 10 * DigitValue(code[0]) + DigitValue(code[1]) && u == 10 * DigitValue(code[2]) + DigitValue(code[3])
    requires DecodeSecondary(code).Ok? && InCell(DecodeSecondary(code).value, lon, lat)
    ensures (lon * 8.0).Floor == 8 * (u + 100) + DigitValue(code[5]) && (lat * 12.0).Floor == 8 * p + DigitValue(code[4])
  {
    CodeDigits(code, p, u);
    DecodeSecondaryDigits(code, p, u, DigitValue(code[4]), DigitValue(code[5]));
    FloorUnique(lon * 8.0, 8 * (u + 100) + DigitValue(code[5]));
    FloorUnique(lat * 12.0, 8 * p + DigitValue(code[4]));
  }

  lemma StandardCellFloors(code: string, lon: real, lat: real, p: int, u: int)
    requires WellFormedCode(code) && |code| == 8
    requires p == 10 * DigitValue(code[0]) + DigitValue(code[1]) && u == 10 * DigitValue(code[2]) + DigitValue(code[3])
    requires DecodeStandard(code).Ok? && InCell(DecodeStandard(code).value, lon, lat)
    ensures (lon * 80.0).Floor == 80 * (u + 100) + 10 * DigitValue(code[5]) + DigitValue(code[7])
    ensures (lat * 120.0).Floor == 80 * p + 10 * DigitValue(code[4]) + DigitValue(code[6])
  {
    CodeDigits(code, p, u);
    DecodeStandardDigits(code, p, u, DigitValue(code[4]), DigitValue(code[5]), DigitValue(code[6]), DigitValue(code[7]));
    FloorUnique(lon * 80.0, 80 * (u + 100) + 10 * DigitValue(code[5]) + DigitValue(code[7]));
    FloorUnique(lat * 120.0, 80 * p + 10 * DigitValue(code[4]) + DigitValue(code[6]));
  }

  lemma QuarterCellFloors(code: string, lon: real, lat: real, p: int, u: int, q: int, v: int, r: int, w: int, m: int, n: int,
                          s: int, x: int, y: int, t: int)
    requires QuarterCodeAt(code, p, u, q, v, r, w, m, n)
    requires s == (m - 1) / 2 && x == (m - 1) % 2 && y == (n - 1) % 2 && t == (n - 1) / 2
    requires DecodeQuarter(code).Ok? && InCell(DecodeQuarter(code).value, lon, lat)
    ensures QuarterIndicesAre(lon, lat, p, u, q, v, r, w, s, x, y, t)
    ensures [DigitChar(p / 10), DigitChar(p % 10), DigitChar(u / 10), DigitChar(u % 10),
              DigitChar(q), DigitChar(v), DigitChar(r), DigitChar(w), DigitChar(2 * s + x + 1), DigitChar(y + 1)] == code[..9] + [DigitChar(y + 1)]
  {
    QuarterText(code, p, u, q, v, r, w, m, n, s, x, y);
    CodeDigits(code, p, u);
    QuadrantOffsets(m);
    QuadrantOffsets(n);
    var gx := 320 * (u + 100) + 40 * v + 4 * w + 2 * x + y;
    var gy := 2 * (160 * p + 20 * q + 2 * r + s) + t;
    DecodeQuarterDigits(code, p, u, q, v, r, w, m, n, x, s, y, t, gx, gy);
    IndexOfGridPoint(DecodeQuarter(code).value, lon, lat, gx, gy);
  }

  /** A point of the grid cell of index (gx, gy) at 1/320 by 1/480 degree has that index. */
  lemma IndexOfGridPoint(b: Bounds, lon: real, lat: real, gx: int, gy: int)
    requires b == Bounds(gx as real / 320.0, gy as real / 480.0, (gx + 1) as real / 320.0, (gy + 1) as real / 480.0)
    requires b.x_min <= lon < b.x_max && b.y_min <= lat < b.y_max
    ensures (lon * 320.0).Floor == gx && (lat * 480.0).Floor == gy
  {
    FloorUnique(lon * 320.0, gx);
    FloorUnique(lat * 480.0, gy);
  }

  lemma HalveLatitudeIndex(lat: real, a: int, d: int)
    requires 0 <= d <= 1 && (lat * 480.0).Floor == 2 * a + d
    ensures (lat * 240.0).Floor == a
  {
    assert lat * 240.0 * 2.0 == lat * 480.0;
    CoarsenBy2(lat * 240.0, a, d);
  }

  lemma FirstText(code: string, t: string, p: int, u: int)
    requires |code| == 4 && AllDigits(code)
    requires p == 10 * DigitValue(code[0]) + DigitValue(code[1]) && u == 10 * DigitValue(code[2]) + DigitValue(code[3])
    requires t == [DigitChar(p / 10), DigitChar(p % 10), DigitChar(u / 10), DigitChar(u % 10)]
    ensures t == code
  {
    DigitsOfCode(code, 4);
    TwoDigits(DigitValue(code[0]), DigitValue(code[1]));
    TwoDigits(DigitValue(code[2]), DigitValue(code[3]));
  }

  lemma SecondaryText(code: string, t: string, p: int, u: int)
    requires |code| == 6 && AllDigits(code)
    requires p == 10 * DigitValue(code[0]) + DigitValue(code[1]) && u == 10 * DigitValue(code[2]) + DigitValue(code[3])
    requires t == [DigitChar(p / 10), DigitChar(p % 10), DigitChar(u / 10), DigitChar(u % 10),
                   DigitChar(DigitValue(code[4])), DigitChar(DigitValue(code[5]))]
    ensures t == code
  {
    DigitsOfCode(code, 6);
    TwoDigits(DigitValue(code[0]), DigitValue(code[1]));
    TwoDigits(DigitValue(code[2]), DigitValue(code[3]));
  }

  lemma StandardText(code: string, t: string, p: int, u: int)
    requires |code| == 8 && AllDigits(code)
    requires p == 10 * DigitValue(code[0]) + DigitValue(code[1]) && u == 10 * DigitValue(code[2]) + DigitValue(code[3])
    requires t == [DigitChar(p / 10), DigitChar(p % 10), DigitChar(u / 10), DigitChar(u % 10),
                   DigitChar(DigitValue(code[4])), DigitChar(DigitValue(code[5])), DigitChar(DigitValue(code[6])), DigitChar(DigitValue(code[7]))]
    ensures t == code
  {
    DigitsOfCode(code, 8);
    TwoDigits(DigitValue(code[0]), DigitValue(code[1]));
    TwoDigits(DigitValue(code[2]), DigitValue(code[3]));
  }

  lemma QuarterText(code: string, p: int, u: int, q: int, v: int, r: int, w: int, m: int, n: int, s: int, x: int, y: int)
    requires QuarterCodeAt(code, p, u, q, v, r, w, m, n)
    requires s == (m - 1) / 2 && x == (m - 1) % 2 && y == (n - 1) % 2
    ensures [DigitChar(p / 10), DigitChar(p % 10), DigitChar(u / 10), DigitChar(u % 10),
              DigitChar(q), DigitChar(v), DigitChar(r), DigitChar(w), DigitChar(2 * s + x + 1), DigitChar(y + 1)] == code[..9] + [DigitChar(y + 1)]
  {
    DigitsOfCode(code, 10);
    TwoDigits(DigitValue(code[0]), DigitValue(code[1]));
    TwoDigits(DigitValue(code[2]), DigitValue(code[3]));
  }

  /** Clearing the latitude bit of a quadrant digit changes the code exactly for digits 3 and 4. */
  lemma QuarterDigitBack(code: string, c: string, n: int, y: int)
    requires |code| == 10 && '1' <= code[9] <= '4' && n == DigitValue(code[9]) && y == (n - 1) % 2
    requires c == code[..9] + [DigitChar(y + 1)]
    ensures c == code[..9] + [DigitChar((DigitValue(code[9]) - 1) % 2 + 1)]
    ensures c == code <==> code[9] <= '2'
  {
    assert code == code[..9] + [code[9]];
    assert c[9] == DigitChar((DigitValue(code[9]) - 1) % 2 + 1);
  }

  /** The converse of membership at the first level. */
  lemma FirstCellEncodes(code: string, lon: real, lat: real)
    requires WellFormedCode(code) && |code| == 4
    requires DecodeFirst(code).Ok? && InCell(DecodeFirst(code).value, lon, lat)
    ensures MeshCodeOf(lon, lat).first == code
  {
    var p := 10 * DigitValue(code[0]) + DigitValue(code[1]);
    var u := 10 * DigitValue(code[2]) + DigitValue(code[3]);
    FirstCellFloors(code, lon, lat, p, u);
    CodeDigits(code, p, u);
    EncodedFirstOfIndices(lon, lat, p, u);
    FirstText(code, MeshCodeOf(lon, lat).first, p, u);
  }

  /** The converse of membership at the second level. */
  lemma SecondaryCellEncodes(code: string, lon: real, lat: real)
    requires WellFormedCode(code) && |code| == 6
    requires DecodeSecondary(code).Ok? && InCell(DecodeSecondary(code).value, lon, lat)
    ensures MeshCodeOf(lon, lat).secondary == code
  {
    var p := 10 * DigitValue(code[0]) + DigitValue(code[1]);
    var u := 10 * DigitValue(code[2]) + DigitValue(code[3]);
    SecondaryCellFloors(code, lon, lat, p, u);
    CodeDigits(code, p, u);
    EncodedSecondaryOfIndices(lon, lat, p, u, DigitValue(code[4]), DigitValue(code[5]));
    SecondaryText(code, MeshCodeOf(lon, lat).secondary, p, u);
  }

  /** The converse of membership at the standard level. */
  lemma StandardCellEncodes(code: string, lon: real, lat: real)
    requires WellFormedCode(code) && |code| == 8
    requires DecodeStandard(code).Ok? && InCell(DecodeStandard(code).value, lon, lat)
    ensures MeshCodeOf(lon, lat).standard == code
  {
    var p := 10 * DigitValue(code[0]) + DigitValue(code[1]);
    var u := 10 * DigitValue(code[2]) + DigitValue(code[3]);
    StandardCellFloors(code, lon, lat, p, u);
    CodeDigits(code, p, u);
    EncodedStandardOfIndices(lon, lat, p, u, DigitValue(code[4]), DigitValue(code[5]), DigitValue(code[6]), DigitValue(code[7]));
    StandardText(code, MeshCodeOf(lon, lat).standard, p, u);
  }

  /**
   * Decoding then encoding at the quarter level: every point of the decoded cell of a
   * well-formed quarter code is encoded to that code with its latitude bit cleared, so a
   * northern quarter (digit 3 or 4) comes back as the southern one (digit 1 or 2).
   */
  lemma QuarterCellEncodes(code: string, lon: real, lat: real)
    requires WellFormedCode(code) && |code| == 10
    requires DecodeQuarter(code).Ok? && InCell(DecodeQuarter(code).value, lon, lat)
    ensures MeshCodeOf(lon, lat).quarter == code[..9] + [DigitChar((DigitValue(code[9]) - 1) % 2 + 1)]
    ensures MeshCodeOf(lon, lat).quarter == code <==> code[9] <= '2'
  {
    assert '1' <= code[9] <= '4';
    var p := 10 * DigitValue(code[0]) + DigitValue(code[1]);
    var u := 10 * DigitValue(code[2]) + DigitValue(code[3]);
    var q, v, r, w := DigitValue(code[4]), DigitValue(code[5]), DigitValue(code[6]), DigitValue(code[7]);
    var m, n := DigitValue(code[8]), DigitValue(code[9]);
    var s, x, y, t := (m - 1) / 2, (m - 1) % 2, (n - 1) % 2, (n - 1) / 2;
    QuarterCellFloors(code, lon, lat, p, u, q, v, r, w, m, n, s, x, y, t);
    EncodedQuarterOfIndices(lon, lat, p, u, q, v, r, w, s, x, y, t);
    QuarterDigitBack(code, MeshCodeOf(lon, lat).quarter, n, y);
  }

  /** A well-formed quarter code with leading pairs p and u, digits q, v, r and w, and quadrant digits m and n. */
  predicate QuarterCodeAt(code: string, p: int, u: int, q: int, v: int, r: int, w: int, m: int, n: int) {
    WellFormedCode(code) && |code| == 10 &&
    p == 10 * DigitValue(code[0]) + DigitValue(code[1]) && u == 10 * DigitValue(code[2]) + DigitValue(code[3]) &&
    q == DigitValue(code[4]) && v == DigitValue(code[5]) && r == DigitValue(code[6]) && w == DigitValue(code[7]) &&
    m == DigitValue(code[8]) && n == DigitValue(code[9])
  }

  /** The Hokkaido prefectural office, 141.3469 E 43.0643 N, lies in quarter mesh 6441427742. */
  lemma HokkaidoQuarterCode()
    ensures MeshCodeOf(141.3469, 43.0643).quarter == "6441427742"
  {
    var lon, lat := 141.3469, 43.0643;
    FloorUnique(lon * 320.0, 45231);
    FloorUnique(lat * 480.0, 20670);
    EncodedQuarterOfIndices(lon, lat, 64, 41, 4, 2, 7, 7, 1, 1, 1, 0);
  }

  /**
   * The Aomori prefectural office, 140.7406 E 40.8246 N, lies in the north-west quarter
   * of its half cell. The encoder gives it the south-west quarter digit 1.
   */
  lemma AomoriQuarterCode()
    ensures MeshCodeOf(140.7406, 40.8246).quarter == "6140158931"
  {
    var lon, lat := 140.7406, 40.8246;
    FloorUnique(lon * 320.0, 45036);
    FloorUnique(lat * 480.0, 19595);
    EncodedQuarterOfIndices(lon, lat, 61, 40, 1, 5, 8, 9, 1, 0, 0, 1);
  }

  /** The cell of the encoded code lies south of the Aomori point; the cell of digit 3 holds it. */
  lemma AomoriQuarterCells()
    ensures var b := DecodeQuarter("6140158931");
      b.Ok? && b.value.y_max <= 40.8246
    ensures var b := DecodeQuarter("6140158933");
      b.Ok? && b.value.x_min <= 140.7406 < b.value.x_max && b.value.y_min <= 40.8246 < b.value.y_max
  {
    DecodeQuarterDigits("6140158931", 61, 40, 1, 5, 8, 9, 3, 1, 0, 1, 0, 0, 45036, 19594);
    DecodeQuarterDigits("6140158933", 61, 40, 1, 5, 8, 9, 3, 3, 0, 1, 0, 1, 45036, 19595);
  }
}
