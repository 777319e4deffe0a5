/**
 * The Japanese statistical regional mesh: the encoder from a position to the five
 * nested mesh codes (first, second, standard, half and quarter level) and one decoder
 * per level from a code back to the bounding box of its cell. Arithmetic is exact.
 */
module JpMesh {
  import opened Wrappers

  import opened Digits

  import opened Data

  /** Python's `divmod` for a positive divisor: floor quotient and a remainder in [0, y). */
  function DivMod(x: real, y: real): (qr: (int, real))
    requires y > 0.0
    ensures 0.0 <= qr.1 < y
    ensures x == qr.0 as real * y + qr.1
  {
    FloorRemainder(x, y);
    ((x / y).Floor, x - (x / y).Floor as real * y)
  }

  lemma FloorRemainder(x: real, y: real)
    requires y > 0.0
    ensures 0.0 <= x - (x / y).Floor as real * y < y
  {
    var z := x / y;
    var q := z.Floor as real;
    FloorBounds(z);
    MulMonoLe(q, z, y);
    MulMonoLt(z, q + 1.0, y);
    QuotientTimesDivisor(x, y);
    SuccessorProduct(q, y);
    assert z * y == x;
    assert q * y <= x;
    assert x < q * y + y;
  }

  lemma FloorBounds(z: real)
    ensures z.Floor as real <= z < z.Floor as real + 1.0
  {
  }

  lemma MulMonoLe(a: real, b: real, y: real)
    requires a <= b && y > 0.0
    ensures a * y <= b * y
  {
  }

  lemma MulMonoLt(a: real, b: real, y: real)
    requires a < b && y > 0.0
    ensures a * y < b * y
  {
  }

  lemma QuotientTimesDivisor(x: real, y: real)
    requires y > 0.0
    ensures (x / y) * y == x
  {
  }

  lemma SuccessorProduct(q: real, y: real)
    ensures (q + 1.0) * y == q * y + y
  {
  }

  /** Python's `int()` of a float, and the integer part of `math.modf`: rounding toward zero. */
  function Trunc(x: real): (i: int)
    ensures x >= 0.0 ==> i as real <= x < i as real + 1.0
    ensures x < 0.0 ==> i as real - 1.0 < x <= i as real
  {
    if x >= 0.0 then x.Floor else -((-x).Floor)
  }

  /**
   * The latitude decomposition of the encoder, with the letters of the Statistics
   * Bureau's description: lat*60 = 40p + a (minutes), a = 5q + b, b*60 = 30r + c
   * (seconds), c = 15s + d, and the quarter-level split b = 7.5t + e.
   */
  datatype LatDivision = LatDivision(p: int, a: real, q: int, b: real, r: int, c: real, s: int, d: real, t: int, e: real)

  function LatDivisionOf(lat: real): (z: LatDivision)
    ensures lat * 60.0 == 40.0 * z.p as real + z.a && 0.0 <= z.a < 40.0
    ensures z.a == 5.0 * z.q as real + z.b && 0.0 <= z.b < 5.0
    ensures z.b * 60.0 == 30.0 * z.r as real + z.c && 0.0 <= z.c < 30.0
    ensures z.c == 15.0 * z.s as real + z.d && 0.0 <= z.d < 15.0
    ensures z.b == 7.5 * z.t as real + z.e && 0.0 <= z.e < 7.5
    ensures 0 <= z.q <= 7 && 0 <= z.r <= 9 && 0 <= z.s <= 1
    // the quarter split divides a remainder of less than 5 minutes by 7.5
    ensures z.t == 0
  {
    var (p, a) := DivMod(lat * 60.0, 40.0);
    var (q, b) := DivMod(a, 5.0);
    var (r, c) := DivMod(b * 60.0, 30.0);
    var (s, d) := DivMod(c, 15.0);
    var (t, e) := DivMod(b, 7.5);
    LatDivision(p, a, q, b, r, c, s, d, t, e)
  }

  /**
   * The longitude decomposition: `math.modf` gives the fraction f and the integer part i,
   * u = i - 100, f*60 = 7.5v + g (minutes), g*60 = 45w + h (seconds), h = 22.5x + j and
   * j = 11.25y + k.
   */
  datatype LonDivision = LonDivision(f: real, i: int, u: int, v: int, g: real, w: int, h: real, x: int, j: real, y: int, k: real)

  function LonDivisionOf(lon: real): (z: LonDivision)
    ensures z.i == Trunc(lon) && z.f == lon - z.i as real && z.u == z.i - 100
    ensures z.f * 60.0 == 7.5 * z.v as real + z.g && 0.0 <= z.g < 7.5
    ensures z.g * 60.0 == 45.0 * z.w as real + z.h && 0.0 <= z.h < 45.0
    ensures z.h == 22.5 * z.x as real + z.j && 0.0 <= z.j < 22.5
    ensures z.j == 11.25 * z.y as real + z.k && 0.0 <= z.k < 11.25
    ensures 0 <= z.w <= 9 && 0 <= z.x <= 1 && 0 <= z.y <= 1
    ensures lon >= 0.0 ==> 0.0 <= z.f < 1.0 && 0 <= z.v <= 7
  {
    var i := Trunc(lon);
    var f := lon - i as real;
    var (v, g) := DivMod(f * 60.0, 7.5);
    var (w, h) := DivMod(g * 60.0, 45.0);
    var (x, j) := DivMod(h, 22.5);
    var (y, k) := DivMod(j, 11.25);
    LonDivision(f, i, i - 100, v, g, w, h, x, j, y, k)
  }

  /** The five codes of one position, each a prefix of the next. */
  datatype MeshCode = MeshCode(first: string, secondary: string, standard: string, half: string, quarter: string)

  /**
   * The encoder: the integer quotients of the two divisions become the digits of the
   * codes. The half digit combines the latitude bit s and the longitude bit x; the
   * quarter digit combines t, which is always 0, with the longitude bit y.
   */
  function MeshCodeOf(lon: real, lat: real): (c: MeshCode)
    ensures c.first < c.secondary < c.standard < c.half < c.quarter
  {
    var z := LatDivisionOf(lat);
    var w := LonDivisionOf(lon);
    var first := IntToString(z.p) + IntToString(w.u);
    var secondary := first + IntToString(z.q) + IntToString(w.v);
    var standard := secondary + IntToString(z.r) + IntToString(w.w);
    var half := standard + IntToString(2 * z.s + w.x + 1);
    var quarter := half + IntToString(2 * z.t + w.y + 1);
    MeshCode(first, secondary, standard, half, quarter)
  }

  /** Why a code could not be decoded: the `ValueError`s of `int()` and of the quadrant tables. */
  datatype DecodeError = NotAnInteger(text: string) | InvalidHalfCode(digit: int) | InvalidQuarterCode(digit: int)

  /** `int(code[i:j])`. */
  function IntAt(code: string, i: nat, j: nat): (r: Result<int, DecodeError>)
    ensures r.Ok? <==> ParseInt(Slice(code, i, j)).Some?
    ensures r.Ok? ==> ParseInt(Slice(code, i, j)) == Some(r.value)
    ensures r.Err? ==> r.error == NotAnInteger(Slice(code, i, j))
  {
    match ParseInt(Slice(code, i, j))
    case None => Err(NotAnInteger(Slice(code, i, j)))
    case Some(n) => Ok(n)
  }

  /** The first-level cell: 1 degree of longitude by 40 minutes of latitude. */
  function DecodeFirst(code: string): (r: Result<Bounds, DecodeError>)
    ensures r.Ok? <==> ParseInt(Slice(code, 0, 2)).Some? && ParseInt(Slice(code, 2, 4)).Some?
    ensures r.Ok? ==> r.value.x_max - r.value.x_min == 1.0 && r.value.y_max - r.value.y_min == 2.0 / 3.0
  {
    var lat :- IntAt(code, 0, 2);
    var lon0 :- IntAt(code, 2, 4);
    var lon := lon0 + 100;
    Ok(Bounds(lon as real, lat as real * 40.0 / 60.0, lon as real + 1.0, (lat + 1) as real * 40.0 / 60.0))
  }

  /** The second-level cell: 7.5 minutes of longitude by 5 minutes of latitude. */
  function DecodeSecondary(code: string): (r: Result<Bounds, DecodeError>)
    ensures r.Ok? <==> DecodeFirst(code).Ok? && ParseInt(Slice(code, 4, 5)).Some? && ParseInt(Slice(code, 5, 6)).Some?
    ensures r.Ok? ==> r.value.x_max - r.value.x_min == 1.0 / 8.0 && r.value.y_max - r.value.y_min == 1.0 / 12.0
  {
    var lat :- IntAt(code, 0, 2);
    var lon0 :- IntAt(code, 2, 4);
    var lon := (lon0 + 100) as real;
    var latSec :- IntAt(code, 4, 5);
    var lonSec :- IntAt(code, 5, 6);
    Ok(Bounds(
      lon + lonSec as real * 7.5 / 60.0,
      lat as real * 40.0 / 60.0 + latSec as real * 5.0 / 60.0,
      lon + (lonSec + 1) as real * 7.5 / 60.0,
      lat as real * 40.0 / 60.0 + (latSec + 1) as real * 5.0 / 60.0))
  }

  /** The standard cell: 45 seconds of longitude by 30 seconds of latitude. */
  function DecodeStandard(code: string): (r: Result<Bounds, DecodeError>)
    ensures r.Ok? <==> DecodeSecondary(code).Ok? && ParseInt(Slice(code, 6, 7)).Some? && ParseInt(Slice(code, 7, 8)).Some?
    ensures r.Ok? ==> r.value.x_max - r.value.x_min == 1.0 / 80.0 && r.value.y_max - r.value.y_min == 1.0 / 120.0
  {
    var lat :- IntAt(code, 0, 2);
    var lon0 :- IntAt(code, 2, 4);
    var lon := (lon0 + 100) as real;
    var latSec :- IntAt(code, 4, 5);
    var lonSec :- IntAt(code, 5, 6);
    var latStd :- IntAt(code, 6, 7);
    var lonStd :- IntAt(code, 7, 8);
    var secXMin := lon + lonSec as real * 7.5 / 60.0;
    var secYMin := lat as real * 40.0 / 60.0 + latSec as real * 5.0 / 60.0;
    Ok(Bounds(
      secXMin + lonStd as real * 0.75 / 60.0,
      secYMin + latStd as real * 0.5 / 60.0,
      secXMin + (lonStd + 1) as real * 0.75 / 60.0,
      secYMin + (latStd + 1) as real * 0.5 / 60.0))
  }

  /**
   * The quadrant table shared by the half and quarter levels: 1 south-west, 2 south-east,
   * 3 north-west, 4 north-east, as (x offset, y offset); any other digit has no entry.
   */
  function Quadrant(d: int): (o: Option<(int, int)>)
    ensures o.Some? <==> 1 <= d <= 4
  {
    if d == 1 then Some((0, 0))
    else if d == 2 then Some((1, 0))
    else if d == 3 then Some((0, 1))
    else if d == 4 then Some((1, 1))
    else None
  }

  /** The offsets of a quadrant digit: the low bit is the longitude side, the high bit the latitude side. */
  lemma QuadrantOffsets(d: int)
    requires 1 <= d <= 4
    ensures Quadrant(d) == Some(((d - 1) % 2, (d - 1) / 2))
  {
  }

  /**
   * The half cell: the quadrant of the standard cell named by the ninth digit. The digit
   * is read first, the standard cell second and the table last. The standard cell is
   * decoded from the first eight characters of the same code; `MeshCodeJP` keeps the
   * standard code as a separate attribute, which for an encoded point is that prefix.
   */
  function DecodeHalf(code: string): (r: Result<Bounds, DecodeError>)
    ensures r.Ok? ==> r.value.x_max - r.value.x_min == 1.0 / 160.0 && r.value.y_max - r.value.y_min == 1.0 / 240.0
  {
    var h :- IntAt(code, 8, 9);
    var std :- DecodeStandard(code);
    match Quadrant(h)
    case None => Err(InvalidHalfCode(h))
    case Some((xo, yo)) =>
      Ok(Bounds(
        std.x_min + xo as real * 0.375 / 60.0,
        std.y_min + yo as real * 0.25 / 60.0,
        std.x_min + (xo + 1) as real * 0.375 / 60.0,
        std.y_min + (yo + 1) as real * 0.25 / 60.0))
  }

  /**
   * The quarter cell: the quadrant named by the tenth digit of the half cell named by
   * the ninth. Both digits are read before the standard cell, then the two tables. As in
   * the half cell, the standard cell comes from the code's first eight characters.
   */
  function DecodeQuarter(code: string): (r: Result<Bounds, DecodeError>)
    ensures r.Ok? ==> r.value.x_max - r.value.x_min == 1.0 / 320.0 && r.value.y_max - r.value.y_min == 1.0 / 480.0
  {
    var h :- IntAt(code, 8, 9);
    var qd :- IntAt(code, 9, 10);
    var std :- DecodeStandard(code);
    match Quadrant(h)
    case None => Err(InvalidHalfCode(h))
    case Some((hx, hy)) =>
      var halfXMin := std.x_min + hx as real * 0.375 / 60.0;
      var halfYMin := std.y_min + hy as real * 0.25 / 60.0;
      match Quadrant(qd)
      case None => Err(InvalidQuarterCode(qd))
      case Some((qx, qy)) =>
        Ok(Bounds(
          halfXMin + qx as real * 0.1875 / 60.0,
          halfYMin + qy as real * 0.125 / 60.0,
          halfXMin + (qx + 1) as real * 0.1875 / 60.0,
          halfYMin + (qy + 1) as real * 0.125 / 60.0))
  }

  /** The five levels, in the order the codes nest. */
  datatype Level = First | Secondary | Standard | Half | Quarter

  /** The code of one level, as `_generate_mesh_grid` selects it. */
  function CodeAt(l: Level, c: MeshCode): string {
    match l
    case First => c.first
    case Secondary => c.secondary
    case Standard => c.standard
    case Half => c.half
    case Quarter => c.quarter
  }

  /** The decoder of one level. */
  function DecodeAt(l: Level, code: string): Result<Bounds, DecodeError> {
    match l
    case First => DecodeFirst(code)
    case Secondary => DecodeSecondary(code)
    case Standard => DecodeStandard(code)
    case Half => DecodeHalf(code)
    case Quarter => DecodeQuarter(code)
  }

  /**
   * The positions whose first-level latitude and longitude indices both have two digits,
   * the range in which the codes have their documented layout.
   */
  predicate CodeDomain(lon: real, lat: real) {
    10 <= (lat * 1.5).Floor <= 99 && 110 <= lon.Floor <= 199
  }

  /** Grid resolution per level, in cells per degree. */
  function LonScale(l: Level): real {
    match l
    case First => 1.0
    case Secondary => 8.0
    case Standard => 80.0
    case Half => 160.0
    case Quarter => 320.0
  }

  function LatScale(l: Level): real {
    match l
    case First => 1.5
    case Secondary => 12.0
    case Standard => 120.0
    case Half => 240.0
    case Quarter => 480.0
  }

  /**
   * The reference definition of a mesh cell: the cell of the regular longitude/latitude
   * grid of the level's resolution that holds the point.
   */
  function GridCell(l: Level, lon: real, lat: real): Bounds {
    var i := (lon * LonScale(l)).Floor;
    var j := (lat * LatScale(l)).Floor;
    Bounds(i as real / LonScale(l), j as real / LatScale(l), (i + 1) as real / LonScale(l), (j + 1) as real / LatScale(l))
  }

  /** One box inside another, edges allowed to touch. */
  predicate Within(inner: Bounds, outer: Bounds) {
    outer.x_min <= inner.x_min && inner.x_max <= outer.x_max &&
    outer.y_min <= inner.y_min && inner.y_max <= outer.y_max
  }

  /**
   * The codes the encoder can produce inside the domain: digits only, two-digit first
   * indices from 10, second-level digits up to 7 and quadrant digits from 1 to 4.
   */
  predicate WellFormedCode(code: string) {
    (|code| == 4 || |code| == 6 || |code| == 8 || |code| == 9 || |code| == 10) &&
    AllDigits(code) && code[0] != '0' && code[2] != '0' &&
    (|code| >= 6 ==> code[4] <= '7' && code[5] <= '7') &&
    (|code| >= 9 ==> '1' <= code[8] <= '4') &&
    (|code| >= 10 ==> '1' <= code[9] <= '4')
  }

  /** The number of characters of a code of each level. */
  function CodeLength(l: Level): nat {
    match l
    case First => 4
    case Secondary => 6
    case Standard => 8
    case Half => 9
    case Quarter => 10
  }
}
