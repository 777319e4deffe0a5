/**
 * The mesh generator: the table of mesh codes and cells of one level that cover a
 * query rectangle. The first level enumerates index pairs; the finer levels sample the
 * rectangle, widened by a margin, on a regular lattice and keep each new code whose
 * cell overlaps the rectangle.
 */
module JpMeshGenerate {
  import opened Wrappers

  import opened Digits

  import opened Data

  import opened JpMesh

  import opened JpMeshProperties

  /** The generated table: one code and one cell per row, in generation order. */
  datatype MeshTable = MeshTable(codes: seq<string>, cells: seq<Bounds>)

  datatype GenerateError = InvalidMeshSize(size: string) | InvalidRange

  const ValidSizes: seq<string> := ["1st", "2nd", "standard", "half", "quarter"]

  // ---------------------------------------------------------------------------
  // The first level
  // ---------------------------------------------------------------------------

  /** The key of a latitude and a longitude index, `f"{la:02d}{lo:02d}"`. */
  function FirstKey(la: nat, lo: nat): (s: string)
    ensures |s| >= 4 && AllDigits(s)
  {
    Pad2(la) + Pad2(lo)
  }

  /** The encoder is asked for the code of the centre of the cell of index pair (la, lo). */
  function FirstProbe(la: nat, lo: nat): (c: MeshCode) {
    MeshCodeOf(100.0 + lo as real + 0.5, la as real * 40.0 / 60.0 + 20.0 / 60.0)
  }

  /**
   * The filter of the first-level branch: the encoder agrees with the zero-padded key
   * exactly when both indices have two digits or more, because `str` drops the padding
   * zero that the key keeps.
   */
  lemma FirstProbeMatchesKey(la: nat, lo: nat)
    ensures FirstProbe(la, lo).first == FirstKey(la, lo) <==> la >= 10 && lo >= 10
  {
    var lon := 100.0 + lo as real + 0.5;
    var lat := la as real * 40.0 / 60.0 + 20.0 / 60.0;
    var z := LatDivisionOf(lat);
    var w := LonDivisionOf(lon);
    assert lat * 60.0 == 40.0 * la as real + 20.0;
    assert 40.0 * (la - z.p) as real == z.a - 20.0;
    assert z.p == la;
    assert w.u == lo;
    assert FirstProbe(la, lo).first == NatToString(la) + NatToString(lo);
    if !(la >= 10 && lo >= 10) {
      assert |FirstProbe(la, lo).first| < |FirstKey(la, lo)|;
    }
  }

  /** A first-level key of two-digit indices decodes. */
  lemma FirstKeyDecodes(la: nat, lo: nat)
    ensures DecodeFirst(FirstKey(la, lo)).Ok?
  {
    var s := FirstKey(la, lo);
    assert AllDigits(s[0..2]) && AllDigits(s[2..4]);
  }

  /**
   * The index pairs the first-level branch keeps, in its loop order: latitude rows in
   * [la0, la1), longitudes in [lo0, lo1) within a row, both indices at least 10.
   */
  function FirstRow(la: int, lo0: int, lo1: int): seq<(nat, nat)>
    decreases lo1 - lo0
  {
    if lo1 <= lo0 then []
    else FirstRow(la, lo0, lo1 - 1) + (if la >= 10 && lo1 - 1 >= 10 then [(la, lo1 - 1)] else [])
  }

  function FirstGrid(la0: int, la1: int, lo0: int, lo1: int): seq<(nat, nat)>
    decreases la1 - la0
  {
    if la1 <= la0 then []
    else FirstGrid(la0, la1 - 1, lo0, lo1) + FirstRow(la1 - 1, lo0, lo1)
  }

  /** A row holds pairs of that latitude in increasing longitude, inside the column range. */
  lemma {:induction false} FirstRowShape(la: int, lo0: int, lo1: int)
    ensures forall k :: 0 <= k < |FirstRow(la, lo0, lo1)| ==>
      FirstRow(la, lo0, lo1)[k].0 == la && la >= 10 && lo0 <= FirstRow(la, lo0, lo1)[k].1 < lo1 &&
      FirstRow(la, lo0, lo1)[k].1 >= 10
    ensures forall a, b :: 0 <= a < b < |FirstRow(la, lo0, lo1)| ==> FirstRow(la, lo0, lo1)[a].1 < FirstRow(la, lo0, lo1)[b].1
    decreases lo1 - lo0
  {
    if lo1 > lo0 {
      FirstRowShape(la, lo0, lo1 - 1);
      var p := FirstRow(la, lo0, lo1 - 1);
      var t: seq<(nat, nat)> := if la >= 10 && lo1 - 1 >= 10 then [(la, lo1 - 1)] else [];
      assert FirstRow(la, lo0, lo1) == p + t;
      forall k | 0 <= k < |p + t|
        ensures (p + t)[k] == if k < |p| then p[k] else t[k - |p|]
      {
      }
    } else {
      assert FirstRow(la, lo0, lo1) == [];
    }
  }

  /** The grid holds pairs of the two ranges, in row-major order. */
  lemma {:induction false} FirstGridShape(la0: int, la1: int, lo0: int, lo1: int)
    ensures forall k :: 0 <= k < |FirstGrid(la0, la1, lo0, lo1)| ==>
      la0 <= FirstGrid(la0, la1, lo0, lo1)[k].0 < la1 && lo0 <= FirstGrid(la0, la1, lo0, lo1)[k].1 < lo1 &&
      FirstGrid(la0, la1, lo0, lo1)[k].0 >= 10 && FirstGrid(la0, la1, lo0, lo1)[k].1 >= 10
    ensures forall a, b :: 0 <= a < b < |FirstGrid(la0, la1, lo0, lo1)| ==>
      FirstGrid(la0, la1, lo0, lo1)[a] != FirstGrid(la0, la1, lo0, lo1)[b]
    decreases la1 - la0
  {
    if la1 > la0 {
      FirstGridShape(la0, la1 - 1, lo0, lo1);
      FirstRowShape(la1 - 1, lo0, lo1);
    } else {
      assert FirstGrid(la0, la1, lo0, lo1) == [];
    }
  }

  lemma InLeft<T>(x: T, p: seq<T>, t: seq<T>)
    requires x in p
    ensures x in p + t
  {
    var k :| 0 <= k < |p| && p[k] == x;
    assert (p + t)[k] == x;
  }

  lemma InRight<T>(x: T, p: seq<T>, t: seq<T>)
    requires x in t
    ensures x in p + t
  {
    var k :| 0 <= k < |t| && t[k] == x;
    assert (p + t)[|p| + k] == x;
  }

  lemma {:induction false} FirstRowHas(la: int, lo0: int, lo1: int, lo: int)
    requires lo0 <= lo < lo1 && la >= 10 && lo >= 10
    ensures (la, lo) in FirstRow(la, lo0, lo1)
    decreases lo1 - lo0
  {
    var p, t := FirstRow(la, lo0, lo1 - 1), [(la, lo1 - 1)];
    assert FirstRow(la, lo0, lo1) == p + t;
    if lo < lo1 - 1 {
      FirstRowHas(la, lo0, lo1 - 1, lo);
      InLeft((la, lo), p, t);
    } else {
      assert t[0] == (la, lo);
      InRight((la, lo), p, t);
    }
  }

  lemma {:induction false} FirstGridHas(la0: int, la1: int, lo0: int, lo1: int, la: int, lo: int)
    requires la0 <= la < la1 && lo0 <= lo < lo1 && la >= 10 && lo >= 10
    ensures (la, lo) in FirstGrid(la0, la1, lo0, lo1)
    decreases la1 - la0
  {
    var p, t := FirstGrid(la0, la1 - 1, lo0, lo1), FirstRow(la1 - 1, lo0, lo1);
    assert FirstGrid(la0, la1, lo0, lo1) == p + t;
    if la < la1 - 1 {
      FirstGridHas(la0, la1 - 1, lo0, lo1, la, lo);
      InLeft((la, lo), p, t);
    } else {
      FirstRowHas(la, lo0, lo1, lo);
      InRight((la, lo), p, t);
    }
  }

  /** The loop bounds of the first-level branch. */
  function FirstLatStart(y_min: real): int { Trunc(y_min * 60.0 / 40.0) }
  function FirstLatEnd(y_max: real): int { Trunc(y_max * 60.0 / 40.0) + 1 }
  function FirstLonStart(x_min: real): int { Trunc(x_min) - 100 }
  function FirstLonEnd(x_max: real): int { Trunc(x_max) - 100 + 1 }

  function FirstGridOf(x_min: real, y_min: real, x_max: real, y_max: real): seq<(nat, nat)> {
    FirstGrid(FirstLatStart(y_min), FirstLatEnd(y_max), FirstLonStart(x_min), FirstLonEnd(x_max))
  }

  /**
   * The first-level branch: every index pair of the rectangle's rows and columns whose
   * probe code equals its key yields that key and the first-level cell of the probe.
   * The result is the row-major list of the pairs with both indices at least 10.
   */
  method FirstLevelMeshes(x_min: real, y_min: real, x_max: real, y_max: real) returns (t: MeshTable)
    ensures FirstRows(FirstGridOf(x_min, y_min, x_max, y_max), t.codes, t.cells)
  {
    var latStart, latEnd := FirstLatStart(y_min), FirstLatEnd(y_max);
    var lonStart, lonEnd := FirstLonStart(x_min), FirstLonEnd(x_max);
    var codes: seq<string> := [];
    var cells: seq<Bounds> := [];
    var la := latStart;
    while la < latEnd
      invariant la == latStart || la <= latEnd
      invariant FirstRows(FirstGrid(latStart, la, lonStart, lonEnd), codes, cells)
      decreases latEnd - la
    {
      var rowCodes, rowCells := FirstRowMeshes(la, lonStart, lonEnd);
      FirstRowsAppend(FirstGrid(latStart, la, lonStart, lonEnd), codes, cells, FirstRow(la, lonStart, lonEnd), rowCodes, rowCells);
      codes, cells := codes + rowCodes, cells + rowCells;
      FirstGridStep(latStart, la, lonStart, lonEnd);
      la := la + 1;
    }
    if latEnd <= latStart {
      assert FirstGrid(latStart, la, lonStart, lonEnd) == [] == FirstGrid(latStart, latEnd, lonStart, lonEnd);
    }
    t := MeshTable(codes, cells);
  }

  /** The codes and cells of the branch for a list of kept pairs: the pair's key and its decoded cell. */
  predicate FirstRows(g: seq<(int, int)>, codes: seq<string>, cells: seq<Bounds>) {
    KeyedRows(g, codes) && DecodedRows(DecoderAt(First), codes, cells)
  }

  predicate KeyedRows(g: seq<(int, int)>, codes: seq<string>) {
    |codes| == |g| &&
    forall k :: 0 <= k < |g| ==> (g[k].0 >= 0 && g[k].1 >= 0 && codes[k] == FirstKey(g[k].0, g[k].1))
  }

  predicate DecodedRows(decode: string -> Result<Bounds, DecodeError>, codes: seq<string>, cells: seq<Bounds>) {
    |codes| == |cells| && forall k :: 0 <= k < |codes| ==> decode(codes[k]) == Ok(cells[k])
  }

  lemma FirstRowsAppend(g: seq<(int, int)>, codes: seq<string>, cells: seq<Bounds>,
                        h: seq<(int, int)>, codes': seq<string>, cells': seq<Bounds>)
    requires FirstRows(g, codes, cells) && FirstRows(h, codes', cells')
    ensures FirstRows(g + h, codes + codes', cells + cells')
  {
    KeyedRowsAppend(g, codes, h, codes');
    DecodedRowsAppend(DecoderAt(First), codes, cells, codes', cells');
  }

  lemma KeyedRowsAppend(g: seq<(int, int)>, codes: seq<string>, h: seq<(int, int)>, codes': seq<string>)
    requires KeyedRows(g, codes) && KeyedRows(h, codes')
    ensures KeyedRows(g + h, codes + codes')
  {
    forall k | 0 <= k < |g + h|
      ensures (g + h)[k].0 >= 0 && (g + h)[k].1 >= 0 && (codes + codes')[k] == FirstKey((g + h)[k].0, (g + h)[k].1)
    {
      if k < |g| {
        assert (g + h)[k] == g[k] && (codes + codes')[k] == codes[k];
      } else {
        assert (g + h)[k] == h[k - |g|] && (codes + codes')[k] == codes'[k - |g|];
      }
    }
  }

  lemma DecodedRowsAppend(decode: string -> Result<Bounds, DecodeError>, codes: seq<string>, cells: seq<Bounds>,
                          codes': seq<string>, cells': seq<Bounds>)
    requires DecodedRows(decode, codes, cells) && DecodedRows(decode, codes', cells')
    ensures DecodedRows(decode, codes + codes', cells + cells')
  {
    forall k | 0 <= k < |codes + codes'|
      ensures decode((codes + codes')[k]) == Ok((cells + cells')[k])
    {
      if k < |codes| {
        assert (codes + codes')[k] == codes[k] && (cells + cells')[k] == cells[k];
      } else {
        assert (codes + codes')[k] == codes'[k - |codes|] && (cells + cells')[k] == cells'[k - |codes|];
      }
    }
  }

  lemma FirstRowExtends(la: nat, lo0: int, lo: nat, codes: seq<string>, cells: seq<Bounds>, kept: bool, bounds: Bounds)
    requires lo0 <= lo
    requires FirstRows(FirstRow(la, lo0, lo), codes, cells)
    requires kept <==> la >= 10 && lo >= 10
    requires kept ==> DecodeFirst(FirstKey(la, lo)) == Ok(bounds)
    ensures kept ==> FirstRows(FirstRow(la, lo0, lo + 1), codes + [FirstKey(la, lo)], cells + [bounds])
    ensures !kept ==> FirstRows(FirstRow(la, lo0, lo + 1), codes, cells)
  {
    FirstRowStep(la, lo0, lo);
    if kept {
      assert DecoderAt(First)(FirstKey(la, lo)) == Ok(bounds);
      FirstRowsAppend(FirstRow(la, lo0, lo), codes, cells, [(la, lo)], [FirstKey(la, lo)], [bounds]);
    }
  }

  /** The inner loop of the first-level branch, over one latitude row. */
  method FirstRowMeshes(la: int, lonStart: int, lonEnd: int) returns (codes: seq<string>, cells: seq<Bounds>)
    ensures FirstRows(FirstRow(la, lonStart, lonEnd), codes, cells)
  {
    codes, cells := [], [];
    var lo := lonStart;
    while lo < lonEnd
      invariant lo == lonStart || lonStart <= lo <= lonEnd
      invariant FirstRows(FirstRow(la, lonStart, lo), codes, cells)
      decreases lonEnd - lo
    {
      if la >= 0 && lo >= 0 {
        var key := FirstKey(la, lo);
        var kept, bounds := ProbeFirst(la, lo);
        FirstRowExtends(la, lonStart, lo, codes, cells, kept, bounds);
        if kept {
          codes := codes + [key];
          cells := cells + [bounds];
        }
      } else {
        FirstRowStep(la, lonStart, lo);
      }
      lo := lo + 1;
    }
    if lonEnd <= lonStart {
      assert FirstRow(la, lonStart, lo) == [] == FirstRow(la, lonStart, lonEnd);
    }
  }

  lemma FirstGridStep(la0: int, la: int, lo0: int, lo1: int)
    requires la0 <= la
    ensures FirstGrid(la0, la + 1, lo0, lo1) == FirstGrid(la0, la, lo0, lo1) + FirstRow(la, lo0, lo1)
  {
  }

  lemma FirstRowStep(la: int, lo0: int, lo: int)
    requires lo0 <= lo
    ensures FirstRow(la, lo0, lo + 1) == FirstRow(la, lo0, lo) + (if la >= 10 && lo >= 10 then [(la, lo)] else [])
  {
  }

  /**
   * One pair of the first-level branch: the probe's first-level code is compared with the
   * key and, when they agree, the probe's first-level cell is read.
   */
  method ProbeFirst(la: nat, lo: nat) returns (kept: bool, bounds: Bounds)
    ensures kept <==> la >= 10 && lo >= 10
    ensures kept ==> DecodeFirst(FirstKey(la, lo)) == Ok(bounds)
  {
    var probe := FirstProbe(la, lo);
    FirstProbeMatchesKey(la, lo);
    kept := probe.first == FirstKey(la, lo);
    bounds := Bounds(0.0, 0.0, 0.0, 0.0);
    if kept {
      FirstKeyDecodes(la, lo);
      bounds := DecodeFirst(probe.first).value;
    }
  }

  /** Two-digit index pairs are told apart by their keys. */
  lemma FirstKeyInjective(a: (int, int), b: (int, int))
    requires 10 <= a.0 <= 99 && 10 <= a.1 <= 99 && 10 <= b.0 <= 99 && 10 <= b.1 <= 99
    requires FirstKey(a.0, a.1) == FirstKey(b.0, b.1)
    ensures a == b
  {
    TwoDigitText(a.0);
    TwoDigitText(a.1);
    TwoDigitText(b.0);
    TwoDigitText(b.1);
    var s := FirstKey(a.0, a.1);
    assert s[0] == DigitChar(a.0 / 10) && s[1] == DigitChar(a.0 % 10);
    assert s[2] == DigitChar(a.1 / 10) && s[3] == DigitChar(a.1 % 10);
    assert s[0] == DigitChar(b.0 / 10) && s[1] == DigitChar(b.0 % 10);
    assert s[2] == DigitChar(b.1 / 10) && s[3] == DigitChar(b.1 % 10);
  }

  /**
   * While the rectangle stays below the first-level indices of three digits, the first
   * level lists no code twice.
   */
  lemma FirstCodesDistinct(x_min: real, y_min: real, x_max: real, y_max: real)
    requires FirstLatEnd(y_max) <= 100 && FirstLonEnd(x_max) <= 100
    ensures var g := FirstGridOf(x_min, y_min, x_max, y_max);
      forall a, b :: 0 <= a < b < |g| ==> FirstKey(g[a].0, g[a].1) != FirstKey(g[b].0, g[b].1)
  {
    var g := FirstGridOf(x_min, y_min, x_max, y_max);
    FirstGridShape(FirstLatStart(y_min), FirstLatEnd(y_max), FirstLonStart(x_min), FirstLonEnd(x_max));
    forall a, b | 0 <= a < b < |g|
      ensures FirstKey(g[a].0, g[a].1) != FirstKey(g[b].0, g[b].1)
    {
      if FirstKey(g[a].0, g[a].1) == FirstKey(g[b].0, g[b].1) {
        FirstKeyInjective(g[a], g[b]);
      }
    }
  }

  /**
   * Completeness of the first level: every position of the closed rectangle inside the
   * two-digit domain has its first-level code among the keys of the branch.
   */
  lemma FirstCovers(x_min: real, y_min: real, x_max: real, y_max: real, lon: real, lat: real)
    requires x_min <= lon <= x_max && y_min <= lat <= y_max && CodeDomain(lon, lat)
    ensures var g := FirstGridOf(x_min, y_min, x_max, y_max);
      exists k :: 0 <= k < |g| && MeshCodeOf(lon, lat).first == FirstKey(g[k].0, g[k].1)
  {
    var z := LatDivisionOf(lat);
    var w := LonDivisionOf(lon);
    EncodedIndices(lon, lat);
    EncodedDigits(lon, lat);
    TwoDigitText(z.p);
    TwoDigitText(w.u);
    assert MeshCodeOf(lon, lat).first == FirstKey(z.p, w.u);
    assert y_min * 60.0 / 40.0 <= lat * 1.5 <= y_max * 60.0 / 40.0;
    assert FirstLatStart(y_min) <= z.p < FirstLatEnd(y_max);
    assert FirstLonStart(x_min) <= w.u < FirstLonEnd(x_max);
    FirstGridHas(FirstLatStart(y_min), FirstLatEnd(y_max), FirstLonStart(x_min), FirstLonEnd(x_max), z.p, w.u);
    var g := FirstGridOf(x_min, y_min, x_max, y_max);
    var k :| 0 <= k < |g| && g[k] == (z.p, w.u);
  }

  // ---------------------------------------------------------------------------
  // The finer levels: sampling
  // ---------------------------------------------------------------------------

  /** The level a size name selects in the sampler; no level for any other name. */
  function GridLevel(meshSize: string): (l: Option<Level>)
    ensures l.Some? ==> l.value != First
  {
    if meshSize == "2nd" then Some(Secondary)
    else if meshSize == "standard" then Some(Standard)
    else if meshSize == "half" then Some(Half)
    else if meshSize == "quarter" then Some(Quarter)
    else None
  }

  /** The sampling interval in degrees, at most the cell's shorter side. */
  function GridStep(meshSize: string): (step: real)
    ensures step > 0.0
    ensures GridLevel(meshSize).Some? ==>
      step <= 1.0 / LonScale(GridLevel(meshSize).value) && step <= 1.0 / LatScale(GridLevel(meshSize).value)
  {
    if meshSize == "2nd" then 0.02
    else if meshSize == "standard" then 0.002
    else if meshSize == "half" then 0.001
    else if meshSize == "quarter" then 0.0005
    else 0.01
  }

  /** The widening of the sampled range on every side, at least one step. */
  function GridMargin(meshSize: string): (margin: real)
    ensures margin >= GridStep(meshSize)
  {
    if meshSize == "2nd" then 0.1
    else if meshSize == "standard" then 0.015
    else if meshSize == "half" then 0.008
    else if meshSize == "quarter" then 0.004
    else 0.02
  }

  /** The k-th value of a coordinate the sampler visits, in exact arithmetic. */
  function Sample(start: real, step: real, k: nat): real {
    start + k as real * step
  }

  lemma SampleMonotone(start: real, step: real, a: nat, b: nat)
    requires step > 0.0 && a <= b
    ensures Sample(start, step, a) <= Sample(start, step, b)
  {
    MulMonoLe(a as real, b as real, step);
  }

  lemma StepQuotient(d: real, step: real)
    requires step > 0.0
    ensures (d - step) / step == d / step - 1.0
  {
    var q := d / step;
    var r := (d - step) / step;
    assert r * step == d - step;
    assert q * step == d;
    var e := r - (q - 1.0);
    assert e * step == 0.0;
  }

  /** A non-negative dividend has a non-negative floor quotient. */
  lemma NonNegativeQuotient(d: real, step: real, n: int, rem: real)
    requires d >= 0.0 && step > 0.0 && 0.0 <= rem < step && d == n as real * step + rem
    ensures n >= 0
  {
    if n < 0 {
      MulMonoLe(n as real, -1.0, step);
      assert false;
    }
  }

  /**
   * A sampled position hits every interval at least one step long that meets the
   * sampled range [lo - margin, hi + margin]: there is a sample inside [a, b) and not
   * beyond the range's upper end.
   */
  lemma CoveringSample(a: real, b: real, lo: real, hi: real, margin: real, step: real) returns (k: nat)
    requires step > 0.0 && margin >= step && b - a >= step && a < hi && b > lo && lo <= hi
    ensures a <= Sample(lo - margin, step, k) < b && Sample(lo - margin, step, k) <= hi + margin
  {
    var start := lo - margin;
    var first := if a > start then a else start;
    var last := if b < hi + margin then b else hi + margin;
    assert last - first >= step;
    var d := first - start;
    var (n, rem) := DivMod(d, step);
    NonNegativeQuotient(d, step, n, rem);
    if rem == 0.0 {
      k := n;
      assert Sample(start, step, k) == first;
    } else {
      k := n + 1;
      SuccessorProduct(n as real, step);
      assert Sample(start, step, k) == start + n as real * step + step;
      assert first < Sample(start, step, k) < first + step;
    }
    assert Sample(start, step, k) < last;
  }

  /** The codes a complete sampler lists: those the encoder produces, as the converse lemmas say. */
  predicate Producible(l: Level, code: string) {
    WellFormedCode(code) && |code| == CodeLength(l) && (l == Quarter ==> code[9] <= '2')
  }

  /** Every point of the decoded cell of a producible code is encoded to that code. */
  lemma CellPointEncodes(l: Level, code: string, lon: real, lat: real)
    requires l != First && Producible(l, code) && DecodeAt(l, code).Ok?
    requires InCell(DecodeAt(l, code).value, lon, lat)
    ensures CodeAt(l, MeshCodeOf(lon, lat)) == code
  {
    match l
    case Secondary => SecondaryCellEncodes(code, lon, lat);
    case Standard => StandardCellEncodes(code, lon, lat);
    case Half => HalfCellEncodes(code, lon, lat);
    case Quarter => QuarterCellEncodes(code, lon, lat);
  }

  lemma DecodedSides(l: Level, code: string)
    requires l != First && DecodeAt(l, code).Ok?
    ensures DecodeAt(l, code).value.x_max - DecodeAt(l, code).value.x_min == 1.0 / LonScale(l)
    ensures DecodeAt(l, code).value.y_max - DecodeAt(l, code).value.y_min == 1.0 / LatScale(l)
  {
  }

  /**
   * The sampling lattice is fine enough: every producible code whose cell overlaps the
   * query is the code of a sample inside the sampled range.
   */
  /** A level's sampling parameters: a positive step within the cell's sides and a margin of at least one step. */
  predicate FineLattice(l: Level, step: real, margin: real) {
    l != First && step > 0.0 && margin >= step && step <= 1.0 / LonScale(l) && step <= 1.0 / LatScale(l)
  }

  /**
   * The sampling lattice is fine enough: every producible code whose cell overlaps the
   * query is the code of a sample inside the sampled range.
   */
  lemma SampledCode(l: Level, step: real, margin: real, code: string, x_min: real, y_min: real, x_max: real, y_max: real)
      returns (i: nat, j: nat)
    requires x_min <= x_max && y_min <= y_max
    requires FineLattice(l, step, margin) && Producible(l, code)
    requires var r := DecodeAt(l, code); r.Ok? && Overlaps(r.value, x_min, y_min, x_max, y_max)
    ensures var lon, lat := Sample(x_min - margin, step, i), Sample(y_min - margin, step, j);
      lon <= x_max + margin && lat <= y_max + margin && CodeAt(l, MeshCodeOf(lon, lat)) == code
  {
    var b := DecodeAt(l, code).value;
    DecodedSides(l, code);
    i := CoveringSample(b.x_min, b.x_max, x_min, x_max, margin, step);
    j := CoveringSample(b.y_min, b.y_max, y_min, y_max, margin, step);
    CellPointEncodes(l, code, Sample(x_min - margin, step, i), Sample(y_min - margin, step, j));
  }


  /**
   * What a sampler appends: one row per code, the codes pairwise distinct, each cell the
   * decoded cell of its code and overlapping the query.
   */
  predicate SoundRows(decode: string -> Result<Bounds, DecodeError>, codes: seq<string>, cells: seq<Bounds>,
                      x_min: real, y_min: real, x_max: real, y_max: real) {
    |codes| == |cells| &&
    (forall k :: 0 <= k < |codes| ==> decode(codes[k]) == Ok(cells[k]) && Overlaps(cells[k], x_min, y_min, x_max, y_max)) &&
    (forall a, b :: 0 <= a < b < |codes| ==> codes[a] != codes[b])
  }

  /** A new code whose decoded cell overlaps the query extends the sampler's rows soundly. */
  lemma SoundRowsAppend(decode: string -> Result<Bounds, DecodeError>, codes: seq<string>, cells: seq<Bounds>,
                        code: string, cell: Bounds, x_min: real, y_min: real, x_max: real, y_max: real)
    requires SoundRows(decode, codes, cells, x_min, y_min, x_max, y_max)
    requires code !in codes && decode(code) == Ok(cell) && Overlaps(cell, x_min, y_min, x_max, y_max)
    ensures SoundRows(decode, codes + [code], cells + [cell], x_min, y_min, x_max, y_max)
  {
    var codes', cells' := codes + [code], cells + [cell];
    forall k | 0 <= k < |codes'|
      ensures decode(codes'[k]) == Ok(cells'[k]) && Overlaps(cells'[k], x_min, y_min, x_max, y_max)
    {
      if k < |codes| {
        assert codes'[k] == codes[k] && cells'[k] == cells[k];
      }
    }
    forall a, b | 0 <= a < b < |codes'|
      ensures codes'[a] != codes'[b]
    {
      if b == |codes| {
        assert codes'[a] == codes[a];
      } else {
        assert codes'[a] == codes[a] && codes'[b] == codes[b];
      }
    }
  }

  /** Every sample of the lattice whose code decodes to a cell overlapping the query has its code listed. */
  ghost predicate Covers(encode: (real, real) -> string, decode: string -> Result<Bounds, DecodeError>,
                         x0: real, y0: real, xLimit: real, yLimit: real, step: real,
                         x_min: real, y_min: real, x_max: real, y_max: real, codes: seq<string>) {
    forall ii: nat, jj: nat {:trigger encode(Sample(x0, step, ii), Sample(y0, step, jj))} ::
      Sample(x0, step, ii) <= xLimit && Sample(y0, step, jj) <= yLimit &&
      decode(encode(Sample(x0, step, ii), Sample(y0, step, jj))).Ok? &&
      Overlaps(decode(encode(Sample(x0, step, ii), Sample(y0, step, jj))).value, x_min, y_min, x_max, y_max) ==>
      encode(Sample(x0, step, ii), Sample(y0, step, jj)) in codes
  }

  /**
   * The lattice walk of `_generate_mesh_grid`, for any encoder and decoder: rows of
   * latitude from y0 up to yLimit, longitudes from x0 up to xLimit, one step apart. Each
   * sample's code is decoded; a code that does not decode is skipped, and a decoded cell
   * is appended, with its code, when the code is not yet listed and the cell overlaps the
   * query. Every sample whose cell decodes and overlaps ends up listed.
   */
  method SampleLattice(encode: (real, real) -> string, decode: string -> Result<Bounds, DecodeError>,
                       x0: real, y0: real, xLimit: real, yLimit: real, step: real,
                       x_min: real, y_min: real, x_max: real, y_max: real,
                       meshes: seq<Bounds>, meshCodes: seq<string>)
      returns (meshesOut: seq<Bounds>, meshCodesOut: seq<string>)
    requires step > 0.0
    ensures |meshes| <= |meshesOut| && meshesOut[..|meshes|] == meshes
    ensures |meshCodes| <= |meshCodesOut| && meshCodesOut[..|meshCodes|] == meshCodes
    ensures SoundRows(decode, meshCodesOut[|meshCodes|..], meshesOut[|meshes|..], x_min, y_min, x_max, y_max)
    ensures Covers(encode, decode, x0, y0, xLimit, yLimit, step, x_min, y_min, x_max, y_max, meshCodesOut[|meshCodes|..])
  {
    var processed: set<string> := {};
    meshesOut, meshCodesOut := meshes, meshCodes;
    var lat := y0;
    ghost var j: nat := 0;
    while lat <= yLimit
      invariant lat == Sample(y0, step, j)
      invariant |meshes| <= |meshesOut| && meshesOut[..|meshes|] == meshes
      invariant |meshCodes| <= |meshCodesOut| && meshCodesOut[..|meshCodes|] == meshCodes
      invariant forall c :: c in processed <==> c in meshCodesOut[|meshCodes|..]
      invariant SoundRows(decode, meshCodesOut[|meshCodes|..], meshesOut[|meshes|..], x_min, y_min, x_max, y_max)
      invariant forall ii: nat, jj: nat {:trigger encode(Sample(x0, step, ii), Sample(y0, step, jj))} ::
        Sample(x0, step, ii) <= xLimit && jj < j &&
        decode(encode(Sample(x0, step, ii), Sample(y0, step, jj))).Ok? &&
        Overlaps(decode(encode(Sample(x0, step, ii), Sample(y0, step, jj))).value, x_min, y_min, x_max, y_max) ==>
        encode(Sample(x0, step, ii), Sample(y0, step, jj)) in processed
      decreases (yLimit - lat) / step
    {
      meshesOut, meshCodesOut, processed := SampleRow(encode, decode, x0, xLimit, step, lat, x_min, y_min, x_max, y_max,
                                                      meshes, meshCodes, meshesOut, meshCodesOut, processed);
      StepQuotient(yLimit - lat, step);
      lat := lat + step;
      j := j + 1;
    }
    forall jj: nat | Sample(y0, step, jj) <= yLimit
      ensures jj < j
    {
      if jj >= j {
        SampleMonotone(y0, step, j, jj);
      }
    }
  }

  /**
   * One row of the walk: longitudes from x0 up to xLimit, one step apart, at latitude
   * lat, appending to the lists that extend meshes and meshCodes. Every sample of the
   * row whose cell decodes and overlaps ends up processed, and what was processed stays.
   */
  method SampleRow(encode: (real, real) -> string, decode: string -> Result<Bounds, DecodeError>,
                   x0: real, xLimit: real, step: real, lat: real,
                   x_min: real, y_min: real, x_max: real, y_max: real,
                   ghost meshes: seq<Bounds>, ghost meshCodes: seq<string>,
                   meshesIn: seq<Bounds>, meshCodesIn: seq<string>, processedIn: set<string>)
      returns (meshesOut: seq<Bounds>, meshCodesOut: seq<string>, processed: set<string>)
    requires step > 0.0
    requires |meshes| <= |meshesIn| && meshesIn[..|meshes|] == meshes
    requires |meshCodes| <= |meshCodesIn| && meshCodesIn[..|meshCodes|] == meshCodes
    requires forall c :: c in processedIn <==> c in meshCodesIn[|meshCodes|..]
    requires SoundRows(decode, meshCodesIn[|meshCodes|..], meshesIn[|meshes|..], x_min, y_min, x_max, y_max)
    ensures |meshes| <= |meshesOut| && meshesOut[..|meshes|] == meshes
    ensures |meshCodes| <= |meshCodesOut| && meshCodesOut[..|meshCodes|] == meshCodes
    ensures forall c :: c in processed <==> c in meshCodesOut[|meshCodes|..]
    ensures SoundRows(decode, meshCodesOut[|meshCodes|..], meshesOut[|meshes|..], x_min, y_min, x_max, y_max)
    ensures processedIn <= processed
    ensures forall ii: nat {:trigger encode(Sample(x0, step, ii), lat)} ::
      Sample(x0, step, ii) <= xLimit && decode(encode(Sample(x0, step, ii), lat)).Ok? &&
      Overlaps(decode(encode(Sample(x0, step, ii), lat)).value, x_min, y_min, x_max, y_max) ==>
      encode(Sample(x0, step, ii), lat) in processed
  {
    meshesOut, meshCodesOut, processed := meshesIn, meshCodesIn, processedIn;
    var lon := x0;
    ghost var i: nat := 0;
    while lon <= xLimit
      invariant lon == Sample(x0, step, i)
      invariant |meshes| <= |meshesOut| && meshesOut[..|meshes|] == meshes
      invariant |meshCodes| <= |meshCodesOut| && meshCodesOut[..|meshCodes|] == meshCodes
      invariant forall c :: c in processed <==> c in meshCodesOut[|meshCodes|..]
      invariant SoundRows(decode, meshCodesOut[|meshCodes|..], meshesOut[|meshes|..], x_min, y_min, x_max, y_max)
      invariant processedIn <= processed
      invariant forall ii: nat {:trigger encode(Sample(x0, step, ii), lat)} ::
        ii < i && decode(encode(Sample(x0, step, ii), lat)).Ok? &&
        Overlaps(decode(encode(Sample(x0, step, ii), lat)).value, x_min, y_min, x_max, y_max) ==>
        encode(Sample(x0, step, ii), lat) in processed
      decreases (xLimit - lon) / step
    {
      var code := encode(lon, lat);
      var bounds := decode(code);
      if bounds.Ok? {
        if code !in processed {
          if Overlaps(bounds.value, x_min, y_min, x_max, y_max) {
            ghost var added, addedCells := meshCodesOut[|meshCodes|..], meshesOut[|meshes|..];
            SoundRowsAppend(decode, added, addedCells, code, bounds.value, x_min, y_min, x_max, y_max);
            meshesOut := meshesOut + [bounds.value];
            meshCodesOut := meshCodesOut + [code];
            processed := processed + {code};
            assert meshCodesOut[|meshCodes|..] == added + [code];
            assert meshesOut[|meshes|..] == addedCells + [bounds.value];
          }
        }
      }
      StepQuotient(xLimit - lon, step);
      lon := lon + step;
      i := i + 1;
    }
    forall ii: nat | Sample(x0, step, ii) <= xLimit
      ensures ii < i
    {
      if ii >= i {
        SampleMonotone(x0, step, i, ii);
      }
    }
  }

  /** The code of a position at a level, and the decoder of that level. */
  function EncoderAt(l: Level): (real, real) -> string {
    (lon: real, lat: real) => CodeAt(l, MeshCodeOf(lon, lat))
  }

  function DecoderAt(l: Level): string -> Result<Bounds, DecodeError> {
    (code: string) => DecodeAt(l, code)
  }

  /** Every producible code whose decoded cell overlaps the query is listed. */
  ghost predicate CompleteRows(l: Level, codes: seq<string>, x_min: real, y_min: real, x_max: real, y_max: real) {
    forall code :: Producible(l, code) && DecodeAt(l, code).Ok? && Overlaps(DecodeAt(l, code).value, x_min, y_min, x_max, y_max) ==>
      code in codes
  }

  /**
   * `_generate_mesh_grid`: the level's step and margin, then the lattice walk over the
   * query widened by the margin with the level's encoder and decoder. For a size name
   * that is no level the walk finds nothing to append.
   */
  method GenerateMeshGrid(x_min: real, y_min: real, x_max: real, y_max: real, meshSize: string,
                          meshes: seq<Bounds>, meshCodes: seq<string>)
      returns (meshesOut: seq<Bounds>, meshCodesOut: seq<string>)
    ensures |meshes| <= |meshesOut| && meshesOut[..|meshes|] == meshes
    ensures |meshCodes| <= |meshCodesOut| && meshCodesOut[..|meshCodes|] == meshCodes
    ensures GridLevel(meshSize).None? ==> meshesOut == meshes && meshCodesOut == meshCodes
    ensures GridLevel(meshSize).Some? ==>
      SoundRows(DecoderAt(GridLevel(meshSize).value), meshCodesOut[|meshCodes|..], meshesOut[|meshes|..], x_min, y_min, x_max, y_max)
    ensures GridLevel(meshSize).Some? && x_min <= x_max && y_min <= y_max ==>
      CompleteRows(GridLevel(meshSize).value, meshCodesOut[|meshCodes|..], x_min, y_min, x_max, y_max)
  {
    var level := GridLevel(meshSize);
    var step := GridStep(meshSize);
    var margin := GridMargin(meshSize);
    if level.None? {
      return meshes, meshCodes;
    }
    meshesOut, meshCodesOut := LevelGrid(level.value, EncoderAt(level.value), DecoderAt(level.value), step, margin,
                                         x_min, y_min, x_max, y_max, meshes, meshCodes);
  }

  /** `encode` and `decode` are the encoder and the decoder of level `l`. */
  ghost predicate LevelCoder(l: Level, encode: (real, real) -> string, decode: string -> Result<Bounds, DecodeError>) {
    encode == EncoderAt(l) && decode == DecoderAt(l)
  }

  /**
   * The walk of `_generate_mesh_grid` once the size name has selected a level, its step
   * and its margin; with the level's encoder and decoder it lists every cell it should.
   */
  method LevelGrid(l: Level, encode: (real, real) -> string, decode: string -> Result<Bounds, DecodeError>,
                   step: real, margin: real, x_min: real, y_min: real, x_max: real, y_max: real,
                   meshes: seq<Bounds>, meshCodes: seq<string>)
      returns (meshesOut: seq<Bounds>, meshCodesOut: seq<string>)
    requires FineLattice(l, step, margin)
    ensures |meshes| <= |meshesOut| && meshesOut[..|meshes|] == meshes
    ensures |meshCodes| <= |meshCodesOut| && meshCodesOut[..|meshCodes|] == meshCodes
    ensures SoundRows(decode, meshCodesOut[|meshCodes|..], meshesOut[|meshes|..], x_min, y_min, x_max, y_max)
    ensures LevelCoder(l, encode, decode) && x_min <= x_max && y_min <= y_max ==>
      CompleteRows(l, meshCodesOut[|meshCodes|..], x_min, y_min, x_max, y_max)
  {
    meshesOut, meshCodesOut := SampleLattice(encode, decode, x_min - margin, y_min - margin,
                                             x_max + margin, y_max + margin, step,
                                             x_min, y_min, x_max, y_max, meshes, meshCodes);
    LatticeComplete(l, encode, decode, step, margin, x_min, y_min, x_max, y_max, meshCodesOut[|meshCodes|..]);
  }

  /** The lattice of a level is fine enough for the walk, with the level's coder, to list every producible overlapping code. */
  lemma LatticeComplete(l: Level, encode: (real, real) -> string, decode: string -> Result<Bounds, DecodeError>,
                        step: real, margin: real, x_min: real, y_min: real, x_max: real, y_max: real,
                        codes: seq<string>)
    requires FineLattice(l, step, margin)
    requires Covers(encode, decode, x_min - margin, y_min - margin, x_max + margin, y_max + margin, step,
                    x_min, y_min, x_max, y_max, codes)
    ensures LevelCoder(l, encode, decode) && x_min <= x_max && y_min <= y_max ==> CompleteRows(l, codes, x_min, y_min, x_max, y_max)
  {
    if LevelCoder(l, encode, decode) && x_min <= x_max && y_min <= y_max {
      forall code | Producible(l, code) && DecodeAt(l, code).Ok? && Overlaps(DecodeAt(l, code).value, x_min, y_min, x_max, y_max)
        ensures code in codes
      {
        var ii, jj := SampledCode(l, step, margin, code, x_min, y_min, x_max, y_max);
        var lon, lat := Sample(x_min - margin, step, ii), Sample(y_min - margin, step, jj);
        assert encode(lon, lat) == code;
        assert decode(code) == DecodeAt(l, code);
      }
    }
  }


  /**
   * `generate_jpmesh`: the size name is checked first, then the rectangle, both
   * with an error; then the first level enumerates index pairs and every finer
   * level walks its sampling lattice, starting from empty lists.
   */
  method GenerateJpMesh(x_min: real, y_min: real, x_max: real, y_max: real, meshSize: string)
      returns (r: Result<MeshTable, GenerateError>)
    ensures meshSize !in ValidSizes ==> r == Err(InvalidMeshSize(meshSize))
    ensures meshSize in ValidSizes && (x_min >= x_max || y_min >= y_max) ==> r == Err(InvalidRange)
    ensures r.Ok? <==> meshSize in ValidSizes && x_min < x_max && y_min < y_max
    ensures r.Ok? && meshSize == "1st" ==> FirstRows(FirstGridOf(x_min, y_min, x_max, y_max), r.value.codes, r.value.cells)
    ensures r.Ok? && meshSize != "1st" ==>
      GridLevel(meshSize).Some? &&
      SoundRows(DecoderAt(GridLevel(meshSize).value), r.value.codes, r.value.cells, x_min, y_min, x_max, y_max) &&
      CompleteRows(GridLevel(meshSize).value, r.value.codes, x_min, y_min, x_max, y_max)
  {
    if meshSize !in ValidSizes {
      return Err(InvalidMeshSize(meshSize));
    }
    if x_min >= x_max || y_min >= y_max {
      return Err(InvalidRange);
    }
    if meshSize == "1st" {
      var t := FirstLevelMeshes(x_min, y_min, x_max, y_max);
      return Ok(t);
    }
    var meshes, meshCodes := GenerateMeshGrid(x_min, y_min, x_max, y_max, meshSize, [], []);
    assert meshes[0..] == meshes && meshCodes[0..] == meshCodes;
    return Ok(MeshTable(meshCodes, meshes));
  }
}
