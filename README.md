# geomesh core in Dafny

This project models the computational core of `geomesh`, a Python library that splits regions into grid cells. It covers four pieces:

- **The Japanese regional mesh (地域メッシュ).** `MeshCodeJP` encodes a longitude/latitude pair into five nested digit codes: first level, second level, standard, half and quarter. Five decoders turn each code back into its bounding box. `generate_jpmesh` lists every cell of a level that overlaps a query rectangle.
- **The square grid.** `SquareMesh` tiles a rectangle with squares of a fixed side, row by row from the top-left corner, after scaling the coordinates to integers by 10^10.
- **Degree-minute-second conversion.** `dms_to_degree` reads a `DDDMMSS.frac` number and returns decimal degrees.
- **Slippy-map tiles.** `TileDesigner` computes the x index of a tile and enumerates the tile indices that cover a rectangle.

The files are:

| file | module | contents |
|---|---|---|
| `wrappers.dfy` | `Wrappers` | `Option` and `Result` |
| `digits.dfy` | `Digits` | decimal text: `str(int)`, `int(str)` on an ASCII sign and ASCII digits, slices |
| `arith.dfy` | `Arith` | integer product lemmas shared by the grid proofs |
| `data.dfy` | `Data` | `Bounds`, `XY`, the `MeshDesignJP` validator, the box of Japan |
| `jpmesh.dfy` | `JpMesh` | the encoder `MeshCodeOf` and the five decoders |
| `jpmesh_properties.dfy` | `JpMeshProperties` | lengths, prefixes, round trips, membership, nesting, error digits |
| `jpmesh_generate.dfy` | `JpMeshGenerate` | `generate_jpmesh` and `_generate_mesh_grid` as methods with loops |
| `square.dfy` | `Square` | the square constructors and the tiling loops |
| `geometries.dfy` | `Geometries` | `dms_to_degree` and `dms_to_degree_lonlat` |
| `glmesh.dfy` | `GlMesh` | tile index, tile designs and the `tiles` loops |

Coordinates are exact `real`s. Python's `int()` on a float truncates toward zero, and `JpMesh.Trunc` models this. `math.floor` is Dafny's `.Floor`. For points inside `JpMesh.CodeDomain` the encoder's codes are strings of ASCII digits. Outside it a negative index puts a '-' into a code (latitude -0.5, longitude 139.5 gives the first-level code "-139"), and a three-digit index adds a digit.

Several things are parameters of the model:

- A tile's y index and its bounds depend on trigonometry and reprojection, so they are function-typed parameters (`yIndex`, `tileBounds`).
- The text of a float argument is given as a string.
- `generate_squares_from_area` takes the side instead of the area.

All loops of the source are modelled as loops:

- the first-level `for` loops of `generate_jpmesh`;
- the lattice `while` loops of `_generate_mesh_grid`;
- the `range` loops of the square grid;
- the loops of `tiles`.

Each loop method is proved equal to, or to satisfy, a reference function or predicate. The lemmas then state the source's promises about that reference.

The quarter-level latitude bit of the encoder is modelled as the code computes it. `divmod(b, 7.5)` is applied to a remainder below 5 minutes, so the bit is always 0, and the quarter digit is always 1 or 2. `JpMesh.LatDivisionOf` states `z.t == 0`. The lemmas then say exactly which points still fall in their decoded quarter cell: `EncodedInQuarterCell` and `QuarterCellIsGridCell`.

`dms_to_degree` keeps a minus sign inside the integer part of `str(float)`. The degrees slice `[:-4]` takes it, and the minutes and seconds stay positive. So -14°00'51.5" converts to -13.9857 and not to -14.0143 (`Geometries.SignedDegreesOnly`). A negative number is accepted with 5 or 6 digits, because the sign counts toward the 6 or 7 characters.

Some of the repository's tests disagree with the code:

- The Aomori fixture `6140158933` follows the bit-correct rule. The code gives `6140158931`, as `AomoriQuarterCode` proves. `AomoriQuarterCells` shows the point lies in the fixture's cell and not in the code's.
- The Hokkaido fixture `6441427742` agrees with the code (`HokkaidoQuarterCode`).

## Model

| member | source | states |
|---|---|---|
| Data.NewMeshDesignJP | geomesh/data.py:61-67 | accepted iff -180 <= lon <= 180 and -90 <= lat <= 90 (inclusive); the longitude error comes before the latitude error; on success the stored values equal the inputs |
| JpMeshProperties.JapanInDomain | geomesh/config.py:15-18 | every point of the box of Japan has a two-digit latitude index floor(1.5 lat) and a two-digit longitude index floor(lon) - 100, the domain of the code properties |
| Digits.ParseInt | geomesh/jpmesh.py:99-100 | `int()` of a slice, on ASCII text only: a text that starts with a digit is accepted only when it is all digits, with their decimal value; the empty text is refused |
| Digits.ParseIntToString | geomesh/jpmesh.py:99-100 | `int(str(n)) == n` for every integer, so the slices of an encoded code read back the indices written into it |
| JpMesh.Trunc | geomesh/jpmesh.py:72 | `int()` of a float: the integer between the value and zero, within one of it |
| JpMesh.DivMod | geomesh/jpmesh.py:58-62 | Python `divmod` on positive divisors: the remainder lies in [0, y) and x == q*y + r |
| JpMesh.LatDivisionOf | geomesh/jpmesh.py:58-62 | the latitude chain: 40', then 5', then 30" and 15" remainders with their quotient ranges; the quarter bit t is always 0 |
| JpMesh.LonDivisionOf | geomesh/jpmesh.py:67-72 | the longitude chain: integer degree, then 7.5', 45", 22.5" and 11.25" with their quotient ranges |
| JpMesh.MeshCodeOf | geomesh/jpmesh.py:38-89 | each of the five codes is a proper prefix of the next |
| JpMeshProperties.EncodedDigits | geomesh/jpmesh.py:63-82 | the digits of each code: p and u as two digits each, then q v, r w, the half digit 2s+x+1 and the quarter digit y+1 |
| JpMeshProperties.EncodedLengths | geomesh/jpmesh.py:63-82 | inside the domain the codes have lengths 4, 6, 8, 9 and 10 and are all digits |
| JpMesh.DecodeFirst | geomesh/jpmesh.py:99-106 | succeeds iff both two-digit slices parse under `Digits.ParseInt`; the cell is 1 degree wide and 2/3 degree high |
| JpMesh.DecodeSecondary | geomesh/jpmesh.py:118-127 | succeeds iff the first level decodes and digits 5 and 6 parse under `Digits.ParseInt`; the cell is 1/8 by 1/12 degree |
| JpMesh.DecodeStandard | geomesh/jpmesh.py:138-155 | succeeds iff the second level decodes and digits 7 and 8 parse under `Digits.ParseInt`; the cell is 1/80 by 1/120 degree |
| JpMesh.Quadrant | geomesh/jpmesh.py:176-185 | the half/quarter digit table is defined exactly on the digits 1..4 |
| JpMesh.QuadrantOffsets | geomesh/jpmesh.py:176-185 | 1=SW, 2=SE, 3=NW, 4=NE: digit d stands for the (x, y) offsets ((d-1)%2, (d-1)/2) |
| JpMesh.DecodeHalf | geomesh/jpmesh.py:159-195 | a decoded half cell is 1/160 by 1/240 degree |
| JpMesh.DecodeQuarter | geomesh/jpmesh.py:197-250 | a decoded quarter cell is 1/320 by 1/480 degree |
| JpMeshProperties.DecodeEncodedFirst | geomesh/jpmesh.py:91-108 | decoding the encoded first-level code gives the 1 x 2/3 degree grid cell that holds the point |
| JpMeshProperties.DecodeEncodedSecondary | geomesh/jpmesh.py:110-128 | decoding the encoded second-level code gives the grid cell of the point at that level |
| JpMeshProperties.DecodeEncodedStandard | geomesh/jpmesh.py:130-157 | decoding the encoded standard code gives the grid cell of the point at that level |
| JpMeshProperties.DecodeEncodedHalf | geomesh/jpmesh.py:159-195 | decoding the encoded half code gives the grid cell of the point at that level |
| JpMeshProperties.DecodeEncodedQuarter | geomesh/jpmesh.py:197-250 | decoding the encoded quarter code gives the point's quarter column over the southern quarter of its half cell |
| JpMeshProperties.EncodedInCell | geomesh/jpmesh.py:58-195 | at the first four levels the point lies in the decoded cell of its own code, x_min <= lon < x_max and y_min <= lat < y_max |
| JpMeshProperties.EncodedInQuarterCell | geomesh/jpmesh.py:197-250 | at the quarter level the point lies in its decoded cell iff it is in the southern half of its half cell |
| JpMeshProperties.QuarterCellIsGridCell | geomesh/jpmesh.py:62 | the decoded quarter cell equals the point's grid cell iff floor(480 lat) is even |
| JpMeshProperties.FirstCellEncodes | geomesh/jpmesh.py:91-108 | the converse of membership: every point of the decoded cell of a well-formed first-level code encodes to that code |
| JpMeshProperties.SecondaryCellEncodes | geomesh/jpmesh.py:110-128 | the converse of membership at the second level |
| JpMeshProperties.StandardCellEncodes | geomesh/jpmesh.py:130-157 | the converse of membership at the standard level |
| JpMeshProperties.HalfCellEncodes | geomesh/jpmesh.py:159-195 | the converse of membership at the half level |
| JpMeshProperties.QuarterCellEncodes | geomesh/jpmesh.py:197-250 | a point of a decoded quarter cell encodes to the code with its last digit's latitude bit cleared, equal to the code iff that digit is 1 or 2 |
| JpMeshProperties.SecondaryWithinFirst | geomesh/jpmesh.py:110-128 | a second-level cell with digits 0..7 lies inside its first-level cell on all four sides |
| JpMeshProperties.StandardWithinSecondary | geomesh/jpmesh.py:146-147 | a standard cell lies inside its second-level cell |
| JpMeshProperties.HalfWithinStandard | geomesh/jpmesh.py:170-172 | a half cell lies inside its standard cell |
| JpMeshProperties.QuarterWithinHalf | geomesh/jpmesh.py:209-227 | a quarter cell lies inside its half cell |
| JpMeshProperties.HalfDigitError | geomesh/jpmesh.py:184-185 | a half code decodes iff its ninth digit is 1..4; otherwise the error carries that digit |
| JpMeshProperties.QuarterDigitError | geomesh/jpmesh.py:223-240 | a quarter code decodes iff digits 9 and 10 are in 1..4; a bad ninth digit is reported first, then a bad tenth digit |
| JpMeshProperties.HokkaidoQuarterCode | tests/data.py:26 | the Hokkaido point encodes to the fixture's quarter code 6441427742 |
| JpMeshProperties.AomoriQuarterCode | tests/data.py:27 | the Aomori point encodes to 6140158931, not to the fixture's 6140158933 |
| JpMeshProperties.AomoriQuarterCells | tests/data.py:27 | the cell of 6140158931 lies south of the Aomori point; the cell of 6140158933 holds it |
| JpMeshGenerate.GenerateJpMesh | geomesh/jpmesh.py:263-355 | an unknown size name fails first, then an empty range; it succeeds iff the size is valid and x_min < x_max and y_min < y_max; the first level gives the keyed grid, the other levels give distinct overlapping cells and every producible overlapping code |
| JpMeshGenerate.FirstLevelMeshes | geomesh/jpmesh.py:301-332 | the first-level loops append, for every kept (lat, lon) pair of the bounds' integer ranges, its key and its decoded cell, in row order |
| JpMeshGenerate.FirstRowMeshes | geomesh/jpmesh.py:308-319 | the inner loop appends the key and decoded cell of every kept pair of one row |
| JpMeshGenerate.FirstProbeMatchesKey | geomesh/jpmesh.py:312-318 | the probe point's encoded code equals the row/column key iff both indices have two or more digits (at least 10) |
| JpMeshGenerate.FirstKeyInjective | geomesh/jpmesh.py:312 | two-digit index pairs with equal keys are equal |
| JpMeshGenerate.FirstCodesDistinct | geomesh/jpmesh.py:307-319 | the first-level keys listed are pairwise distinct |
| JpMeshGenerate.FirstCovers | geomesh/jpmesh.py:302-319 | every point of the query in the code domain has its first-level code among the listed keys |
| JpMeshGenerate.GridStep | geomesh/jpmesh.py:373-382 | the sampling step is positive and no larger than the level's cell width and height |
| JpMeshGenerate.GridMargin | geomesh/jpmesh.py:388-397 | the margin is at least one step |
| JpMeshGenerate.CoveringSample | geomesh/jpmesh.py:400-403 | on an interval at least one step long that meets the query, some sample of the widened lattice falls inside it |
| JpMeshGenerate.SampledCode | geomesh/jpmesh.py:400-436 | every producible code whose cell overlaps the query is the code of some lattice sample |
| JpMeshGenerate.SampleLattice | geomesh/jpmesh.py:400-443 | the lattice walk keeps the caller's rows as a prefix and appends distinct codes in lockstep with their decoded cells, each overlapping the query, and lists every overlapping sampled code |
| JpMeshGenerate.SampleRow | geomesh/jpmesh.py:402-442 | one row of the walk keeps the caller's rows as a prefix, keeps the appended rows distinct, decoded and overlapping, never forgets a processed code, and processes every sample of the row whose cell decodes and overlaps |
| JpMeshGenerate.GenerateMeshGrid | geomesh/jpmesh.py:358-443 | an unknown level name appends nothing; otherwise the appended rows are sound (distinct, decoded, overlapping) and, for a non-empty query, complete |
| JpMeshGenerate.LevelGrid | geomesh/jpmesh.py:384-443 | for a step and margin fine enough for the level, the walk keeps the caller's rows, appends sound rows, and, with the level's own encoder and decoder and a non-empty query, lists every producible overlapping code |
| JpMeshGenerate.LatticeComplete | geomesh/jpmesh.py:384-436 | with the level's encoder and decoder and a non-empty query, a walk that lists every overlapping sampled code lists every producible overlapping code |
| Square.CreateSquareFromLength | geomesh/square.py:12-40 | the square has top-left corner (x_min, y_max), width horizontal and height vertical, which defaults to horizontal |
| Square.CreateSquareFromArea | geomesh/square.py:43-66 | with the side given, the square is the square from length with equal sides, of area side*side |
| Square.RangeSeq | geomesh/square.py:173-174 | Python `range`: starts at start, consecutive elements differ by step, and every element lies on start's side of stop |
| Square.RangeAt | geomesh/square.py:173-174 | the k-th element of a range is start + k*step |
| Square.RangeLength | geomesh/square.py:173-174 | a range has ceil(width/|step|) elements, with the bracket (n-1)*s < width <= n*s, and none when the bounds are reversed |
| Square.TileScaled | geomesh/square.py:170-182 | the nested loops produce exactly the reference table: ids, "x_id/y_id" labels and squares |
| Square.TileRow | geomesh/square.py:174-182 | the inner loop appends one row's squares and labels and leaves x_id at the row's length |
| Square.GenerateSquaresFromLength | geomesh/square.py:142-187 | the result is the reference table over the bounds and sides scaled by 10^10 and truncated, with vertical defaulting to horizontal |
| Square.GenerateSquaresFromArea | geomesh/square.py:189-225 | the result is the reference table with both sides equal to the given side |
| Square.SquareCount | geomesh/square.py:173-185 | for positive sides the table has nx*ny squares, labels and ids, with nx and ny the ceil counts of the two ranges |
| Square.SquareAt | geomesh/square.py:173-181 | entry a*nx+b is the square with top-left corner (x_min + b*h, y_max - a*v), that corner lies in [x_min, x_max) x (y_min, y_max], and its label is "b/a" |
| Square.FirstSquareCorner | geomesh/square.py:173-175 | the first square's top-left corner is (x_min, y_max) and its label is "0/0" |
| Square.ZeroSideFails | geomesh/square.py:173-174 | a zero vertical side fails; a zero horizontal side fails iff there is at least one row |
| Square.RangeLengthAntitone | geomesh/square.py:173-174 | a smaller positive step never gives a shorter range |
| Square.SmallerSidesNoFewerSquares | geomesh/square.py:173-174 | on the same rectangle, sides no larger than others never give fewer squares |
| Square.SmallerSideMoreSquares | tests/test_square.py:29-37 | over 139..140 x 35..36, side 0.1 gives 100 squares and side 0.01 gives 10000 |
| Geometries.ParseNumeral | geomesh/geometries.py:62-65 | an accepted numeral has digits in both parts, at least one digit in all, and is negative exactly when the text starts with '-' |
| Geometries.NumeralSpelled | geomesh/geometries.py:62-65 | an accepted text is its numeral written out: '-' exactly when it is negative, else no sign or '+', then the integer digits and a '.' before the fraction digits, the '.' optional when there are none |
| Geometries.NumeralAccepted | geomesh/geometries.py:62-65 | every text of that form is accepted, with exactly those parts and sign |
| Geometries.FloatText | geomesh/geometries.py:66-69 | the text holds one '.'; before it the sign and the whole part without leading zeros, after it the fraction or "0" |
| Geometries.StripLeadingZeros | geomesh/geometries.py:66 | drops leading zeros but keeps one digit, and keeps the value |
| Geometries.QuantizeDown | geomesh/geometries.py:75-77 | the coefficient of the rounded value: x*10^digits truncated toward zero |
| Geometries.Quantize | geomesh/geometries.py:75-77 | rounding under the ROUND_DOWN, 13-digit decimal context: fails iff the coefficient has more than 13 digits, otherwise it is x truncated to `digits` places |
| Geometries.DmsErrors | geomesh/geometries.py:62-71 | text that is not a number fails as such; a number fails with the length error iff its integer part has fewer than 6 or more than 7 characters |
| Geometries.DmsAccepted | geomesh/geometries.py:66-77 | a numeral with 6 or 7 integer digits, or 5 or 6 behind a minus sign (leading zeros aside), converts to deg + min/60 + (sec + fraction)/3600 rounded toward zero to `digits` places, with the slices of the integer part; a minus sign negates deg only |
| Geometries.SignedDegreesOnly | geomesh/geometries.py:72-74 | -140051.5 converts to -13.985694444 = -14 + 51.5/3600, not to -(14 + 51.5/3600) |
| Geometries.DmsDefaultAccepted | geomesh/geometries.py:45 | at the default 9 digits every numeral of those lengths, signed or not, converts without exceeding the precision |
| Geometries.DmsToDegreeLonLat | geomesh/geometries.py:107-109 | longitude and latitude are converted independently with the same digits; the longitude's error is reported first |
| Geometries.NotNumeralRefused | geomesh/geometries.py:62-65 | "abc" and "1.2.3" are refused as not numbers |
| Geometries.LengthRefused | geomesh/geometries.py:70-71 | 5- and 8-digit integer parts are refused with their length |
| Geometries.TokyoConversion | tests/test_geometries.py:72-80 | 1400516.2781 converts into (140, 141) and 360613.5892 into (36, 37) |
| GlMesh.DefaultTileDesigner | geomesh/glmesh.py:146-149 | the default designer is 256 by 256 |
| GlMesh.XIndex | geomesh/glmesh.py:181-182 | the x index is the integer part of (lon+180)/360 * 2^zoom and lies in [0, 2^zoom) for lon in [-180, 180) |
| GlMesh.XIndexMonotone | geomesh/glmesh.py:181-182 | the x index never decreases with the longitude |
| GlMesh.LonLatToTileIdx | geomesh/glmesh.py:158-185 | the index pair is the x index and the given y index |
| GlMesh.FromTileIdx | geomesh/glmesh.py:244-258 | fails iff the zoom is outside [0, 24]; otherwise the design carries exactly the given x, y, zoom, the tile's bounds and the designer's width and height |
| GlMesh.FromLonLat | geomesh/glmesh.py:218-239 | fails iff the zoom is outside [0, 24]; otherwise it is the design of the tile index computed for the same point |
| GlMesh.Tiles | geomesh/glmesh.py:265-310 | fails iff the zoom is outside [0, 24]; otherwise the loops produce the reference grid from sw.x to ne.x and from ne.y to sw.y |
| GlMesh.TileColumnAppend | geomesh/glmesh.py:305-307 | the inner loop appends one column of designs with y growing southward |
| GlMesh.TileGridLength | geomesh/glmesh.py:304-307 | the grid has (ne.x - sw.x + 1) * (sw.y - ne.y + 1) designs, none when a range is empty |
| GlMesh.TileGridAt | geomesh/glmesh.py:304-307 | entry a*ny+b is the design of tile (x0 + a, y0 + b): x in the outer loop, y in the inner one |
| GlMesh.TilesEnumeration | geomesh/glmesh.py:304-307 | every design lies in the two ranges at the given zoom, and no (x, y) pair appears twice |
| GlMesh.TilesComplete | geomesh/glmesh.py:304-307 | every tile of the two ranges appears |
| GlMesh.TilesNonEmptyColumns | geomesh/glmesh.py:300-304 | for x_min <= x_max the outer range holds at least one column |
| GlMesh.DefaultDesignSize | tests/test_glmesh.py:70-75 | designs from the default designer are 256 by 256 |

## Left out

- Floating point and `Decimal` are exact reals. This drops the binary rounding of the encoder's divisions, the float steps of the mesh sampler and the float-to-`Decimal` conversions in the decoders. It also drops the 13-digit `ROUND_DOWN` context applied to the decoders' intermediate products.
- Geometries.DmsAccepted: the seconds and minutes are exact quotients. The source computes them as floats, turns them into `Decimal` through their text, and truncates the sum `deg + min + sec` to 13 significant digits before rounding.
- Geometries.ParseNumeral: Python's `float()` also accepts whitespace, underscores, exponents, `inf` and `nan`. The model refuses these forms.
- Digits.ParseInt: Python's `int()` also strips surrounding whitespace, allows `_` between digits and reads non-ASCII decimal digits such as '５'. The model refuses these texts, so the decoders refuse codes that Python decodes: "5 39" decodes in Python to the first-level cell with `lat` 5.
- JpMesh.DecodeFirst: succeeds exactly when both slices parse under `Digits.ParseInt`, which is narrower than `int()` on whitespace, underscores and non-ASCII digits.
- JpMesh.DecodeSecondary: the same narrowing of `int()` for its four slices.
- JpMesh.DecodeStandard: the same narrowing of `int()` for its six slices.
- JpMesh.DecodeHalf: the same narrowing of `int()`. The standard cell is decoded from the first eight characters of the half code, where `MeshCodeJP.half_mesh` reads the separate `standard_mesh_code` attribute. The two agree for every object the constructor builds, because `JpMesh.MeshCodeOf` makes the standard code a prefix of the half code.
- JpMesh.DecodeQuarter: the same narrowing of `int()`, and the same reading of the standard cell from the code's prefix instead of the `standard_mesh_code` attribute.
- Square.SmallerSideMoreSquares: strictly more squares for a smaller side is stated only for the sides of the test. It does not hold in general: across a range 10^10 wide, sides 6·10^9 and 7·10^9 both give 2 columns. `Square.SmallerSidesNoFewerSquares` states the general "never fewer" form.
- Geometries.FloatText: a numeral with more digits than a double holds keeps its fraction as written. `str(float)` would round it, or print it in exponent form.
- `dms_to_degree`'s `decimal_obj` flag only decides between `Decimal` and `float` for the result. The model returns the exact value. A negative `digits` is not modelled (it is a `nat`).
- The `is_dms` branch of `MeshCodeJP.__init__` composes the DMS conversion with the encoder. It is not modelled separately.
- `transform_xy` and the `in_crs` reprojection are calls into pyproj. Inputs are taken as longitude/latitude.
- The tile y index (tan, cos and log) and `_tile_idx_to_bounds` are transcendental and reproject through pyproj. They are the parameters `yIndex` and `tileBounds`. `x_resolution`, `y_resolution` and the 4-decimal `floor` are float rounding and are not modelled.
- `TileDesigner.__post_init__` is never called, because `TileDesigner` is not a dataclass. Width and height are not validated.
- The type-checking decorators of `formatter.py` coerce arguments through `float()`, `int()` and `pyproj.CRS`. Only the zoom range [0, 24] is kept.
- GlMesh.LonLatToTileIdx: the zoom is a `nat`. The zoom check of the calling methods guards it.
- GeoDataFrame and shapely packaging, and the YAML `__str__` output, are library output. Rows are modelled as sequences of `Bounds` and code strings, or of `TileDesign`s.
- Square.GenerateSquaresFromArea: the side is an input. The float square root `area ** 0.5` is not modelled.
- Square.GenerateSquaresFromLength: `int(v * 10**10)` is truncation of the exact product. Float rounding of the product is not modelled.
- The lists that `_generate_mesh_grid` appends to belong to the caller. They are modelled as values passed in and returned, so aliasing is not captured.
- JpMeshGenerate.GenerateMeshGrid: for a size name that is no level, the source walks the lattice and appends nothing. The model returns at once with the same result.
- The `ZeroDivisionError` handler of `_generate_mesh_grid` has no reachable cause in the model. Every level's step is positive.
- JpMeshGenerate.FirstCodesDistinct: it is stated for row and column indices below 100, which the box of Japan implies. Wider indices give keys of three digits, and two different pairs can then concatenate to the same key.
- JpMeshProperties.EncodedInCell: membership is stated in floor form, x_min <= lon < x_max. The tests state x_min < lon <= x_max. The two agree for points off the grid lines.
- JpMesh.MeshCodeOf: the quarter latitude bit is always 0, as the code computes it. The bit-correct quarter code is not modelled.
- Geometries.DmsToDegree: its contract lives in the lemmas DmsErrors, DmsAccepted and DmsDefaultAccepted. Its last match branch cannot be reached, because the three slices always parse.
- The repository's tests call a slightly different API (`mesh_name=`, `mesh_code_to_bounds`, `TileDesign.zxy`). The lemmas state those tests' assertions against the names in the source.
- Standard and second-level codes in the test fixtures of `tests/conftest.py` disagree with their coordinates. Only first-level codes and the two quarter codes of `tests/data.py` are stated.
