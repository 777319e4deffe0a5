/** The shared records: bounding boxes, coordinate pairs, the mesh design validator and Japan's box. */
module Data {
  import opened Wrappers

  /**
   * A bounding box. The constructor's positional order (x_min, y_min, x_max, y_max) is
   * the order in which callers unpack it; no ordering between the minima and maxima is
   * enforced, so a single point is a box too.
   */
  datatype Bounds = Bounds(x_min: real, y_min: real, x_max: real, y_max: real)

  /** A coordinate pair. */
  datatype XY = XY(x: real, y: real)

  /** A validated position for the Japanese mesh. */
  datatype MeshDesignJP = MeshDesignJP(lon: real, lat: real)

  datatype DesignError = LonOutOfRange(lon: real) | LatOutOfRange(lat: real)

  /**
   * The checks run when a `MeshDesignJP` is built: longitude first, then latitude,
   * both with inclusive limits; on success the inputs are stored unchanged.
   */
  function NewMeshDesignJP(lon: real, lat: real): (r: Result<MeshDesignJP, DesignError>)
    ensures r.Ok? <==> -180.0 <= lon <= 180.0 && -90.0 <= lat <= 90.0
    ensures r.Ok? ==> r.value.lon == lon && r.value.lat == lat
    ensures !(-180.0 <= lon <= 180.0) ==> r == Err(LonOutOfRange(lon))
    ensures -180.0 <= lon <= 180.0 && !(-90.0 <= lat <= 90.0) ==> r == Err(LatOutOfRange(lat))
  {
    if !(-180.0 <= lon <= 180.0) then
      Err(LonOutOfRange(lon))
    else if !(-90.0 <= lat <= 90.0) then
      Err(LatOutOfRange(lat))
    else
      Ok(MeshDesignJP(lon, lat))
  }

  /** The limits of the area where the Japanese plane rectangular systems apply. */
  const JapanLatMax: real := 45.55
  const JapanLatMin: real := 20.36
  const JapanLonMax: real := 154.06
  const JapanLonMin: real := 122.82

  predicate InJapan(lon: real, lat: real) {
    JapanLonMin <= lon <= JapanLonMax && JapanLatMin <= lat <= JapanLatMax
  }

  /** The strict overlap test between a cell and the query rectangle of the mesh generator. */
  predicate Overlaps(b: Bounds, x_min: real, y_min: real, x_max: real, y_max: real) {
    b.x_max > x_min && b.x_min < x_max && b.y_max > y_min && b.y_min < y_max
  }
}
