/** The bounded random walk of `random_step` in cassandraBirdsClient.py.
    The two uniform draws are parameters (`dlat`, `dlon`), and IEEE doubles
    are exact reals. */
module RandomWalk {

  /** The default step bound `step_deg`, in degrees. */
  const StepDeg: real := 0.01

  /** A draw of `random.uniform(-step, step)` lies in [-step, step]. */
  predicate WithinStep(d: real, step: real)
  {
    -step <= d <= step
  }

  predicate ValidLatitude(lat: real) { -90.0 <= lat <= 90.0 }

  predicate ValidLongitude(lon: real) { -180.0 <= lon <= 180.0 }

  /** The single-shot `if/elif` latitude reflection. It mirrors once at the
      pole that was crossed; it does not shift the longitude by 180 degrees as
      a true polar crossing would. */
  function ReflectLatitude(lat: real): (r: real)
    ensures -270.0 <= lat <= 270.0 ==> ValidLatitude(r)
    ensures ValidLatitude(lat) ==> r == lat
  {
    if lat > 90.0 then 180.0 - lat
    else if lat < -90.0 then -180.0 - lat
    else lat
  }

  /** The single-shot `if/elif` longitude wrap: at most one adjustment of 360. */
  function WrapLongitude(lon: real): (r: real)
    ensures -540.0 <= lon <= 540.0 ==> ValidLongitude(r)
    ensures ValidLongitude(lon) ==> r == lon
    ensures r == lon || r == lon - 360.0 || r == lon + 360.0
  {
    if lon > 180.0 then lon - 360.0
    else if lon < -180.0 then lon + 360.0
    else lon
  }

  /** `random_step(lat, lon)` once its two draws are known. */
  function RandomStep(lat: real, lon: real, dlat: real, dlon: real): (r: (real, real))
    ensures ValidLatitude(lat + dlat) ==> r.0 == lat + dlat
    ensures lat + dlat > 90.0 ==> r.0 == 180.0 - (lat + dlat)
    ensures lat + dlat < -90.0 ==> r.0 == -180.0 - (lat + dlat)
    ensures ValidLongitude(lon + dlon) ==> r.1 == lon + dlon
  {
    (ReflectLatitude(lat + dlat), WrapLongitude(lon + dlon))
  }

  /** Within the band [-270, 270] the reflection lands on a valid latitude,
      and within [-540, 540] the wrap lands on a valid longitude. */
  lemma StepLandsInRange(lat: real, lon: real, dlat: real, dlon: real)
    requires -270.0 <= lat + dlat <= 270.0
    requires -540.0 <= lon + dlon <= 540.0
    ensures ValidLatitude(RandomStep(lat, lon, dlat, dlon).0)
    ensures ValidLongitude(RandomStep(lat, lon, dlat, dlon).1)
  {
  }

  /** Outside that band one reflection is not enough: 271 degrees comes back
      as -91, still out of range. */
  lemma ReflectionLeavesRangeBeyondBand()
    ensures ReflectLatitude(271.0) == -91.0
    ensures !ValidLatitude(ReflectLatitude(271.0))
  {
  }

  /** A step with both draws zero leaves an in-range position unchanged. */
  lemma ZeroStepIsIdentity(lat: real, lon: real)
    requires ValidLatitude(lat) && ValidLongitude(lon)
    ensures RandomStep(lat, lon, 0.0, 0.0) == (lat, lon)
  {
  }

  /** Once in range, wrapping again changes nothing; likewise reflecting. */
  lemma AdjustmentsIdempotent(lat: real, lon: real)
    requires -270.0 <= lat <= 270.0 && -540.0 <= lon <= 540.0
    ensures ReflectLatitude(ReflectLatitude(lat)) == ReflectLatitude(lat)
    ensures WrapLongitude(WrapLongitude(lon)) == WrapLongitude(lon)
  {
  }

  /** From a valid latitude, the reflected latitude is never farther from the
      start than the drawn delta: reflection only folds the overshoot back. */
  lemma ReflectionWithinDelta(lat: real, dlat: real, step: real)
    requires ValidLatitude(lat) && WithinStep(dlat, step)
    ensures WithinStep(RandomStep(lat, 0.0, dlat, 0.0).0 - lat, step)
  {
  }
}
