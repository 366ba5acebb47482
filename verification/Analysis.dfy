/** The shapes of `analysis.types.ts`. Times of stored samples are `Date`s, so whole milliseconds;
    instants interpolated between them are real numbers. */
module Analysis {
  import opened SampleMath

  datatype Sample = Sample(
    time: int,
    lat: Option<real>,
    lon: Option<real>,
    speedKmh: Option<real>,
    rpm: Option<real>,
    coolantC: Option<real>,
    oilC: Option<real>,
    gLat: Option<real>,
    gLon: Option<real>)

  /** A fix with no position cannot sit on a racing line. */
  predicate IsPositioned(s: Sample) {
    s.lat.Some? && s.lon.Some?
  }

  datatype LapPoint = LapPoint(timeMs: real, lat: real, lon: real, distM: real, speedKmh: Option<real>,
                               gLon: Option<real>)

  datatype Gate = Gate(lat1: real, lon1: real, lat2: real, lon2: real)

  datatype BrakingPoint = BrakingPoint(distM: real, lat: real, lon: real, entrySpeedKmh: real, peakDecelG: real)

  /** One point of a rebuilt trace (`LapTracePointDto`). */
  datatype TracePoint = TracePoint(
    distM: real,
    elapsedMs: real,
    lat: real,
    lon: real,
    speedKmh: Option<real>,
    rpm: Option<real>,
    coolantC: Option<real>,
    oilC: Option<real>,
    gLat: Option<real>,
    gLon: Option<real>)

  /** Distance along a trace never goes back. */
  ghost predicate TraceAscends(points: seq<TracePoint>) {
    forall i, j :: 0 <= i <= j < |points| ==> points[i].distM <= points[j].distM
  }

  ghost predicate ElapsedAscends(points: seq<TracePoint>) {
    forall i, j :: 0 <= i <= j < |points| ==> points[i].elapsedMs <= points[j].elapsedMs
  }

  ghost predicate TimesAscend(points: seq<LapPoint>) {
    forall i, j :: 0 <= i <= j < |points| ==> points[i].timeMs <= points[j].timeMs
  }

  ghost predicate DistancesAscend(points: seq<LapPoint>) {
    forall i, j :: 0 <= i <= j < |points| ==> points[i].distM <= points[j].distM
  }
}
