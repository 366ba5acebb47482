/** The flat-earth projection of `geo.ts`. The two functions it takes from the runtime are parameters:
    metres per degree of longitude at a latitude, and `Math.hypot`. */
module Geo {

  const METERS_PER_DEG_LAT := 111132.0

  datatype Plane = Plane(mLon: real -> real, hypot: (real, real) -> real)

  /** A degree of longitude has a positive length, and `hypot` is the non-negative root of the sum of squares. */
  ghost predicate Sound(p: Plane) {
    && (forall lat: real :: p.mLon(lat) > 0.0)
    && (forall x: real, y: real :: p.hypot(x, y) >= 0.0 && p.hypot(x, y) * p.hypot(x, y) == x * x + y * y)
  }

  function DistanceM(p: Plane, lat1: real, lon1: real, lat2: real, lon2: real): real {
    p.hypot((lon2 - lon1) * p.mLon((lat1 + lat2) / 2.0), (lat2 - lat1) * METERS_PER_DEG_LAT)
  }

  /** The distance of two places is Pythagorean, in metres east and metres north of their middle. */
  lemma DistanceIsPythagorean(p: Plane, lat1: real, lon1: real, lat2: real, lon2: real)
    requires Sound(p)
    ensures var east, north := (lon2 - lon1) * p.mLon((lat1 + lat2) / 2.0), (lat2 - lat1) * 111132.0;
            var d := DistanceM(p, lat1, lon1, lat2, lon2);
            d >= 0.0 && d * d == east * east + north * north
  {}
}
