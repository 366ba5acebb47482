/** `braking-points.ts`: braking zones by hysteresis, merging of zones close together, and the filter
    for sustained ones. Zones refer to points of the lap by position. */
module BrakingPoints {
  import opened SampleMath
  import opened Analysis

  const G := 9.80665
  const BRAKING_ENTER_G := 0.3
  const BRAKING_EXIT_G := 0.15
  const MIN_BRAKING_MS := 250.0
  const BRAKING_MERGE_MS := 400.0

  datatype Zone = Zone(start: nat, end: nat, peakDecelG: real)

  function DecelerationG(a: LapPoint, b: LapPoint): Option<real> {
    if b.gLon.Some? then Some(-b.gLon.value)
    else if a.speedKmh.None? || b.speedKmh.None? then None
    else
      var dtS := (b.timeMs - a.timeMs) / 1000.0;
      if dtS <= 0.0 then None else
        var dvMs := ((b.speedKmh.value - a.speedKmh.value) * 1000.0) / 3600.0;
        Some(-dvMs / dtS / G)
  }

  /** The deceleration over hop `i`, from point `i - 1` to point `i`. */
  function HopG(points: seq<LapPoint>, i: nat): Option<real> {
    if 0 < i < |points| then DecelerationG(points[i - 1], points[i]) else None
  }

  /** `g` is the deceleration over a hop: what the accelerometer read at its end, positive when braking, or without
      one the speed lost, 35.30394 km/h in a second being one g. */
  ghost predicate Slows(a: LapPoint, b: LapPoint, g: real) {
    if b.gLon.Some? then g == -b.gLon.value else
      && a.speedKmh.Some? && b.speedKmh.Some? && a.timeMs < b.timeMs
      && (a.speedKmh.value - b.speedKmh.value) * 1000.0 == g * 35.30394 * (b.timeMs - a.timeMs)
  }

  /** **The deceleration of a hop is its physical one**, and there is none exactly when nothing tells it. */
  lemma DecelerationIs(a: LapPoint, b: LapPoint, g: real)
    ensures DecelerationG(a, b) == Some(g) <==> Slows(a, b, g)
    ensures DecelerationG(a, b).None? <==>
              b.gLon.None? && (a.speedKmh.None? || b.speedKmh.None? || b.timeMs <= a.timeMs)
  {
    if b.gLon.None? && a.speedKmh.Some? && b.speedKmh.Some? {
      var dt, dv := b.timeMs - a.timeMs, b.speedKmh.value - a.speedKmh.value;
      MillisInSeconds(dt);
      if dt > 0.0 {
        GsOfSpeed(dv, dt, g);
      }
    }
  }

  lemma MillisInSeconds(ms: real)
    ensures ms / 1000.0 <= 0.0 <==> ms <= 0.0
  {}

  lemma GsOfSpeed(dv: real, dt: real, g: real)
    requires dt > 0.0
    ensures dt / 1000.0 > 0.0
    ensures -((dv * 1000.0) / 3600.0) / (dt / 1000.0) / G == g <==> -dv * 1000.0 == g * 35.30394 * dt
  {
    var ms, s := -((dv * 1000.0) / 3600.0), dt / 1000.0;
    assert ms / s * s == ms && ms / s / G * G == ms / s;
    assert -dv * 1000.0 == ms * 3600.0 && g * 35.30394 * dt == g * G * s * 3600.0;
    if g * G * s == ms {
      SameQuotient(ms, s, g * G);
      SameQuotient(ms / s, G, g);
    }
  }

  lemma SameQuotient(x: real, d: real, q: real)
    requires d > 0.0 && q * d == x
    ensures x / d == q
  {}

  /** Without an accelerometer, slowing is what counts as deceleration. */
  lemma SlowingIsDeceleration(a: LapPoint, b: LapPoint)
    requires b.gLon.None? && a.speedKmh.Some? && b.speedKmh.Some?
    ensures DecelerationG(a, b).Some? <==> a.timeMs < b.timeMs
    ensures a.timeMs < b.timeMs ==> (DecelerationG(a, b).value > 0.0 <==> b.speedKmh.value < a.speedKmh.value)
  {
    if a.timeMs < b.timeMs {
      var dtS, dvMs := (b.timeMs - a.timeMs) / 1000.0, ((b.speedKmh.value - a.speedKmh.value) * 1000.0) / 3600.0;
      SignOfQuotient(-dvMs, dtS);
      SignOfQuotient(-dvMs / dtS, G);
    }
  }

  lemma SignOfQuotient(x: real, d: real)
    requires d > 0.0
    ensures x / d > 0.0 <==> x > 0.0
  {
    if x > 0.0 {
      DivStrict(0.0, x, d);
    } else {
      DivMonotone(x, 0.0, d);
    }
  }

  function MaxG(a: real, b: real): real { if a >= b then a else b }

  // ------------------------------------------------------------------------------------------
  // The detector
  // ------------------------------------------------------------------------------------------

  /** The closed zones, and the open one if braking is going on. */
  datatype Scan = Scan(zones: seq<Zone>, open: Option<Zone>)

  function All(s: Scan): seq<Zone> {
    if s.open.Some? then s.zones + [s.open.value] else s.zones
  }

  function TimeMs(points: seq<LapPoint>, i: nat): real {
    if i < |points| then points[i].timeMs else 0.0
  }

  /** The last zone ended no more than the merge gap before point `i`. */
  predicate Reopens(points: seq<LapPoint>, zones: seq<Zone>, i: nat) {
    zones != [] && TimeMs(points, i) - TimeMs(points, zones[|zones| - 1].end) <= BRAKING_MERGE_MS
  }

  /** The zone hop `i` opens: the last one again when it ended only just before, else a new one that
      starts at the earlier of the hop's two points. */
  function Open(points: seq<LapPoint>, zones: seq<Zone>, i: nat): (s: Scan)
    requires i > 0
    ensures s.open.Some?
  {
    if Reopens(points, zones, i - 1) then
      Scan(zones[..|zones| - 1], Some(zones[|zones| - 1]))
    else
      Scan(zones, Some(Zone(i - 1, i, 0.0)))
  }

  /** The open zone now reaches point `i`, and is closed if braking has eased off. */
  function Reach(s: Scan, decelG: real, i: nat): Scan
    requires s.open.Some?
  {
    var z := Zone(s.open.value.start, i, MaxG(s.open.value.peakDecelG, decelG));
    if decelG < BRAKING_EXIT_G then Scan(s.zones + [z], None) else Scan(s.zones, Some(z))
  }

  function ScanHop(points: seq<LapPoint>, s: Scan, i: nat): Scan
    requires i > 0
  {
    var g := HopG(points, i);
    if g.None? || (s.open.None? && g.value < BRAKING_ENTER_G) then s
    else Reach(if s.open.Some? then s else Open(points, s.zones, i), g.value, i)
  }

  // ------------------------------------------------------------------------------------------
  // What the zones are
  // ------------------------------------------------------------------------------------------

  /** One zone: it starts before it ends, its peak is its greatest deceleration, and it has entered. */
  ghost predicate GoodZone(points: seq<LapPoint>, z: Zone) {
    && z.start < z.end < |points|
    && z.peakDecelG >= BRAKING_ENTER_G
    && (exists j :: z.start < j <= z.end && HopG(points, j) == Some(z.peakDecelG))
    && (forall j :: z.start < j <= z.end && HopG(points, j).Some? ==> HopG(points, j).value <= z.peakDecelG)
  }

  /** Zone `b` comes after zone `a`, by more than the merge gap. */
  ghost predicate Apart(points: seq<LapPoint>, a: Zone, b: Zone) {
    && a.end <= b.start < |points|
    && points[b.start].timeMs - points[a.end].timeMs > BRAKING_MERGE_MS
  }

  ghost predicate Separate(points: seq<LapPoint>, zones: seq<Zone>) {
    forall k :: 0 <= k < |zones| - 1 ==> Apart(points, zones[k], zones[k + 1])
  }

  ghost predicate Covered(zones: seq<Zone>, j: nat) {
    exists k :: 0 <= k < |zones| && zones[k].start < j <= zones[k].end
  }

  function LastEnd(zones: seq<Zone>): nat {
    if zones == [] then 0 else zones[|zones| - 1].end
  }

  ghost predicate Enters(points: seq<LapPoint>, j: nat) {
    HopG(points, j).Some? && HopG(points, j).value >= BRAKING_ENTER_G
  }

  /** What holds of the zones found in the hops up to `i`. */
  ghost predicate Detected(points: seq<LapPoint>, zones: seq<Zone>, i: nat) {
    && (forall k :: 0 <= k < |zones| ==> GoodZone(points, zones[k]))
    && LastEnd(zones) <= i
    && Separate(points, zones)
    && (forall j :: 0 < j <= i && Enters(points, j) ==> Covered(zones, j))
    && (forall j :: LastEnd(zones) < j <= i ==> !Enters(points, j))
  }

  lemma SeparateEnds(points: seq<LapPoint>, zones: seq<Zone>, z: Zone)
    requires Separate(points, zones) && zones != []
    requires z.start == zones[|zones| - 1].start
    ensures Separate(points, zones[..|zones| - 1] + [z])
  {
    var r := zones[..|zones| - 1] + [z];
    forall k | 0 <= k < |r| - 1 ensures Apart(points, r[k], r[k + 1]) {
      assert Apart(points, zones[k], zones[k + 1]);
    }
  }

  lemma StretchedIsGood(points: seq<LapPoint>, last: Zone, i: nat, g: real)
    requires 0 < i < |points| && HopG(points, i) == Some(g) && GoodZone(points, last) && last.end < i
    requires forall j :: last.end < j < i ==> !Enters(points, j)
    ensures GoodZone(points, Zone(last.start, i, MaxG(last.peakDecelG, g)))
  {
    var z := Zone(last.start, i, MaxG(last.peakDecelG, g));
    var j :| last.start < j <= last.end && HopG(points, j) == Some(last.peakDecelG);
    assert z.start < j <= z.end;
    assert z.peakDecelG == last.peakDecelG || HopG(points, i) == Some(z.peakDecelG);
    forall j | z.start < j <= z.end && HopG(points, j).Some? ensures HopG(points, j).value <= z.peakDecelG {
      assert last.end < j < i ==> !Enters(points, j);
    }
  }

  /** Stretching the last zone to the present hop. */
  lemma StretchLast(points: seq<LapPoint>, zones: seq<Zone>, i: nat, g: real)
    requires zones != [] && 0 < i < |points| && HopG(points, i) == Some(g) && Detected(points, zones, i - 1)
    ensures var last := zones[|zones| - 1];
            Detected(points, zones[..|zones| - 1] + [Zone(last.start, i, MaxG(last.peakDecelG, g))], i)
  {
    var last := zones[|zones| - 1];
    var z := Zone(last.start, i, MaxG(last.peakDecelG, g));
    var r := zones[..|zones| - 1] + [z];
    SeparateEnds(points, zones, z);
    StretchedIsGood(points, last, i, g);
    assert r[|r| - 1] == z;
    forall j: nat | Covered(zones, j) || j == i ensures Covered(r, j) {
      if j == i {
        assert r[|r| - 1].start < i <= r[|r| - 1].end;
      } else {
        var k :| 0 <= k < |zones| && zones[k].start < j <= zones[k].end;
        assert k < |zones| - 1 ==> r[k] == zones[k];
        assert k == |zones| - 1 ==> r[k].start < j <= r[k].end;
      }
    }
  }

  /** A new zone after the others. */
  lemma AddZone(points: seq<LapPoint>, zones: seq<Zone>, i: nat, g: real)
    requires 0 < i < |points| && HopG(points, i) == Some(g) && g >= BRAKING_ENTER_G
    requires Detected(points, zones, i - 1) && !Reopens(points, zones, i - 1)
    ensures Detected(points, zones + [Zone(i - 1, i, g)], i)
  {
    var z := Zone(i - 1, i, g);
    var r := zones + [z];
    assert GoodZone(points, z) by {
      assert z.start < i <= z.end && HopG(points, i) == Some(z.peakDecelG);
    }
    forall k | 0 <= k < |r| - 1 ensures Apart(points, r[k], r[k + 1]) {
      if k + 1 < |zones| {
        assert Apart(points, zones[k], zones[k + 1]);
      } else {
        assert GoodZone(points, zones[k]);
      }
    }
    LastCovers(zones, z);
  }

  lemma LastCovers(zones: seq<Zone>, z: Zone)
    ensures forall j: nat :: Covered(zones, j) || z.start < j <= z.end ==> Covered(zones + [z], j)
  {
    var r := zones + [z];
    forall j: nat | Covered(zones, j) || z.start < j <= z.end ensures Covered(r, j) {
      if z.start < j <= z.end {
        assert r[|zones|] == z;
      } else {
        var k :| 0 <= k < |zones| && zones[k].start < j <= zones[k].end;
        assert r[k] == zones[k];
      }
    }
  }

  /** One hop keeps the invariant. */
  lemma ScanHopDetects(points: seq<LapPoint>, s: Scan, i: nat)
    requires 0 < i < |points| && Detected(points, All(s), i - 1)
    ensures Detected(points, All(ScanHop(points, s, i)), i)
  {
    var g, zones, s' := HopG(points, i), All(s), ScanHop(points, s, i);
    if g.None? || (s.open.None? && g.value < BRAKING_ENTER_G) {
      assert !Enters(points, i);
    } else if s.open.Some? || Reopens(points, zones, i - 1) {
      var last := zones[|zones| - 1];
      assert All(s') == zones[..|zones| - 1] + [Zone(last.start, i, MaxG(last.peakDecelG, g.value))];
      StretchLast(points, zones, i, g.value);
    } else {
      assert All(s') == zones + [Zone(i - 1, i, g.value)];
      AddZone(points, zones, i, g.value);
    }
  }

  /** The scan of the first `i` hops. */
  function ScanTo(points: seq<LapPoint>, i: nat): Scan {
    if i == 0 then Scan([], None) else ScanHop(points, ScanTo(points, i - 1), i)
  }

  lemma {:induction false} ScanToDetects(points: seq<LapPoint>, i: nat)
    requires i == 0 || i < |points|
    ensures Detected(points, All(ScanTo(points, i)), i)
  {
    if i > 0 {
      ScanToDetects(points, i - 1);
      ScanHopDetects(points, ScanTo(points, i - 1), i);
    }
  }

  /** Braking eased off on the last hop of the zone. */
  ghost predicate Eased(points: seq<LapPoint>, z: Zone) {
    HopG(points, z.end).Some? && HopG(points, z.end).value < BRAKING_EXIT_G
  }

  lemma {:induction false} ClosedZonesEased(points: seq<LapPoint>, i: nat)
    requires i == 0 || i < |points|
    ensures forall k :: 0 <= k < |ScanTo(points, i).zones| ==> Eased(points, ScanTo(points, i).zones[k])
    ensures ScanTo(points, i).open.Some? ==> !Eased(points, ScanTo(points, i).open.value)
  {
    if i > 0 {
      ClosedZonesEased(points, i - 1);
    }
  }

  /** Hysteresis: every zone lasts until a hop below the exit threshold, except one the lap ends in. */
  lemma {:induction false} ZonesLastUntilEased(points: seq<LapPoint>, k: nat)
    requires k < |Zones(points)| && !Eased(points, Zones(points)[k])
    ensures k == |Zones(points)| - 1 && ScanTo(points, Hops(points)).open == Some(Zones(points)[k])
    ensures forall j :: Zones(points)[k].end < j < |points| ==> !Enters(points, j)
  {
    ClosedZonesEased(points, Hops(points));
    ScanToDetects(points, Hops(points));
  }

  function Hops(points: seq<LapPoint>): nat {
    if points == [] then 0 else |points| - 1
  }

  /** All zones of a lap, closed at its end if need be. */
  function Zones(points: seq<LapPoint>): seq<Zone> {
    All(ScanTo(points, Hops(points)))
  }

  /** **The zones**: each at least at the entry threshold with its true peak, in order and more than the
      merge gap apart, and together covering every hop at or above the threshold. */
  lemma ZonesAreDetected(points: seq<LapPoint>)
    ensures forall k :: 0 <= k < |Zones(points)| ==> GoodZone(points, Zones(points)[k])
    ensures Separate(points, Zones(points))
    ensures forall j :: 0 < j < |points| && Enters(points, j) ==> Covered(Zones(points), j)
  {
    ScanToDetects(points, Hops(points));
  }

  // ------------------------------------------------------------------------------------------
  // Which zones there are
  // ------------------------------------------------------------------------------------------

  /** The brakes are on after hop `i`: on from 0.3 g, and off again below 0.15 g. */
  predicate Braking(points: seq<LapPoint>, i: nat) {
    i > 0 &&
    var g := HopG(points, i);
    if g.None? then Braking(points, i - 1) else g.value >= (if Braking(points, i - 1) then 0.15 else 0.3)
  }

  /** Hop `i` is braked: the brakes are on already, or go on. */
  predicate Braked(points: seq<LapPoint>, i: nat) {
    i > 0 && HopG(points, i).Some? && (Braking(points, i - 1) || HopG(points, i).value >= 0.3)
  }

  /** The last braked hop up to `i`, or 0. */
  function LastBraked(points: seq<LapPoint>, i: nat): (j: nat)
    ensures j <= i && (j > 0 ==> Braked(points, j)) && forall k: nat :: j < k <= i ==> !Braked(points, k)
  {
    if i == 0 then 0 else if Braked(points, i) then i else LastBraked(points, i - 1)
  }

  /** The brakes go on at hop `i`. */
  predicate Begins(points: seq<LapPoint>, i: nat) {
    i > 0 && Braked(points, i) && !Braking(points, i - 1)
  }

  /** They had been on at most 400 ms before. */
  predicate Resumes(points: seq<LapPoint>, i: nat)
    requires i > 0
  {
    var last := LastBraked(points, i - 1);
    last > 0 && TimeMs(points, i - 1) - TimeMs(points, last) <= 400.0
  }

  /** A zone opens where the brakes go on for the first time in 400 ms, and while it lasts they never stay off for
      longer. */
  ghost predicate OneBraking(points: seq<LapPoint>, z: Zone) {
    && z.start < z.end && Begins(points, z.start + 1) && !Resumes(points, z.start + 1)
    && Braked(points, z.end)
    && forall j {:trigger Begins(points, j)} :: z.start + 1 < j <= z.end && Begins(points, j) ==> Resumes(points, j)
  }

  /** What the scan of the first `i` hops has found. */
  ghost predicate Follows(points: seq<LapPoint>, s: Scan, i: nat) {
    && (s.open.Some? <==> Braking(points, i))
    && LastEnd(All(s)) == LastBraked(points, i)
    && AllFollow(points, All(s), i)
  }

  ghost predicate AllFollow(points: seq<LapPoint>, zones: seq<Zone>, i: nat) {
    AllOne(points, zones) && AllCovered(points, zones, i)
  }

  ghost predicate AllOne(points: seq<LapPoint>, zones: seq<Zone>) {
    forall k :: 0 <= k < |zones| ==> OneBraking(points, zones[k])
  }

  ghost predicate AllCovered(points: seq<LapPoint>, zones: seq<Zone>, i: nat) {
    forall j: nat {:trigger CoveredIfBraked(points, zones, j)} :: j <= i ==> CoveredIfBraked(points, zones, j)
  }

  ghost predicate CoveredIfBraked(points: seq<LapPoint>, zones: seq<Zone>, j: nat) {
    Braked(points, j) ==> Covered(zones, j)
  }

  lemma {:induction false} ScanFollows(points: seq<LapPoint>, i: nat)
    requires i == 0 || i < |points|
    ensures Follows(points, ScanTo(points, i), i)
  {
    if i > 0 {
      ScanFollows(points, i - 1);
      ScanHopFollows(points, ScanTo(points, i - 1), i);
    }
  }

  lemma ScanHopFollows(points: seq<LapPoint>, s: Scan, i: nat)
    requires 0 < i < |points| && Follows(points, s, i - 1)
    ensures Follows(points, ScanHop(points, s, i), i)
  {
    if Braked(points, i) {
      var zones, s' := All(s), ScanHop(points, s, i);
      if s.open.Some? || Reopens(points, zones, i - 1) {
        var last := zones[|zones| - 1];
        StretchFollows(points, zones, i, All(s')[|zones| - 1]);
      } else {
        AddFollows(points, zones, i, All(s')[|zones|]);
      }
    }
  }

  lemma {:induction false} StretchedIsOne(points: seq<LapPoint>, last: Zone, i: nat, z: Zone)
    requires 0 < i && OneBraking(points, last) && last.end == LastBraked(points, i - 1) && Braked(points, i)
    requires Begins(points, i) ==> Resumes(points, i)
    requires z.start == last.start && z.end == i
    ensures OneBraking(points, z)
  {
    forall j: nat | z.start + 1 < j <= z.end && Begins(points, j) ensures Resumes(points, j) {
      if last.end < j {
        assert Braked(points, j) && j == i;
      }
    }
  }

  lemma StretchCovers(points: seq<LapPoint>, zones: seq<Zone>, i: nat, z: Zone)
    requires zones != [] && z.start == zones[|zones| - 1].start < i == z.end && AllCovered(points, zones, i - 1)
    ensures AllCovered(points, zones[..|zones| - 1] + [z], i)
  {
    var r, n := zones[..|zones| - 1] + [z], |zones| - 1;
    forall j: nat | j <= i ensures CoveredIfBraked(points, r, j) {
      if z.start < j {
        assert r[n] == z;
      } else {
        assert CoveredIfBraked(points, zones, j);
        if k :| 0 <= k < |zones| && zones[k].start < j <= zones[k].end {
          assert r[k] == zones[k];
        }
      }
    }
  }

  lemma {:induction false} StretchFollows(points: seq<LapPoint>, zones: seq<Zone>, i: nat, z: Zone)
    requires 0 < i < |points| && zones != [] && Braked(points, i) && LastEnd(zones) == LastBraked(points, i - 1)
    requires Begins(points, i) ==> Resumes(points, i)
    requires AllFollow(points, zones, i - 1)
    requires z.start == zones[|zones| - 1].start && z.end == i
    ensures AllFollow(points, zones[..|zones| - 1] + [z], i)
  {
    var last := zones[|zones| - 1];
    assert OneBraking(points, last);
    StretchedIsOne(points, last, i, z);
    StretchCovers(points, zones, i, z);
    OtherOne(points, zones, z);
  }

  lemma OtherOne(points: seq<LapPoint>, zones: seq<Zone>, z: Zone)
    requires zones != [] && AllOne(points, zones) && OneBraking(points, z)
    ensures AllOne(points, zones[..|zones| - 1] + [z]) && AllOne(points, zones + [z])
  {}

  lemma AddFollows(points: seq<LapPoint>, zones: seq<Zone>, i: nat, z: Zone)
    requires 0 < i < |points| && Begins(points, i) && !Resumes(points, i)
    requires AllFollow(points, zones, i - 1) && z.start == i - 1 && z.end == i
    ensures AllFollow(points, zones + [z], i)
  {
    assert OneBraking(points, z);
    AddCovers(points, zones, i, z);
    if zones != [] {
      OtherOne(points, zones, z);
    }
  }

  lemma AddCovers(points: seq<LapPoint>, zones: seq<Zone>, i: nat, z: Zone)
    requires i > 0 && z.start == i - 1 && z.end == i && AllCovered(points, zones, i - 1)
    ensures AllCovered(points, zones + [z], i)
  {
    LastCovers(zones, z);
    forall j: nat | j <= i ensures CoveredIfBraked(points, zones + [z], j) {
      assert j < i ==> CoveredIfBraked(points, zones, j);
    }
  }

  /** **A zone is one braking**: it opens where the brakes go on after more than 400 ms off, ends with a braked hop,
      and while it lasts they never stay off for longer. */
  lemma ZoneIsOneBraking(points: seq<LapPoint>, k: nat)
    requires k < |Zones(points)|
    ensures OneBraking(points, Zones(points)[k])
  {
    ScanFollows(points, Hops(points));
  }

  /** **Every braked hop is in a zone**, and one at which the brakes go on after more than 400 ms off opens it. */
  lemma BrakingIsInAZone(points: seq<LapPoint>, j: nat) returns (k: nat)
    requires j < |points| && Braked(points, j)
    ensures k < |Zones(points)| && Zones(points)[k].start < j <= Zones(points)[k].end
    ensures Begins(points, j) && !Resumes(points, j) ==> Zones(points)[k].start == j - 1
  {
    ScanFollows(points, Hops(points));
    assert CoveredIfBraked(points, Zones(points), j);
    k :| 0 <= k < |Zones(points)| && Zones(points)[k].start < j <= Zones(points)[k].end;
    assert OneBraking(points, Zones(points)[k]);
  }

  // ------------------------------------------------------------------------------------------
  // What is reported
  // ------------------------------------------------------------------------------------------

  predicate IsSustained(points: seq<LapPoint>, z: Zone) {
    z.start < |points| && z.end < |points| && points[z.end].timeMs - points[z.start].timeMs >= MIN_BRAKING_MS
  }

  function Sustained(points: seq<LapPoint>, zones: seq<Zone>): seq<Zone> {
    if zones == [] then [] else
      var n := |zones| - 1;
      Sustained(points, zones[..n]) + (if IsSustained(points, zones[n]) then [zones[n]] else [])
  }

  function ToBrakingPoint(points: seq<LapPoint>, z: Zone): BrakingPoint
    requires z.start < |points|
  {
    var p := points[z.start];
    BrakingPoint(RoundTo(p.distM, 10.0), p.lat, p.lon,
                 RoundTo(if p.speedKmh.Some? then p.speedKmh.value else 0.0, 10.0), RoundTo(z.peakDecelG, 1000.0))
  }

  /** The markers of the sustained zones. */
  function Markers(points: seq<LapPoint>, zones: seq<Zone>): seq<BrakingPoint> {
    if zones == [] then [] else
      var n := |zones| - 1;
      Markers(points, zones[..n]) + (if IsSustained(points, zones[n]) then [ToBrakingPoint(points, zones[n])] else [])
  }

  lemma {:induction false} MarkersOfSustained(points: seq<LapPoint>, zones: seq<Zone>)
    ensures |Markers(points, zones)| == |Sustained(points, zones)|
    ensures forall k :: 0 <= k < |Sustained(points, zones)| ==>
              IsSustained(points, Sustained(points, zones)[k])
              && Markers(points, zones)[k] == ToBrakingPoint(points, Sustained(points, zones)[k])
  {
    if zones != [] {
      MarkersOfSustained(points, zones[..|zones| - 1]);
    }
  }

  lemma {:induction false} SustainedAreZones(points: seq<LapPoint>, zones: seq<Zone>)
    ensures forall z :: z in Sustained(points, zones) <==> z in zones && IsSustained(points, z)
  {
    if zones != [] {
      SustainedAreZones(points, zones[..|zones| - 1]);
      assert zones == zones[..|zones| - 1] + [zones[|zones| - 1]];
    }
  }

  function Detect(points: seq<LapPoint>): seq<BrakingPoint> {
    Markers(points, Zones(points))
  }

  method DetectBrakingPoints(points: seq<LapPoint>) returns (r: seq<BrakingPoint>)
    ensures r == Detect(points)
  {
    var zones: seq<Zone> := [];
    var open: Option<Zone> := None;
    var i := 1;
    while i < |points|
      invariant 1 <= i && (points != [] ==> i <= |points|)
      invariant Scan(zones, open) == ScanTo(points, if points == [] then 0 else i - 1)
    {
      var decelG := HopG(points, i);
      if decelG.Some? && (open.Some? || decelG.value >= BRAKING_ENTER_G) {
        if open.None? {
          if Reopens(points, zones, i - 1) {
            open, zones := Some(zones[|zones| - 1]), zones[..|zones| - 1];
          } else {
            open := Some(Zone(i - 1, i, 0.0));
          }
        }
        open := Some(Zone(open.value.start, i, MaxG(open.value.peakDecelG, decelG.value)));
        if decelG.value < BRAKING_EXIT_G {
          zones, open := zones + [open.value], None;
        }
      }
      i := i + 1;
    }
    if open.Some? {
      zones := zones + [open.value];
    }
    r := Markers(points, zones);
  }

  /** Among zones kept apart, those kept by the filter are still apart. */
  ghost predicate AllApart(points: seq<LapPoint>, zones: seq<Zone>) {
    && (forall k :: 0 <= k < |zones| ==> zones[k].start < zones[k].end < |points|)
    && forall k, l :: 0 <= k < l < |zones| ==> Apart(points, zones[k], zones[l])
  }

  lemma {:induction false} ApartPairwise(points: seq<LapPoint>, zones: seq<Zone>)
    requires TimesAscend(points) && Separate(points, zones)
    requires forall k :: 0 <= k < |zones| ==> zones[k].start < zones[k].end < |points|
    ensures AllApart(points, zones)
  {
    if |zones| > 1 {
      var n := |zones| - 1;
      var front := zones[..n];
      assert forall k :: 0 <= k < |front| - 1 ==> Apart(points, front[k], front[k + 1]) by {
        assert forall k :: 0 <= k < n - 1 ==> Apart(points, zones[k], zones[k + 1]);
      }
      ApartPairwise(points, front);
      assert Apart(points, zones[n - 1], zones[n - 1 + 1]);
      forall k | 0 <= k < n ensures Apart(points, zones[k], zones[n]) {
        if k < n - 1 {
          assert Apart(points, front[k], front[n - 1]);
        }
      }
      forall k, l | 0 <= k < l < |zones| ensures Apart(points, zones[k], zones[l]) {
        if l < n {
          assert Apart(points, front[k], front[l]);
        }
      }
    }
  }

  lemma {:induction false} SustainedApart(points: seq<LapPoint>, zones: seq<Zone>)
    requires AllApart(points, zones)
    ensures AllApart(points, Sustained(points, zones))
  {
    if zones != [] {
      var n := |zones| - 1;
      SustainedApart(points, zones[..n]);
      forall k | 0 <= k < |Sustained(points, zones[..n])|
        ensures Apart(points, Sustained(points, zones[..n])[k], zones[n])
      {
        KeptBefore(points, zones, k);
      }
    }
  }

  lemma {:induction false} KeptBefore(points: seq<LapPoint>, zones: seq<Zone>, k: nat)
    requires zones != [] && AllApart(points, zones) && k < |Sustained(points, zones[..|zones| - 1])|
    ensures Apart(points, Sustained(points, zones[..|zones| - 1])[k], zones[|zones| - 1])
  {
    var front := zones[..|zones| - 1];
    SustainedAreZones(points, front);
    assert Sustained(points, front)[k] in front;
    var j :| 0 <= j < |front| && front[j] == Sustained(points, front)[k];
    assert Apart(points, zones[j], zones[|zones| - 1]);
  }

  /** The time `m` zones need: their own durations and the gaps between them. */
  lemma {:induction false} ZonesNeedTime(points: seq<LapPoint>, zones: seq<Zone>)
    requires TimesAscend(points) && AllApart(points, zones) && zones != []
    requires forall k :: 0 <= k < |zones| ==> IsSustained(points, zones[k])
    ensures points[zones[|zones| - 1].end].timeMs - points[zones[0].start].timeMs
            >= 250.0 * (|zones| as real) + 400.0 * ((|zones| - 1) as real)
  {
    var n := |zones| - 1;
    if n > 0 {
      ZonesNeedTime(points, zones[..n]);
      assert Apart(points, zones[n - 1], zones[n]);
    }
  }

  /** **m ≥ 1 markers need a lap of at least 250·m + 400·(m − 1) ms.** */
  lemma MarkersNeedTime(points: seq<LapPoint>)
    requires TimesAscend(points)
    ensures var m := |Detect(points)|;
            m >= 1 ==>
              && points != []
              && points[|points| - 1].timeMs - points[0].timeMs >= 250.0 * (m as real) + 400.0 * ((m - 1) as real)
  {
    var zones := Zones(points);
    ZonesAreDetected(points);
    forall k | 0 <= k < |zones| ensures zones[k].start < zones[k].end < |points| {
      assert GoodZone(points, zones[k]);
    }
    ApartPairwise(points, zones);
    SustainedApart(points, zones);
    MarkersOfSustained(points, zones);
    var kept := Sustained(points, zones);
    if kept != [] {
      ZonesNeedTime(points, kept);
      assert points[0].timeMs <= points[kept[0].start].timeMs;
      assert points[kept[|kept| - 1].end].timeMs <= points[|points| - 1].timeMs;
    }
  }

  /** The positions of the zones that last long enough, in order. */
  ghost predicate Sustains(points: seq<LapPoint>, zones: seq<Zone>, at: seq<nat>) {
    && (forall k :: 0 <= k < |at| ==> at[k] < |zones|)
    && (forall k, l :: 0 <= k < l < |at| ==> at[k] < at[l])
    && (forall k :: 0 <= k < |zones| ==> (k in at <==> LastsEnough(points, zones[k])))
  }

  /** At least a quarter of a second from its first point to its last. */
  ghost predicate LastsEnough(points: seq<LapPoint>, z: Zone) {
    z.start < |points| && z.end < |points| && points[z.end].timeMs - points[z.start].timeMs >= 250.0
  }

  /** A marker stands where its zone starts, and shows that zone's peak, rounded. */
  ghost predicate MarksZone(points: seq<LapPoint>, marker: BrakingPoint, z: Zone)
    requires z.start < |points|
  {
    var at := points[z.start];
    && marker.lat == at.lat && marker.lon == at.lon && marker.distM == RoundTo(at.distM, 10.0)
    && marker.entrySpeedKmh == (if at.speedKmh.Some? then RoundTo(at.speedKmh.value, 10.0) else 0.0)
    && marker.peakDecelG == RoundTo(z.peakDecelG, 1000.0)
  }

  /** One marker for each of those positions. */
  ghost predicate MarkedAt(points: seq<LapPoint>, zones: seq<Zone>, at: seq<nat>, markers: seq<BrakingPoint>) {
    |at| == |markers| && forall k {:trigger at[k]} :: 0 <= k < |at| ==>
                           && at[k] < |zones| && zones[at[k]].start < |points|
                           && MarksZone(points, markers[k], zones[at[k]])
  }

  lemma {:induction false} MarkersMark(points: seq<LapPoint>, zones: seq<Zone>) returns (at: seq<nat>)
    ensures Sustains(points, zones, at) && MarkedAt(points, zones, at, Markers(points, zones))
  {
    at := [];
    if zones != [] {
      var n := |zones| - 1;
      at := MarkersMark(points, zones[..n]);
      if IsSustained(points, zones[n]) {
        MarkIsOfZone(points, zones[n]);
        at := MarkOneMore(points, zones, at, Markers(points, zones[..n]), ToBrakingPoint(points, zones[n]));
      } else {
        MarkNoMore(points, zones, at, Markers(points, zones[..n]));
      }
    }
  }

  lemma MarkIsOfZone(points: seq<LapPoint>, z: Zone)
    requires z.start < |points|
    ensures MarksZone(points, ToBrakingPoint(points, z), z)
  {
    assert RoundTo(0.0, 10.0) == 0.0;
  }

  lemma MarkNoMore(points: seq<LapPoint>, zones: seq<Zone>, at: seq<nat>, markers: seq<BrakingPoint>)
    requires zones != [] && !LastsEnough(points, zones[|zones| - 1])
    requires Sustains(points, zones[..|zones| - 1], at) && MarkedAt(points, zones[..|zones| - 1], at, markers)
    ensures Sustains(points, zones, at) && MarkedAt(points, zones, at, markers)
  {
    var n := |zones| - 1;
    forall k | 0 <= k < |zones| ensures k in at <==> LastsEnough(points, zones[k]) {
      if k < n {
        assert zones[..n][k] == zones[k];
      }
    }
  }

  lemma MarkOneMore(points: seq<LapPoint>, zones: seq<Zone>, at: seq<nat>, markers: seq<BrakingPoint>,
                    marker: BrakingPoint) returns (r: seq<nat>)
    requires zones != [] && LastsEnough(points, zones[|zones| - 1])
    requires Sustains(points, zones[..|zones| - 1], at) && MarkedAt(points, zones[..|zones| - 1], at, markers)
    requires MarksZone(points, marker, zones[|zones| - 1])
    ensures Sustains(points, zones, r) && MarkedAt(points, zones, r, markers + [marker])
  {
    var n := |zones| - 1;
    r := at + [n];
    assert forall k :: k in r <==> k in at || k == n;
    forall k | 0 <= k < |zones| ensures k in r <==> LastsEnough(points, zones[k]) {
      if k == n {
        assert r[|at|] == n;
      } else {
        assert zones[..n][k] == zones[k];
      }
    }
  }

  /** **The markers are those of the zones of at least a quarter of a second, each once and in order**, and none is
      weaker than 0.3 g. */
  lemma MarkersAreZones(points: seq<LapPoint>) returns (at: seq<nat>)
    ensures Sustains(points, Zones(points), at) && MarkedAt(points, Zones(points), at, Detect(points))
    ensures forall k :: 0 <= k < |Detect(points)| ==> Detect(points)[k].peakDecelG >= 0.3
  {
    at := MarkersMark(points, Zones(points));
    ZonesAreDetected(points);
    forall k | 0 <= k < |at| ensures Detect(points)[k].peakDecelG >= 0.3 {
      assert GoodZone(points, Zones(points)[at[k]]);
      EnteringRounds(Zones(points)[at[k]].peakDecelG);
    }
  }

  lemma EnteringRounds(g: real)
    requires g >= BRAKING_ENTER_G
    ensures RoundTo(g, 1000.0) >= 0.3
  {
    RoundToMonotone(BRAKING_ENTER_G, g, 1000.0);
    assert BRAKING_ENTER_G * 1000.0 == 300.0;
    RoundOfInt(300);
  }

  // ------------------------------------------------------------------------------------------
  // What an accelerometer gives
  // ------------------------------------------------------------------------------------------

  lemma MeasuredHop(points: seq<LapPoint>, j: nat)
    requires 0 < j < |points| && points[j].gLon.Some?
    ensures HopG(points, j) == Some(-points[j].gLon.value)
  {
    DecelerationIs(points[j - 1], points[j], -points[j].gLon.value);
  }

  lemma HardestReading(points: seq<LapPoint>, z: Zone) returns (j: nat)
    requires GoodZone(points, z) && forall i :: 0 <= i < |points| ==> points[i].gLon.Some?
    ensures z.start < j <= z.end && z.peakDecelG == -points[j].gLon.value
    ensures forall i :: z.start < i <= z.end ==> points[j].gLon.value <= points[i].gLon.value
  {
    j :| z.start < j <= z.end && HopG(points, j) == Some(z.peakDecelG);
    MeasuredHop(points, j);
    forall i | z.start < i <= z.end ensures points[j].gLon.value <= points[i].gLon.value {
      MeasuredHop(points, i);
    }
  }

  /** **A car whose accelerometer never reads braking has no braking points.** */
  lemma NoBrakingNoMarkers(points: seq<LapPoint>)
    requires forall i :: 0 <= i < |points| ==> points[i].gLon.Some? && points[i].gLon.value >= 0.0
    ensures Detect(points) == []
  {
    var zones := Zones(points);
    ZonesAreDetected(points);
    if zones != [] {
      assert GoodZone(points, zones[0]);
      var j := HardestReading(points, zones[0]);
      assert false;
    }
  }

  /** **Reading 0.3 g of braking or more puts a hop in a zone whose peak is its hardest reading.** */
  lemma MeasuredBrakingIsFound(points: seq<LapPoint>, j: nat) returns (k: nat, hardest: nat)
    requires 0 < j < |points| && forall i :: 0 <= i < |points| ==> points[i].gLon.Some?
    requires points[j].gLon.value <= -0.3
    ensures k < |Zones(points)|
    ensures var z := Zones(points)[k];
            && z.start < j <= z.end < |points| && z.start < hardest <= z.end
            && z.peakDecelG == -points[hardest].gLon.value
            && forall i :: z.start < i <= z.end ==> points[hardest].gLon.value <= points[i].gLon.value
  {
    ZonesAreDetected(points);
    MeasuredHop(points, j);
    assert Enters(points, j);
    k :| 0 <= k < |Zones(points)| && Zones(points)[k].start < j <= Zones(points)[k].end;
    var z := Zones(points)[k];
    assert GoodZone(points, z);
    hardest := HardestReading(points, z);
  }
}
