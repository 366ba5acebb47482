/** The quasi-steady-state speed solver of `scripts/lib/circuit.js`: a cornering limit per point of a
    closed track, then three rounds of one backward (braking) and one forward (traction) sweep, each
    done in place on a ring.

    Speeds are non-negative reals; `root` stands for `Math.sqrt`. The limits are linear in the
    *square* of the speed, so the specification works on squares. */
module SpeedProfile {
  import opened SampleMath

  const G := 9.80665

  /** `root` behaves as the square root on non-negative reals. */
  ghost predicate IsRoot(root: real -> real) {
    forall x: real :: 0.0 <= x ==> 0.0 <= root(x) && root(x) * root(x) == x
  }

  function Next(i: nat, n: nat): (j: nat)
    requires i < n
    ensures j == if i == n - 1 then 0 else i + 1
  {
    (i + 1) % n
  }

  function Prev(i: nat, n: nat): (j: nat)
    requires i < n
    ensures j == if i == 0 then n - 1 else i - 1
  {
    if i == 0 then
      assert (i as int - 1 + n) % n == n - 1;
      (i as int - 1 + n) % n
    else
      assert (i - 1 + n) % n == i - 1;
      (i - 1 + n) % n
  }

  // ------------------------------------------------------------------------------------------
  // What a ring profile must satisfy
  // ------------------------------------------------------------------------------------------

  ghost predicate AtMost(w: seq<real>, u: seq<real>) {
    |w| == |u| && forall i :: 0 <= i < |w| ==> w[i] <= u[i]
  }

  /** Every point can still brake for the next one, the seam from the last point to the first included. */
  ghost predicate Brakes(u: seq<real>, b: real) {
    forall i :: 0 <= i < |u| ==> u[i] <= u[Next(i, |u|)] + b
  }

  /** Every point can be reached by accelerating out of the one before it, seam included. */
  ghost predicate Pulls(u: seq<real>, a: real) {
    forall i :: 0 <= i < |u| ==> u[i] <= u[Prev(i, |u|)] + a
  }

  ghost predicate Feasible(u: seq<real>, limit: seq<real>, b: real, a: real) {
    AtMost(u, limit) && Brakes(u, b) && Pulls(u, a)
  }

  /** `u` is feasible and no feasible profile is above it anywhere. */
  ghost predicate Greatest(u: seq<real>, limit: seq<real>, b: real, a: real) {
    Feasible(u, limit, b, a) && forall w :: Feasible(w, limit, b, a) ==> AtMost(w, u)
  }

  lemma GreatestIsUnique(u: seq<real>, w: seq<real>, limit: seq<real>, b: real, a: real)
    requires Greatest(u, limit, b, a) && Greatest(w, limit, b, a)
    ensures u == w
  {
    assert AtMost(u, w) && AtMost(w, u);
  }

  // ------------------------------------------------------------------------------------------
  // The sweeps, on squared speeds
  // ------------------------------------------------------------------------------------------

  /** The backward sweep once it has done points `k ..`. */
  function BackwardFrom(u: seq<real>, b: real, k: nat): (r: seq<real>)
    requires k <= |u|
    ensures |r| == |u|
    decreases |u| - k
  {
    if k == |u| then u else
      var r := BackwardFrom(u, b, k + 1);
      r[k := Min(r[k], r[Next(k, |u|)] + b)]
  }

  /** The forward sweep once it has done points `.. k`. */
  function ForwardTo(u: seq<real>, a: real, k: nat): (r: seq<real>)
    requires k <= |u|
    ensures |r| == |u|
  {
    if k == 0 then u else
      var r := ForwardTo(u, a, k - 1);
      r[k - 1 := Min(r[k - 1], r[Prev(k - 1, |u|)] + a)]
  }

  function Round(u: seq<real>, b: real, a: real): (r: seq<real>)
    ensures |r| == |u|
  {
    ForwardTo(BackwardFrom(u, b, 0), a, |u|)
  }

  /** What each point of a backward sweep reads: its new right neighbour, except the last point, which
      reads the old first one. */
  lemma {:induction false} BackwardAt(u: seq<real>, b: real, k: nat)
    requires k <= |u|
    ensures var r := BackwardFrom(u, b, k);
            && (forall j :: 0 <= j < k ==> r[j] == u[j])
            && (forall j :: k <= j < |u| - 1 ==> r[j] == Min(u[j], r[j + 1] + b))
            && (k < |u| ==> r[|u| - 1] == Min(u[|u| - 1], u[0] + b))
    decreases |u| - k
  {
    if k < |u| {
      BackwardAt(u, b, k + 1);
    }
  }

  lemma {:induction false} ForwardAt(u: seq<real>, a: real, k: nat)
    requires k <= |u|
    ensures var r := ForwardTo(u, a, k);
            && (forall j :: k <= j < |u| ==> r[j] == u[j])
            && (forall j :: 0 < j < k ==> r[j] == Min(u[j], r[j - 1] + a))
            && (0 < k ==> r[0] == Min(u[0], u[|u| - 1] + a))
  {
    if k > 0 {
      ForwardAt(u, a, k - 1);
    }
  }

  /** Neither sweep can push a profile below a feasible one. */
  lemma {:induction false} SweepsStayAbove(u: seq<real>, w: seq<real>, b: real, a: real, k: nat)
    requires k <= |u| && AtMost(w, u) && Brakes(w, b) && Pulls(w, a)
    ensures AtMost(w, BackwardFrom(u, b, |u| - k)) && AtMost(w, ForwardTo(u, a, k))
  {
    if k > 0 {
      SweepsStayAbove(u, w, b, a, k - 1);
      var i, j := |u| - k, k - 1;
      assert w[i] <= w[Next(i, |u|)] + b && w[j] <= w[Prev(j, |u|)] + a;
    }
  }

  /** Limits met along the line from the first point to the last; nothing is said about the seam. */
  ghost predicate OpenBrakes(u: seq<real>, b: real) {
    forall j :: 0 <= j < |u| - 1 ==> u[j] <= u[j + 1] + b
  }

  ghost predicate OpenPulls(u: seq<real>, a: real) {
    forall j :: 0 < j < |u| ==> u[j] <= u[j - 1] + a
  }

  /** A sweep over a profile that already meets its limit along the line leaves its far end alone, so
      the seam limit it established still holds when it gets there. */
  lemma {:induction false} BackwardKeepsFirst(u: seq<real>, b: real, j: nat)
    requires 0.0 <= b && OpenBrakes(u, b) && j < |u|
    ensures var r := BackwardFrom(u, b, 0); r[j] == u[j] || r[j] >= u[0]
    decreases |u| - j
  {
    BackwardAt(u, b, 0);
    if j < |u| - 1 {
      BackwardKeepsFirst(u, b, j + 1);
    }
  }

  lemma {:induction false} ForwardKeepsLast(u: seq<real>, a: real, j: nat)
    requires 0.0 <= a && OpenPulls(u, a) && j < |u|
    ensures var r := ForwardTo(u, a, |u|); r[j] == u[j] || r[j] >= u[|u| - 1]
  {
    ForwardAt(u, a, |u|);
    if j > 0 {
      ForwardKeepsLast(u, a, j - 1);
    }
  }

  lemma FirstRound(u: seq<real>, b: real, a: real)
    requires 0.0 <= b && 0.0 <= a
    ensures OpenBrakes(Round(u, b, a), b) && OpenPulls(Round(u, b, a), a)
  {
    BackwardAt(u, b, 0);
    ForwardKeepsBrakes(BackwardFrom(u, b, 0), b, a);
  }

  lemma {:induction false} ForwardKeepsBrakes(u: seq<real>, b: real, a: real)
    requires 0.0 <= b && 0.0 <= a && OpenBrakes(u, b)
    ensures var r := ForwardTo(u, a, |u|); OpenBrakes(r, b) && OpenPulls(r, a)
  {
    ForwardAt(u, a, |u|);
    var r := ForwardTo(u, a, |u|);
    forall j | 0 <= j < |u| - 1 ensures r[j] <= r[j + 1] + b && r[j + 1] <= r[j] + a {
      assert r[j + 1] == Min(u[j + 1], r[j + 1 - 1] + a);
      assert j > 0 ==> r[j] == Min(u[j], r[j - 1] + a);
      assert r[j] <= u[j] <= u[j + 1] + b;
    }
    forall j | 0 < j < |u| ensures r[j] <= r[j - 1] + a {}
  }

  lemma {:induction false} BackwardKeepsPulls(u: seq<real>, b: real, a: real)
    requires 0.0 <= b && 0.0 <= a && OpenPulls(u, a)
    ensures var r := BackwardFrom(u, b, 0); OpenBrakes(r, b) && OpenPulls(r, a)
  {
    BackwardAt(u, b, 0);
    var r := BackwardFrom(u, b, 0);
    forall j | 0 < j < |u| ensures r[j] <= r[j - 1] + a {
      assert r[j - 1] == Min(u[j - 1], r[j - 1 + 1] + b);
      assert j < |u| - 1 ==> r[j] == Min(u[j], r[j + 1] + b);
      assert r[j] <= u[j] <= u[j - 1] + a;
    }
  }

  lemma SecondRound(u: seq<real>, b: real, a: real)
    requires 0.0 <= b && 0.0 <= a && OpenBrakes(u, b) && OpenPulls(u, a)
    ensures Brakes(Round(u, b, a), b) && Pulls(Round(u, b, a), a)
  {
    var n, m, r := |u|, BackwardFrom(u, b, 0), Round(u, b, a);
    BackwardKeepsPulls(u, b, a);
    ForwardKeepsBrakes(m, b, a);
    if n > 0 {
      BackwardClosesSeam(u, b);
      ForwardClosesSeam(m, b, a);
      forall i | 0 <= i < n ensures r[i] <= r[Next(i, n)] + b && r[i] <= r[Prev(i, n)] + a {
        assert i < n - 1 ==> r[i] <= r[i + 1] + b;
        assert i > 0 ==> r[i] <= r[i - 1] + a;
      }
    }
  }

  lemma {:induction false} BackwardClosesSeam(u: seq<real>, b: real)
    requires 0.0 <= b && OpenBrakes(u, b) && u != []
    ensures var r := BackwardFrom(u, b, 0); r[|u| - 1] <= r[0] + b
  {
    var r := BackwardFrom(u, b, 0);
    BackwardAt(u, b, 0);
    BackwardKeepsFirst(u, b, 0);
    assert |u| > 1 ==> r[0] == Min(u[0], r[0 + 1] + b);
    assert r[0] == u[0];
  }

  lemma {:induction false} ForwardClosesSeam(u: seq<real>, b: real, a: real)
    requires 0.0 <= b && 0.0 <= a && OpenPulls(u, a) && u != [] && u[|u| - 1] <= u[0] + b
    ensures var r := ForwardTo(u, a, |u|); r[|u| - 1] <= r[0] + b && r[0] <= r[|u| - 1] + a
  {
    var n, r := |u|, ForwardTo(u, a, |u|);
    ForwardAt(u, a, n);
    ForwardKeepsLast(u, a, n - 1);
    assert n > 1 ==> r[n - 1] == Min(u[n - 1], r[n - 1 - 1] + a);
    assert r[n - 1] == u[n - 1];
  }

  lemma RoundsStayBelow(u: seq<real>, b: real, a: real)
    ensures AtMost(Round(u, b, a), u)
  {
    var m := BackwardFrom(u, b, 0);
    BackwardAt(u, b, 0);
    ForwardAt(m, a, |u|);
    forall i | 0 <= i < |u| ensures Round(u, b, a)[i] <= u[i] {
      assert i < |u| - 1 ==> m[i] == Min(u[i], m[i + 1] + b);
      assert i > 0 ==> Round(u, b, a)[i] == Min(m[i], Round(u, b, a)[i - 1] + a);
    }
  }

  lemma RoundStaysAbove(u: seq<real>, w: seq<real>, b: real, a: real)
    requires AtMost(w, u) && Brakes(w, b) && Pulls(w, a)
    ensures AtMost(w, Round(u, b, a))
  {
    SweepsStayAbove(u, w, b, a, |u|);
    SweepsStayAbove(BackwardFrom(u, b, 0), w, b, a, |u|);
  }

  /** **Two rounds reach the greatest feasible ring profile**, whatever the limits and wherever the
      slowest corner is. */
  lemma TwoRoundsAreGreatest(limit: seq<real>, b: real, a: real)
    requires 0.0 <= b && 0.0 <= a
    ensures Greatest(Round(Round(limit, b, a), b, a), limit, b, a)
  {
    var one := Round(limit, b, a);
    FirstRound(limit, b, a);
    SecondRound(one, b, a);
    RoundsStayBelow(limit, b, a);
    RoundsStayBelow(one, b, a);
    forall w | Feasible(w, limit, b, a) ensures AtMost(w, Round(one, b, a)) {
      RoundStaysAbove(limit, w, b, a);
      RoundStaysAbove(one, w, b, a);
    }
  }

  /** A round changes nothing exactly when the profile already meets both ring limits: the third round
      of the source is always such a round. */
  lemma RoundFixesExactlyTheFeasible(u: seq<real>, b: real, a: real)
    requires 0.0 <= b && 0.0 <= a
    ensures Round(u, b, a) == u <==> Brakes(u, b) && Pulls(u, a)
  {
    if Brakes(u, b) && Pulls(u, a) {
      RoundStaysAbove(u, u, b, a);
      RoundsStayBelow(u, b, a);
    }
    if Round(u, b, a) == u {
      FirstRound(u, b, a);
      SecondRound(u, b, a);
    }
  }

  // ------------------------------------------------------------------------------------------
  // The solver
  // ------------------------------------------------------------------------------------------

  datatype Grip = Grip(latG: real, brakeG: real, accelG: real, vMaxKmh: real)

  ghost predicate ValidGrip(g: Grip) {
    0.0 <= g.latG && 0.0 <= g.brakeG && 0.0 <= g.accelG && 0.0 <= g.vMaxKmh
  }

  /** The squared cornering limit at curvature `k`: v² · |k| may not exceed the lateral grip. */
  function CornerLimit(k: real, g: Grip): real {
    Min((g.vMaxKmh / 3.6) * (g.vMaxKmh / 3.6), (g.latG * G) / Max(Abs(k), 0.000001))
  }

  function CornerLimits(kappa: seq<real>, g: Grip): (r: seq<real>)
    ensures |r| == |kappa|
  {
    seq(|kappa|, i requires 0 <= i < |kappa| => CornerLimit(kappa[i], g))
  }

  function BrakeStep(g: Grip, ds: real): real { 2.0 * g.brakeG * G * ds }

  function AccelStep(g: Grip, ds: real): real { 2.0 * g.accelG * G * ds }

  lemma OneRoundOf(u: seq<real>, b: real, a: real)
    requires u == [100.0, 10.0, 100.0] && b == 10.0 && a == 30.0
    ensures !Brakes(Round(u, b, a), b)
  {
    var m := BackwardFrom(u, b, 0);
    BackwardAt(u, b, 0);
    assert m[2] == 100.0;
    assert m[1] == Min(u[1], m[1 + 1] + b) == 10.0;
    assert m[0] == Min(u[0], m[0 + 1] + b) == 20.0;
    var r := Round(u, b, a);
    ForwardAt(m, a, 3);
    assert r[0] == 20.0;
    assert r[1] == Min(m[1], r[1 - 1] + a);
    assert r[2] == Min(m[2], r[2 - 1] + a);
    assert r[2] > r[Next(2, 3)] + b;
  }

  /** One round is not enough: the backward sweep lets the last point brake for the old first point, which
      the same sweep then slows down for the corner behind it. */
  lemma OneRoundIsNotEnough() returns (kappa: seq<real>, g: Grip, ds: real)
    ensures ValidGrip(g) && ds > 0.0
    ensures !Brakes(Round(CornerLimits(kappa, g), BrakeStep(g, ds), AccelStep(g, ds)), BrakeStep(g, ds))
  {
    kappa, g, ds := [0.0, G / 10.0, 0.0], Grip(1.0, 1.0, 3.0, 36.0), 5.0 / G;
    var u := CornerLimits(kappa, g);
    assert u[0] == 100.0 && u[2] == 100.0;
    assert (g.latG * G) / Max(Abs(kappa[1]), 0.000001) == 10.0;
    assert u == [100.0, 10.0, 100.0];
    OneRoundOf(u, BrakeStep(g, ds), AccelStep(g, ds));
  }

  /** `v` holds the non-negative speeds whose squares are `u`. */
  ghost predicate SpeedsOf(v: seq<real>, u: seq<real>) {
    |v| == |u| && forall i :: 0 <= i < |v| ==> 0.0 <= v[i] && v[i] * v[i] == u[i]
  }

  lemma MulOrder(x: real, y: real)
    requires 0.0 <= x && 0.0 <= y
    ensures x < y ==> x * x < y * y
  {
    if x < y {
      var d, e := y - x, y + x;
      assert 0.0 < d * e;
      assert d * e == y * y - x * x;
    }
  }

  lemma SquaresOrder(x: real, y: real)
    requires 0.0 <= x && 0.0 <= y
    ensures x <= y <==> x * x <= y * y
  {
    MulOrder(x, y);
    MulOrder(y, x);
  }

  /** The code's minimum of two speeds is the minimum of their squares. */
  lemma MinRoot(root: real -> real, x: real, z: real)
    requires IsRoot(root) && 0.0 <= x && 0.0 <= z
    ensures var m := Min(x, root(z)); 0.0 <= m && m * m == Min(x * x, z)
  {
    assert root(z) * root(z) == z;
    SquaresOrder(x, root(z));
  }

  lemma CornerLimitIsNonNegative(k: real, g: Grip)
    requires ValidGrip(g)
    ensures 0.0 <= (g.latG * G) / Max(Abs(k), 0.000001)
  {
    var d := Max(Abs(k), 0.000001);
    var q := (g.latG * G) / d;
    assert q * d == g.latG * G;
  }

  lemma StepsAreNonNegative(g: Grip, ds: real)
    requires ValidGrip(g) && 0.0 <= ds
    ensures 0.0 <= BrakeStep(g, ds) && 0.0 <= AccelStep(g, ds)
  {
    assert 0.0 <= 2.0 * g.brakeG * G && 0.0 <= 2.0 * g.accelG * G;
    MulNonNegative(2.0 * g.brakeG * G, ds);
    MulNonNegative(2.0 * g.accelG * G, ds);
  }

  function CornerSpeed(root: real -> real, k: real, g: Grip): real {
    Min(g.vMaxKmh / 3.6, root((g.latG * G) / Max(Abs(k), 0.000001)))
  }

  lemma CornerSpeedSquared(root: real -> real, k: real, g: Grip)
    requires IsRoot(root) && ValidGrip(g)
    ensures var x := CornerSpeed(root, k, g); 0.0 <= x && x * x == CornerLimit(k, g)
  {
    CornerLimitIsNonNegative(k, g);
    MinRoot(root, g.vMaxKmh / 3.6, (g.latG * G) / Max(Abs(k), 0.000001));
  }

  lemma CornerSpeedsSquared(root: real -> real, v: seq<real>, kappa: seq<real>, g: Grip)
    requires IsRoot(root) && ValidGrip(g)
    requires |v| == |kappa| && forall i :: 0 <= i < |v| ==> v[i] == CornerSpeed(root, kappa[i], g)
    ensures SpeedsOf(v, CornerLimits(kappa, g))
  {
    forall i | 0 <= i < |v| ensures 0.0 <= v[i] && v[i] * v[i] == CornerLimits(kappa, g)[i] {
      CornerSpeedSquared(root, kappa[i], g);
    }
  }

  /** The speed an inner loop stores: the one already there, or the fastest that `step` allows next to
      the neighbour's. */
  function Reachable(root: real -> real, here: real, neighbour: real, step: real): real {
    Min(here, root(neighbour * neighbour + step))
  }

  lemma StoreReachable(root: real -> real, v: seq<real>, u: seq<real>, i: nat, j: nat, step: real)
    requires IsRoot(root) && 0.0 <= step && SpeedsOf(v, u) && i < |v| && j < |v|
    ensures SpeedsOf(v[i := Reachable(root, v[i], v[j], step)], u[i := Min(u[i], u[j] + step)])
  {
    MulNonNegative(v[j], v[j]);
    MinRoot(root, v[i], v[j] * v[j] + step);
    assert v[j] * v[j] == u[j] && v[i] * v[i] == u[i];
  }

  function Rounds(u: seq<real>, b: real, a: real, k: nat): (r: seq<real>)
    ensures |r| == |u|
  {
    if k == 0 then u else Round(Rounds(u, b, a, k - 1), b, a)
  }

  lemma {:induction false} ThreeRoundsAreTwo(limit: seq<real>, b: real, a: real)
    requires 0.0 <= b && 0.0 <= a
    ensures Rounds(limit, b, a, 3) == Rounds(limit, b, a, 2)
    ensures Greatest(Rounds(limit, b, a, 3), limit, b, a)
  {
    assert Rounds(limit, b, a, 2) == Round(Rounds(limit, b, a, 1), b, a) == Round(Round(limit, b, a), b, a);
    TwoRoundsAreGreatest(limit, b, a);
    RoundFixesExactlyTheFeasible(Rounds(limit, b, a, 2), b, a);
  }

  /** The speeds `v` are feasible, and no feasible speeds are faster anywhere. */
  ghost predicate FastestOf(v: seq<real>, limit: seq<real>, b: real, a: real) {
    && (exists u :: SpeedsOf(v, u) && Feasible(u, limit, b, a))
    && forall w, s :: SpeedsOf(w, s) && Feasible(s, limit, b, a) ==> AtMost(w, v)
  }

  lemma GreatestIsFastest(v: seq<real>, u: seq<real>, limit: seq<real>, b: real, a: real)
    requires SpeedsOf(v, u) && Greatest(u, limit, b, a)
    ensures FastestOf(v, limit, b, a)
  {
    forall w, s | SpeedsOf(w, s) && Feasible(s, limit, b, a) ensures AtMost(w, v) {
      SpeedsOrder(w, s, v, u);
    }
  }

  lemma SpeedsOrder(w: seq<real>, s: seq<real>, v: seq<real>, u: seq<real>)
    requires SpeedsOf(w, s) && SpeedsOf(v, u)
    ensures AtMost(w, v) <==> AtMost(s, u)
  {
    if |w| == |v| {
      forall i | 0 <= i < |w| ensures w[i] <= v[i] <==> s[i] <= u[i] {
        SquaresOrder(w[i], v[i]);
      }
    }
  }

  /** The fastest the car may be at one point of the track: its top speed, and v² · |curvature| within its grip, where
      no curve is wider than a thousand kilometres. */
  ghost predicate Holds(v: real, k: real, g: Grip) {
    0.0 <= v && v * 3.6 <= g.vMaxKmh && v * v * Max(Abs(k), 0.000001) <= g.latG * 9.80665
  }

  /** From one speed to another over `ds` metres the car gains no more than `accelG` in a second, at their mean. */
  ghost predicate Gains(from: real, to: real, accelG: real, ds: real) {
    (to - from) * ((to + from) / 2.0) <= accelG * 9.80665 * ds
  }

  /** Between a point and the next round the track the car neither brakes nor accelerates harder than it can. */
  ghost predicate GainsOnwards(v: seq<real>, i: nat, brakeG: real, accelG: real, ds: real)
    requires i < |v|
  {
    var next := v[if i + 1 < |v| then i + 1 else 0];
    Gains(next, v[i], brakeG, ds) && Gains(v[i], next, accelG, ds)
  }

  /** Speeds the car can drive round the track: it holds every curve, and it can get from every point to the
      next, from the last to the first as well. */
  ghost predicate Drivable(v: seq<real>, kappa: seq<real>, ds: real, g: Grip) {
    HoldsRound(v, kappa, g) && GainsRound(v, g.brakeG, g.accelG, ds)
  }

  ghost predicate HoldsRound(v: seq<real>, kappa: seq<real>, g: Grip) {
    && |v| == |kappa|
    && forall i {:trigger HoldsAt(v, kappa, i, g)} :: 0 <= i < |v| ==> HoldsAt(v, kappa, i, g)
  }

  ghost predicate HoldsAt(v: seq<real>, kappa: seq<real>, i: nat, g: Grip)
    requires i < |v| == |kappa|
  {
    Holds(v[i], kappa[i], g)
  }

  ghost predicate GainsRound(v: seq<real>, brakeG: real, accelG: real, ds: real) {
    forall i {:trigger GainsOnwards(v, i, brakeG, accelG, ds)} :: 0 <= i < |v| ==>
      GainsOnwards(v, i, brakeG, accelG, ds)
  }

  lemma LimitHolds(v: real, k: real, g: Grip)
    requires ValidGrip(g) && 0.0 <= v
    ensures v * v <= CornerLimit(k, g) <==> Holds(v, k, g)
  {
    SquaresOrder(v, g.vMaxKmh / 3.6);
    QuotientOrder(v * v, g.latG * G, Max(Abs(k), 0.000001));
  }

  lemma QuotientOrder(x: real, y: real, d: real)
    requires d > 0.0
    ensures x <= y / d <==> x * d <= y
  {
    var q := y / d;
    assert q * d == y;
    if x <= q {
      MulNonNegative(q - x, d);
      assert q * d == x * d + (q - x) * d;
    } else {
      MulPositive(x - q, d);
      assert x * d == q * d + (x - q) * d;
    }
  }

  lemma StepGains(from: real, to: real, accelG: real, ds: real)
    ensures to * to <= from * from + 2.0 * accelG * G * ds <==> Gains(from, to, accelG, ds)
  {
    assert (to - from) * ((to + from) / 2.0) == (to * to - from * from) / 2.0;
    assert 2.0 * accelG * G * ds == 2.0 * (accelG * 9.80665 * ds);
  }

  /** What the sweeps keep is what the car can drive. */
  lemma DrivableExactly(v: seq<real>, u: seq<real>, kappa: seq<real>, ds: real, g: Grip)
    requires ValidGrip(g) && |v| == |kappa| && SpeedsOf(v, u)
    ensures Feasible(u, CornerLimits(kappa, g), BrakeStep(g, ds), AccelStep(g, ds)) <==> Drivable(v, kappa, ds, g)
  {
    LimitsHold(v, u, kappa, g);
    RingGains(v, u, g.brakeG, g.accelG, ds, BrakeStep(g, ds), AccelStep(g, ds));
  }

  lemma LimitsHold(v: seq<real>, u: seq<real>, kappa: seq<real>, g: Grip)
    requires ValidGrip(g) && |v| == |kappa| && SpeedsOf(v, u)
    ensures AtMost(u, CornerLimits(kappa, g)) <==> HoldsRound(v, kappa, g)
  {
    var limit := CornerLimits(kappa, g);
    forall i | 0 <= i < |v| ensures u[i] <= limit[i] <==> HoldsAt(v, kappa, i, g) {
      LimitHoldsAt(v, u, kappa, i, g);
    }
    SameEverywhere(v, u, limit, kappa, g);
  }

  lemma LimitHoldsAt(v: seq<real>, u: seq<real>, kappa: seq<real>, i: nat, g: Grip)
    requires ValidGrip(g) && i < |v| == |kappa| && SpeedsOf(v, u)
    ensures u[i] <= CornerLimits(kappa, g)[i] <==> HoldsAt(v, kappa, i, g)
  {
    LimitHolds(v[i], kappa[i], g);
  }

  lemma SameEverywhere(v: seq<real>, u: seq<real>, limit: seq<real>, kappa: seq<real>, g: Grip)
    requires |v| == |u| == |limit| == |kappa|
    requires forall i :: 0 <= i < |v| ==> (u[i] <= limit[i] <==> HoldsAt(v, kappa, i, g))
    ensures AtMost(u, limit) <==> HoldsRound(v, kappa, g)
  {
    if HoldsRound(v, kappa, g) {
      forall i | 0 <= i < |u| ensures u[i] <= limit[i] {
        assert HoldsAt(v, kappa, i, g);
      }
    }
  }

  /** The two limits between a point and the next. */
  ghost predicate StepsOnwards(u: seq<real>, i: nat, b: real, a: real)
    requires i < |u|
  {
    var next := if i + 1 < |u| then i + 1 else 0;
    u[i] <= u[next] + b && u[next] <= u[i] + a
  }

  lemma RingSteps(u: seq<real>, b: real, a: real)
    ensures Brakes(u, b) && Pulls(u, a)
            <==> forall i {:trigger StepsOnwards(u, i, b, a)} :: 0 <= i < |u| ==> StepsOnwards(u, i, b, a)
  {
    var n := |u|;
    if Brakes(u, b) && Pulls(u, a) {
      forall i | 0 <= i < n ensures StepsOnwards(u, i, b, a) {
        var j := Next(i, n);
        assert Prev(j, n) == i;
        assert u[j] <= u[Prev(j, n)] + a;
      }
    }
    if forall i {:trigger StepsOnwards(u, i, b, a)} :: 0 <= i < n ==> StepsOnwards(u, i, b, a) {
      forall i | 0 <= i < n ensures u[i] <= u[Next(i, n)] + b && u[i] <= u[Prev(i, n)] + a {
        assert StepsOnwards(u, i, b, a) && StepsOnwards(u, Prev(i, n), b, a);
      }
    }
  }

  lemma RingGains(v: seq<real>, u: seq<real>, brakeG: real, accelG: real, ds: real, b: real, a: real)
    requires SpeedsOf(v, u) && b == 2.0 * brakeG * G * ds && a == 2.0 * accelG * G * ds
    ensures Brakes(u, b) && Pulls(u, a) <==> GainsRound(v, brakeG, accelG, ds)
  {
    RingSteps(u, b, a);
    forall i | 0 <= i < |v| ensures StepsOnwards(u, i, b, a) <==> GainsOnwards(v, i, brakeG, accelG, ds) {
      StepsAreGains(v, u, i, brakeG, accelG, ds, b, a);
    }
    assert GainsRound(v, brakeG, accelG, ds) ==> forall i :: 0 <= i < |v| ==> StepsOnwards(u, i, b, a);
  }

  lemma StepsAreGains(v: seq<real>, u: seq<real>, i: nat, brakeG: real, accelG: real, ds: real, b: real, a: real)
    requires SpeedsOf(v, u) && i < |v| && b == 2.0 * brakeG * G * ds && a == 2.0 * accelG * G * ds
    ensures StepsOnwards(u, i, b, a) <==> GainsOnwards(v, i, brakeG, accelG, ds)
  {
    var next := if i + 1 < |v| then i + 1 else 0;
    StepGains(v[next], v[i], brakeG, ds);
    StepGains(v[i], v[next], accelG, ds);
  }

  function Squares(v: seq<real>): (u: seq<real>)
    ensures |u| == |v| && forall i :: 0 <= i < |v| ==> u[i] == v[i] * v[i]
  {
    seq(|v|, i requires 0 <= i < |v| => v[i] * v[i])
  }

  /** **The fastest profile under the limits is the fastest the car can drive.** */
  lemma FastestIsDrivable(v: seq<real>, kappa: seq<real>, ds: real, g: Grip)
    requires ValidGrip(g) && |v| == |kappa|
    requires FastestOf(v, CornerLimits(kappa, g), BrakeStep(g, ds), AccelStep(g, ds))
    ensures Drivable(v, kappa, ds, g) && forall w :: Drivable(w, kappa, ds, g) ==> AtMost(w, v)
  {
    var limit, b, a := CornerLimits(kappa, g), BrakeStep(g, ds), AccelStep(g, ds);
    var u :| SpeedsOf(v, u) && Feasible(u, limit, b, a);
    DrivableExactly(v, u, kappa, ds, g);
    forall w | Drivable(w, kappa, ds, g) ensures AtMost(w, v) {
      forall i | 0 <= i < |w| ensures 0.0 <= w[i] {
        assert HoldsAt(w, kappa, i, g);
      }
      assert SpeedsOf(w, Squares(w));
      DrivableExactly(w, Squares(w), kappa, ds, g);
    }
  }

  method CornerPass(root: real -> real, kappa: seq<real>, g: Grip) returns (v: array<real>)
    requires IsRoot(root) && ValidGrip(g)
    ensures fresh(v) && SpeedsOf(v[..], CornerLimits(kappa, g))
  {
    var n := |kappa|;
    v := new real[n];
    for i := 0 to n
      invariant forall j :: 0 <= j < i ==> v[j] == CornerSpeed(root, kappa[j], g)
    {
      v[i] := CornerSpeed(root, kappa[i], g);
    }
    CornerSpeedsSquared(root, v[..], kappa, g);
  }

  method BackwardPass(root: real -> real, v: array<real>, brakeStep: real, ghost u: seq<real>)
    requires IsRoot(root) && 0.0 <= brakeStep && SpeedsOf(v[..], u)
    modifies v
    ensures SpeedsOf(v[..], BackwardFrom(u, brakeStep, 0))
  {
    var n := v.Length;
    for i := n downto 0
      invariant SpeedsOf(v[..], BackwardFrom(u, brakeStep, i))
    {
      var next := v[Next(i, n)];
      StoreReachable(root, v[..], BackwardFrom(u, brakeStep, i + 1), i, Next(i, n), brakeStep);
      ghost var stored := v[..][i := Reachable(root, v[i], next, brakeStep)];
      v[i] := Reachable(root, v[i], next, brakeStep);
      assert v[..] == stored;
    }
  }

  method ForwardPass(root: real -> real, v: array<real>, accelStep: real, ghost u: seq<real>)
    requires IsRoot(root) && 0.0 <= accelStep && SpeedsOf(v[..], u)
    modifies v
    ensures SpeedsOf(v[..], ForwardTo(u, accelStep, |u|))
  {
    var n := v.Length;
    for i := 0 to n
      invariant SpeedsOf(v[..], ForwardTo(u, accelStep, i))
    {
      var previous := v[Prev(i, n)];
      StoreReachable(root, v[..], ForwardTo(u, accelStep, i), i, Prev(i, n), accelStep);
      ghost var stored := v[..][i := Reachable(root, v[i], previous, accelStep)];
      v[i] := Reachable(root, v[i], previous, accelStep);
      assert v[..] == stored;
    }
  }

  /** The speed at every point of the ring: the fastest profile under the cornering limit that can
      brake for every next point and be reached from every previous one. */
  method Solve(root: real -> real, kappa: seq<real>, ds: real, g: Grip) returns (v: array<real>)
    requires IsRoot(root) && ValidGrip(g) && 0.0 <= ds
    ensures fresh(v) && v.Length == |kappa|
    ensures FastestOf(v[..], CornerLimits(kappa, g), BrakeStep(g, ds), AccelStep(g, ds))
    ensures Drivable(v[..], kappa, ds, g) && forall w :: Drivable(w, kappa, ds, g) ==> AtMost(w, v[..])
  {
    var brakeStep := BrakeStep(g, ds);
    var accelStep := AccelStep(g, ds);
    StepsAreNonNegative(g, ds);
    v := CornerPass(root, kappa, g);

    ghost var limit := CornerLimits(kappa, g);
    ghost var u := limit;
    for pass := 0 to 3
      invariant fresh(v) && v.Length == |u| && SpeedsOf(v[..], u) && u == Rounds(limit, brakeStep, accelStep, pass)
    {
      BackwardPass(root, v, brakeStep, u);
      ForwardPass(root, v, accelStep, BackwardFrom(u, brakeStep, 0));
      u := Round(u, brakeStep, accelStep);
    }
    ThreeRoundsAreTwo(limit, brakeStep, accelStep);
    GreatestIsFastest(v[..], u, limit, brakeStep, accelStep);
    FastestIsDrivable(v[..], kappa, ds, g);
  }
}
