/** The small rules shared by the modules: extremes, rounding, interpolation, and picking from lists. */
module SampleMath {

  datatype Option<+T> = None | Some(value: T)

  function Abs(x: real): real { if x < 0.0 then -x else x }

  function Min(x: real, y: real): real { if x <= y then x else y }

  function Max(x: real, y: real): real { if x >= y then x else y }

  function MinInt(x: int, y: int): int { if x <= y then x else y }

  function MaxInt(x: int, y: int): int { if x >= y then x else y }

  /** `Math.round`: the nearest integer, halves upwards. */
  function Round(x: real): int { (x + 0.5).Floor }

  lemma RoundNear(x: real)
    ensures x - 0.5 < Round(x) as real <= x + 0.5
  {}

  /** `n` is the whole number nearest to `x`, halves upwards. */
  predicate IsNearest(n: int, x: real) {
    x - 0.5 < n as real <= x + 0.5
  }

  lemma RoundIsNearest(n: int, x: real)
    ensures IsNearest(n, x) <==> n == Round(x)
  {
    RoundNear(x);
  }

  lemma RoundMonotone(x: real, y: real)
    requires x <= y
    ensures Round(x) <= Round(y)
  {}

  lemma RoundOfInt(n: int)
    ensures Round(n as real) == n
  {}

  lemma MulNonNegative(x: real, y: real)
    requires 0.0 <= x && 0.0 <= y
    ensures 0.0 <= x * y
  {}

  lemma DivMonotone(x: real, y: real, d: real)
    requires x <= y && 0.0 < d
    ensures x / d <= y / d
  {
    assert y / d - x / d == (y - x) / d;
  }

  lemma DivBounds(x: real, d: real)
    requires 0.0 <= x <= d && 0.0 < d
    ensures 0.0 <= x / d <= 1.0
  {
    DivMonotone(0.0, x, d);
    DivMonotone(x, d, d);
  }

  lemma DivStrict(x: real, y: real, d: real)
    requires x < y && 0.0 < d
    ensures x / d < y / d
  {
    assert y / d - x / d == (y - x) / d;
    assert (y - x) / d * d == y - x;
  }

  lemma MulPositive(x: real, y: real)
    requires 0.0 < x && 0.0 < y
    ensures 0.0 < x * y
  {}

  /** `round(value, places)` with `scale` = 10^places. */
  function RoundTo(value: real, scale: real): real
    requires scale > 0.0
  {
    Round(value * scale) as real / scale
  }

  /** `r` is the nearest to `x` of the numbers with whole multiples of 1 / `scale`, halves upwards. */
  ghost predicate IsRoundedTo(r: real, x: real, scale: real) {
    exists n: int {:trigger IsNearest(n, x * scale)} :: IsNearest(n, x * scale) && r * scale == n as real
  }

  lemma RoundToIs(x: real, scale: real)
    requires scale > 0.0
    ensures IsRoundedTo(RoundTo(x, scale), x, scale)
  {
    var n := Round(x * scale);
    RoundNear(x * scale);
    assert n as real / scale * scale == n as real;
    assert IsNearest(n, x * scale) && RoundTo(x, scale) * scale == n as real;
  }

  lemma RoundToMonotone(x: real, y: real, scale: real)
    requires scale > 0.0 && x <= y
    ensures RoundTo(x, scale) <= RoundTo(y, scale)
  {
    assert x * scale <= y * scale;
    RoundMonotone(x * scale, y * scale);
  }

  /** Between two channel readings, missing when either is. */
  function LerpChannel(a: Option<real>, b: Option<real>, t: real): Option<real> {
    if a.None? || b.None? then None else Some(Lerp(a.value, b.value, t))
  }

  function Lerp(a: real, b: real, t: real): real { a + t * (b - a) }

  /** A channel read at one end of a hop is that end's if the other end has it too, else there is none. */
  predicate Carries(read: Option<real>, other: Option<real>, at: Option<real>) {
    read == if other.Some? && at.Some? then at else None
  }

  lemma LerpEnds(a: real, b: real)
    ensures Lerp(a, b, 0.0) == a && Lerp(a, b, 1.0) == b
  {}

  lemma LerpChannelEnds(a: Option<real>, b: Option<real>)
    ensures Carries(LerpChannel(a, b, 0.0), b, a) && Carries(LerpChannel(a, b, 1.0), a, b)
  {}

  lemma LerpBounds(a: real, b: real, t: real)
    requires a <= b && 0.0 <= t <= 1.0
    ensures a <= Lerp(a, b, t) <= b
  {
    MulNonNegative(t, b - a);
    MulNonNegative(1.0 - t, b - a);
  }

  lemma LerpMonotone(a: real, b: real, s: real, t: real)
    requires a <= b && s <= t
    ensures Lerp(a, b, s) <= Lerp(a, b, t)
  {
    MulNonNegative(t - s, b - a);
  }

  /** `y` lies between `u` and `v` as `x` does between `a` and `b`. */
  predicate Proportional(a: real, x: real, b: real, u: real, y: real, v: real) {
    (y - u) * (b - a) == (x - a) * (v - u)
  }

  lemma LerpIsProportional(a: real, x: real, b: real, u: real, v: real, t: real)
    requires x - a == t * (b - a)
    ensures Proportional(a, x, b, u, Lerp(u, v, t), v)
  {
    assert Lerp(u, v, t) - u == t * (v - u);
    assert t * (v - u) * (b - a) == t * (b - a) * (v - u);
  }

  /** A channel at `x` between two readings, missing when either is. */
  predicate ChannelBetween(a: Option<real>, r: Option<real>, b: Option<real>, from: real, x: real, to: real) {
    if a == None || b == None then r == None else r != None && Proportional(from, x, to, a.value, r.value, b.value)
  }

  lemma ChannelIsBetween(a: Option<real>, r: Option<real>, b: Option<real>, from: real, x: real, to: real, t: real)
    requires x - from == t * (to - from) && r == LerpChannel(a, b, t)
    ensures ChannelBetween(a, r, b, from, x, to)
  {
    if a.Some? && b.Some? {
      LerpIsProportional(from, x, to, a.value, b.value, t);
    }
  }

  /** How far a target lies between two readings. */
  function Fraction(a: real, b: real, target: real): real {
    if b - a > 0.0 then (target - a) / (b - a) else 0.0
  }

  lemma DivEnds(d: real)
    requires 0.0 < d
    ensures 0.0 / d == 0.0 && d / d == 1.0
  {}

  lemma MulDiv(x: real, d: real)
    requires 0.0 < d
    ensures x * d / d == x && x * 0.0 / d == 0.0
  {}

  lemma MulDivCancel(x: real, d: real)
    requires d != 0.0
    ensures x / d * d == x
  {}

  lemma CancelFactor(x: real, y: real, d: real)
    requires x * d == y * d && d != 0.0
    ensures x == y
  {
    assert x == (x * d) / d && y == (y * d) / d;
  }

  /** `k` of `n` equal parts of a whole. */
  function FractionM(totalM: real, k: int, n: int): real
    requires n > 0
  {
    Scaled(totalM, k as real, n as real)
  }

  function Scaled(total: real, i: real, d: real): real
    requires d > 0.0
  {
    total * i / d
  }

  lemma FractionsAscend(totalM: real, i: int, j: int, n: int)
    requires 0.0 <= totalM && 0 <= i <= j <= n && 0 < n
    ensures 0.0 <= FractionM(totalM, i, n) <= FractionM(totalM, j, n) <= totalM
  {
    var d := n as real;
    ScaledInside(totalM, i as real, d);
    ScaledInside(totalM, j as real, d);
    ScaledMonotone(totalM, i as real, j as real, d);
  }

  lemma ScaledInside(total: real, i: real, d: real)
    requires 0.0 <= total && 0.0 <= i <= d && 0.0 < d
    ensures 0.0 <= Scaled(total, i, d) <= total
  {
    MulNonNegative(total, i);
    DivMonotone(0.0, total * i, d);
    ScaledMonotone(total, i, d, d);
    MulDiv(total, d);
  }

  lemma ScaledMonotone(total: real, i: real, j: real, d: real)
    requires 0.0 <= total && i <= j && 0.0 < d
    ensures Scaled(total, i, d) <= Scaled(total, j, d)
  {
    MulMonotone(total, i, j);
    DivMonotone(total * i, total * j, d);
  }

  lemma MulMonotone(total: real, i: real, j: real)
    requires 0.0 <= total && i <= j
    ensures total * i <= total * j
  {
    MulNonNegative(total, j - i);
    assert total * j - total * i == total * (j - i);
  }

  /** The first position from `i` on whose key is at least the target. */
  function FirstAtLeast(keys: seq<real>, target: real, i: nat): (j: nat)
    requires i <= |keys|
    ensures i <= j <= |keys| && (j < |keys| ==> keys[j] >= target)
    ensures forall k :: i <= k < j ==> keys[k] < target
    decreases |keys| - i
  {
    if i == |keys| || keys[i] >= target then i else FirstAtLeast(keys, target, i + 1)
  }

  /** The elements at some positions of a list. */
  function Pick<T>(s: seq<T>, kept: seq<nat>): (r: seq<T>)
    requires forall k :: 0 <= k < |kept| ==> kept[k] < |s|
    ensures |r| == |kept| && forall k :: 0 <= k < |kept| ==> r[k] == s[kept[k]]
  {
    seq(|kept|, k requires 0 <= k < |kept| => s[kept[k]])
  }
}
