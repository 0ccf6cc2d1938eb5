/** Piecewise-linear curves of the bulb bench: the running-maximum envelope, the
    interpolation search, and the laws that make a curve and its swapped copy inverses.
    f64 is modelled by `real`; the width test against f64::EPSILON is kept. */
module Curves {

  datatype CurvePoint = CurvePoint(command: real, output: real)

  datatype Interpolated = Interpolated(value: real, clamped: bool)

  /** f64::EPSILON, 2 to the power -52. */
  const EPSILON: real := 1.0 / 4503599627370496.0

  function Abs(x: real): real {
    if x < 0.0 then -x else x
  }

  function Max(x: real, y: real): real {
    if x < y then y else x
  }

  // ----- Shapes of curves

  /** Commands never decrease. */
  ghost predicate CommandsOrdered(points: seq<CurvePoint>) {
    forall i, j :: 0 <= i <= j < |points| ==> points[i].command <= points[j].command
  }

  /** Outputs never decrease. */
  ghost predicate OutputsOrdered(points: seq<CurvePoint>) {
    forall i, j :: 0 <= i <= j < |points| ==> points[i].output <= points[j].output
  }

  /** Commands increase by at least EPSILON: what sorting and duplicate rejection establish. */
  ghost predicate Separated(points: seq<CurvePoint>) {
    forall i, j :: 0 <= i < j < |points| ==> points[i].command + EPSILON <= points[j].command
  }

  /** A curve read backwards: outputs become the lookup column. */
  function Swap(points: seq<CurvePoint>): (r: seq<CurvePoint>)
    ensures |r| == |points|
    ensures forall i :: 0 <= i < |r| ==> r[i].command == points[i].output && r[i].output == points[i].command
  {
    seq(|points|, i requires 0 <= i < |points| => CurvePoint(points[i].output, points[i].command))
  }

  // ----- Monotonic envelope

  /** The largest output among the first `n` points. */
  ghost function PrefixMax(points: seq<CurvePoint>, n: nat): real
    requires 0 < n <= |points|
  {
    if n == 1 then points[0].output else Max(PrefixMax(points, n - 1), points[n - 1].output)
  }

  /** Every output lifted to the running maximum. */
  ghost function Envelope(points: seq<CurvePoint>): (r: seq<CurvePoint>)
    ensures |r| == |points|
  {
    seq(|points|, i requires 0 <= i < |points| => CurvePoint(points[i].command, PrefixMax(points, i + 1)))
  }

  /** Some later sample drops below an earlier one by more than the tolerance. */
  ghost predicate Drops(points: seq<CurvePoint>, tolerance: real) {
    exists i, j :: 0 <= i < j < |points| && points[j].output + tolerance < points[i].output
  }

  lemma {:induction false} PrefixMaxIsMaximum(points: seq<CurvePoint>, n: nat)
    requires 0 < n <= |points|
    ensures forall i :: 0 <= i < n ==> points[i].output <= PrefixMax(points, n)
    ensures exists i :: 0 <= i < n && points[i].output == PrefixMax(points, n)
  {
    if n == 1 {
      assert points[0].output == PrefixMax(points, n);
    } else {
      PrefixMaxIsMaximum(points, n - 1);
      var k :| 0 <= k < n - 1 && points[k].output == PrefixMax(points, n - 1);
      assert points[n - 1].output == PrefixMax(points, n) || points[k].output == PrefixMax(points, n);
    }
  }

  lemma {:induction false} PrefixMaxGrows(points: seq<CurvePoint>, m: nat, n: nat)
    requires 0 < m <= n <= |points|
    ensures PrefixMax(points, m) <= PrefixMax(points, n)
    decreases n
  {
    if m == n {
    } else {
      PrefixMaxGrows(points, m, n - 1);
    }
  }

  /** The envelope is non-decreasing, keeps the commands and lies on or above the samples. */
  lemma EnvelopeMajorizes(points: seq<CurvePoint>)
    ensures OutputsOrdered(Envelope(points))
    ensures forall i :: 0 <= i < |points| ==>
      Envelope(points)[i].command == points[i].command && points[i].output <= Envelope(points)[i].output
  {
    var e := Envelope(points);
    forall i, j | 0 <= i <= j < |points| ensures e[i].output <= e[j].output {
      PrefixMaxGrows(points, i + 1, j + 1);
    }
    forall i | 0 <= i < |points| ensures points[i].output <= e[i].output {
      PrefixMaxIsMaximum(points, i + 1);
    }
  }

  /** ... and it is the least such curve: every non-decreasing majorant is above it. */
  lemma EnvelopeIsLeast(points: seq<CurvePoint>, above: seq<CurvePoint>)
    requires |above| == |points| && OutputsOrdered(above)
    requires forall i :: 0 <= i < |points| ==> points[i].output <= above[i].output
    ensures forall i :: 0 <= i < |points| ==> Envelope(points)[i].output <= above[i].output
  {
    forall i | 0 <= i < |points| ensures Envelope(points)[i].output <= above[i].output {
      PrefixMaxIsMaximum(points, i + 1);
      var k :| 0 <= k < i + 1 && points[k].output == PrefixMax(points, i + 1);
      assert above[k].output <= above[i].output;
    }
  }

  /** A curve is unflagged exactly when its envelope moves no sample by more than the tolerance. */
  lemma EnvelopeMovesLittle(points: seq<CurvePoint>, tolerance: real)
    requires tolerance >= 0.0
    ensures !Drops(points, tolerance) <==>
      forall i :: 0 <= i < |points| ==> Envelope(points)[i].output <= points[i].output + tolerance
  {
    var e := Envelope(points);
    forall i | 0 <= i < |points| && !Drops(points, tolerance)
      ensures e[i].output <= points[i].output + tolerance
    {
      PrefixMaxIsMaximum(points, i + 1);
      var k :| 0 <= k < i + 1 && points[k].output == PrefixMax(points, i + 1);
      assert k == i || !(points[i].output + tolerance < points[k].output);
    }
    if Drops(points, tolerance) {
      var i, j :| 0 <= i < j < |points| && points[j].output + tolerance < points[i].output;
      PrefixMaxIsMaximum(points, j + 1);
      assert e[j].output > points[j].output + tolerance;
    }
  }

  /** A curve that is already ordered is its own envelope. */
  lemma {:induction false} EnvelopeOfOrdered(points: seq<CurvePoint>)
    requires OutputsOrdered(points)
    ensures Envelope(points) == points
  {
    EnvelopeMajorizes(points);
    EnvelopeIsLeast(points, points);
    assert forall i :: 0 <= i < |points| ==> Envelope(points)[i] == points[i];
  }

  /** What the loop's flag has seen after `n` points. */
  ghost predicate Flagged(points: seq<CurvePoint>, n: nat, tolerance: real)
    requires n <= |points|
  {
    n > 1 && (Flagged(points, n - 1, tolerance) || points[n - 1].output + tolerance < PrefixMax(points, n - 1))
  }

  lemma {:induction false} FlaggedIffDrops(points: seq<CurvePoint>, n: nat, tolerance: real)
    requires n <= |points| && tolerance >= 0.0
    ensures Flagged(points, n, tolerance) <==>
      exists i, j :: 0 <= i < j < n && points[j].output + tolerance < points[i].output
  {
    if n <= 1 {
    } else {
      FlaggedIffDrops(points, n - 1, tolerance);
      PrefixMaxIsMaximum(points, n - 1);
    }
  }

  /** The slice when the loop has lifted its first `n` points. */
  ghost function Lifted(points: seq<CurvePoint>, n: nat): seq<CurvePoint>
    requires n <= |points|
  {
    Envelope(points)[..n] + points[n..]
  }

  lemma FlaggedStep(points: seq<CurvePoint>, n: nat, tolerance: real)
    requires n < |points|
    ensures n > 0 ==> PrefixMax(points, n + 1) == Max(PrefixMax(points, n), points[n].output)
    ensures Flagged(points, n + 1, tolerance) <==>
      n > 0 && (Flagged(points, n, tolerance) || points[n].output + tolerance < PrefixMax(points, n))
  {
  }

  lemma LiftedStep(points: seq<CurvePoint>, n: nat)
    requires n < |points|
    ensures Lifted(points, n)[n] == points[n]
    ensures Lifted(points, n + 1) == Lifted(points, n)[n := CurvePoint(points[n].command, PrefixMax(points, n + 1))]
  {
  }

  lemma LiftedAll(points: seq<CurvePoint>, tolerance: real)
    requires tolerance >= 0.0
    ensures Lifted(points, |points|) == Envelope(points)
    ensures Flagged(points, |points|, tolerance) <==> Drops(points, tolerance)
  {
    FlaggedIffDrops(points, |points|, tolerance);
  }

  /** The source's in-place loop; `maximum` is minus infinity before the first point, so the
      first point is never compared. The flag reports exactly a drop beyond the tolerance. */
  method MonotonicEnvelope(points: array<CurvePoint>, tolerance: real) returns (nonMonotonic: bool)
    requires tolerance >= 0.0
    modifies points
    ensures points[..] == Envelope(old(points[..]))
    ensures nonMonotonic <==> Drops(old(points[..]), tolerance)
  {
    ghost var was := points[..];
    var maximum := 0.0;
    nonMonotonic := false;
    var i := 0;
    while i < points.Length
      invariant 0 <= i <= points.Length
      invariant i > 0 ==> maximum == PrefixMax(was, i)
      invariant nonMonotonic <==> Flagged(was, i, tolerance)
      invariant points[..] == Lifted(was, i)
    {
      LiftedStep(was, i);
      FlaggedStep(was, i, tolerance);
      assert points[i] == points[..][i];
      if i > 0 && points[i].output + tolerance < maximum {
        nonMonotonic := true;
      }
      maximum := if i == 0 then points[i].output else Max(maximum, points[i].output);
      points[i] := CurvePoint(points[i].command, maximum);
      i := i + 1;
    }
    LiftedAll(was, tolerance);
  }

  // ----- First visible command

  /** The first point whose output reaches the threshold, if any. */
  function FirstAtLeast(points: seq<CurvePoint>, threshold: real): (r: int)
    ensures -1 <= r < |points|
    ensures r >= 0 ==> points[r].output >= threshold && forall i :: 0 <= i < r ==> points[i].output < threshold
    ensures r < 0 ==> forall i :: 0 <= i < |points| ==> points[i].output < threshold
  {
    if points == [] then -1
    else if points[0].output >= threshold then 0
    else
      var rest := FirstAtLeast(points[1..], threshold);
      if rest < 0 then -1 else rest + 1
  }

  /** Looking for the first visible command before or after taking the envelope is the same. */
  lemma FirstVisibleSurvivesEnvelope(points: seq<CurvePoint>, threshold: real)
    ensures FirstAtLeast(Envelope(points), threshold) == FirstAtLeast(points, threshold)
  {
    var e := Envelope(points);
    var before, after := FirstAtLeast(points, threshold), FirstAtLeast(e, threshold);
    EnvelopeMajorizes(points);
    if after >= 0 {
      PrefixMaxIsMaximum(points, after + 1);
      var k :| 0 <= k < after + 1 && points[k].output == PrefixMax(points, after + 1);
      assert points[k].output >= threshold;
      assert before >= 0 && before <= k;
    }
    if before >= 0 {
      assert e[before].output >= points[before].output >= threshold;
      assert 0 <= after <= before;
    }
  }

  /** On separated commands the envelope is the greatest output up to each command. */
  ghost predicate GreatestUpTo(points: seq<CurvePoint>, e: CurvePoint) {
    && (forall p :: p in points && p.command <= e.command ==> p.output <= e.output)
    && exists p :: p in points && p.command <= e.command && p.output == e.output
  }

  lemma EnvelopeByCommand(points: seq<CurvePoint>, i: nat)
    requires Separated(points) && i < |points|
    ensures GreatestUpTo(points, Envelope(points)[i])
  {
    var e := Envelope(points)[i];
    PrefixMaxIsMaximum(points, i + 1);
    forall p | p in points && p.command <= e.command ensures p.output <= e.output {
      var k :| 0 <= k < |points| && points[k] == p;
      assert k > i ==> points[i].command + EPSILON <= points[k].command;
    }
    var k :| 0 <= k < i + 1 && points[k].output == e.output;
    assert points[k] in points && points[k].command <= e.command;
  }

  lemma DropsByCommand(points: seq<CurvePoint>, tolerance: real)
    requires Separated(points)
    ensures Drops(points, tolerance) <==>
      exists p, q :: p in points && q in points && p.command < q.command && p.output - q.output > tolerance
  {
    if p, q :| p in points && q in points && p.command < q.command && p.output - q.output > tolerance {
      var i :| 0 <= i < |points| && points[i] == p;
      var j :| 0 <= j < |points| && points[j] == q;
      assert i < j;
    }
  }

  // ----- Interpolation

  /** Value on one segment, with the source's guard against a (nearly) zero width. */
  function Lerp(left: CurvePoint, right: CurvePoint, target: real): real {
    var width := right.command - left.command;
    if Abs(width) < EPSILON then right.output
    else left.output + (target - left.command) / width * (right.output - left.output)
  }

  /** The first window, from the `k`-th on, whose right end reaches the target. */
  function Segment(points: seq<CurvePoint>, target: real, k: nat): (r: nat)
    requires k + 1 < |points| && target <= points[|points| - 1].command
    ensures k <= r && r + 1 < |points| && target <= points[r + 1].command
    ensures forall j :: k < j <= r ==> points[j].command < target
    decreases |points| - k
  {
    if target <= points[k + 1].command then k else Segment(points, target, k + 1)
  }

  function Interpolate(points: seq<CurvePoint>, target: real): Interpolated
    requires points != []
  {
    var first, last := points[0], points[|points| - 1];
    if target <= first.command then Interpolated(first.output, target < first.command)
    else if target >= last.command then Interpolated(last.output, target > last.command)
    else
      var k := Segment(points, target, 0);
      Interpolated(Lerp(points[k], points[k + 1], target), false)
  }

  /** The source's loop over adjacent pairs. Falling off its end, the source's `unreachable!`,
      is excluded by the loop invariant. */
  method InterpolateLoop(points: seq<CurvePoint>, target: real) returns (r: Interpolated)
    requires points != []
    ensures r == Interpolate(points, target)
  {
    var first, last := points[0], points[|points| - 1];
    if target <= first.command {
      return Interpolated(first.output, target < first.command);
    }
    if target >= last.command {
      return Interpolated(last.output, target > last.command);
    }
    var k := 0;
    while target > points[k + 1].command
      invariant 0 <= k && k + 1 < |points|
      invariant Segment(points, target, k) == Segment(points, target, 0)
      decreases |points| - k
    {
      k := k + 1;
    }
    var left, right := points[k], points[k + 1];
    var width := right.command - left.command;
    if Abs(width) < EPSILON {
      return Interpolated(right.output, false);
    }
    var fraction := (target - left.command) / width;
    return Interpolated(left.output + fraction * (right.output - left.output), false);
  }

  /** Clamping says exactly that the target lies outside the lookup column. */
  lemma ClampedIffOutside(points: seq<CurvePoint>, target: real)
    requires points != [] && CommandsOrdered(points)
    ensures Interpolate(points, target).clamped <==>
      target < points[0].command || points[|points| - 1].command < target
  {
  }

  // ----- Arithmetic of one segment

  lemma FractionBounds(part: real, whole: real)
    requires 0.0 <= part <= whole && 0.0 < whole
    ensures 0.0 <= part / whole <= 1.0
  {
    var f := part / whole;
    assert f * whole == part;
  }

  lemma LerpBetween(left: CurvePoint, right: CurvePoint, target: real)
    requires left.command <= target <= right.command && left.output <= right.output
    ensures left.output <= Lerp(left, right, target) <= right.output
  {
    var width := right.command - left.command;
    if Abs(width) >= EPSILON {
      FractionBounds(target - left.command, width);
      var f, rise := (target - left.command) / width, right.output - left.output;
      assert 0.0 <= f * rise <= rise;
      assert Lerp(left, right, target) == left.output + f * rise;
    }
  }

  lemma LerpMonotone(left: CurvePoint, right: CurvePoint, s: real, t: real)
    requires left.command <= s <= t <= right.command && left.output <= right.output
    ensures Lerp(left, right, s) <= Lerp(left, right, t)
  {
    var width := right.command - left.command;
    if Abs(width) >= EPSILON {
      var rise := right.output - left.output;
      var f, g := (s - left.command) / width, (t - left.command) / width;
      FractionBounds(t - s, width);
      assert g - f == (t - s) / width;
      assert 0.0 <= (g - f) * rise;
      assert (g - f) * rise == g * rise - f * rise;
    }
  }

  /** The change along a segment is its slope times the distance. */
  lemma LerpDifference(left: CurvePoint, right: CurvePoint, slope: real, s: real, t: real)
    requires left.command + EPSILON <= right.command
    requires slope * (right.command - left.command) == right.output - left.output
    ensures Lerp(left, right, t) - Lerp(left, right, s) == (t - s) * slope
  {
    LerpSlope(left, right, slope, s);
    LerpSlope(left, right, slope, t);
  }

  lemma LerpSlope(left: CurvePoint, right: CurvePoint, slope: real, t: real)
    requires left.command + EPSILON <= right.command
    requires slope * (right.command - left.command) == right.output - left.output
    ensures Lerp(left, right, t) == left.output + (t - left.command) * slope
  {
    var width := right.command - left.command;
    var f := (t - left.command) / width;
    assert f * width == t - left.command;
    assert f * (slope * width) == (f * width) * slope;
  }

  /** Exact position inside a segment at which the output is `y`. */
  function Solve(left: CurvePoint, right: CurvePoint, y: real): real
    requires left.output < right.output
  {
    left.command + (y - left.output) / (right.output - left.output) * (right.command - left.command)
  }

  lemma SolveInverts(left: CurvePoint, right: CurvePoint, y: real)
    requires left.command + EPSILON <= right.command
    requires left.output < y <= right.output
    ensures left.command < Solve(left, right, y) <= right.command
    ensures Solve(left, right, y) == right.command <==> y == right.output
    ensures Lerp(left, right, Solve(left, right, y)) == y
  {
    var rise, width := right.output - left.output, right.command - left.command;
    var f := (y - left.output) / rise;
    assert f * rise == y - left.output;
    FractionBounds(y - left.output, rise);
    var x := Solve(left, right, y);
    assert x - left.command == f * width;
    assert 0.0 < f;
    assert 0.0 < f * width <= width;
    assert (x - left.command) / width == f;
  }

  predicate Within(x: real, bound: real) {
    -bound <= x <= bound
  }

  lemma ScaledBounds(f: real, x: real, tolerance: real)
    requires 0.0 <= f && -tolerance <= x <= tolerance
    ensures Within(f * x, f * tolerance)
  {
    assert 0.0 <= f * (tolerance - x) && 0.0 <= f * (tolerance + x);
    assert f * (tolerance - x) == f * tolerance - f * x;
    assert f * (tolerance + x) == f * tolerance + f * x;
  }

  /** A weighted mean of two small numbers is small. */
  lemma Weighted(f: real, g: real, x: real, y: real, tolerance: real)
    requires 0.0 <= f && 0.0 <= g && f + g == 1.0 && Abs(x) <= tolerance && Abs(y) <= tolerance
    ensures Abs(g * x + f * y) <= tolerance
  {
    ScaledBounds(g, x, tolerance);
    ScaledBounds(f, y, tolerance);
    assert f == 1.0 - g;
    assert (1.0 - g) * tolerance == tolerance - g * tolerance;
    SumWithin(g * x, f * y, g * tolerance, f * tolerance);
  }

  lemma SumWithin(x: real, y: real, a: real, b: real)
    requires Within(x, a) && Within(y, b)
    ensures Within(x + y, a + b)
  {
  }

  /** Two segments over the same commands whose ends are close are close throughout. */
  lemma LerpClose(a: CurvePoint, b: CurvePoint, c: CurvePoint, d: CurvePoint, target: real, tolerance: real)
    requires a.command == c.command <= target <= b.command == d.command
    requires Abs(a.output - c.output) <= tolerance && Abs(b.output - d.output) <= tolerance
    ensures Abs(Lerp(a, b, target) - Lerp(c, d, target)) <= tolerance
  {
    var width := b.command - a.command;
    if Abs(width) >= EPSILON {
      var f := (target - a.command) / width;
      FractionBounds(target - a.command, width);
      Weighted(f, 1.0 - f, a.output - c.output, b.output - d.output, tolerance);
      Mixed(f, a.output, b.output, c.output, d.output);
    }
  }

  lemma Mixed(f: real, a: real, b: real, c: real, d: real)
    ensures (a + f * (b - a)) - (c + f * (d - c)) == (1.0 - f) * (a - c) + f * (b - d)
  {
  }

  // ----- Whole curves

  /** The same commands, and outputs that differ by at most the tolerance. */
  ghost predicate Close(p: seq<CurvePoint>, q: seq<CurvePoint>, tolerance: real) {
    && |p| == |q|
    && forall i :: 0 <= i < |p| ==> p[i].command == q[i].command && Abs(p[i].output - q[i].output) <= tolerance
  }

  lemma {:induction false} SegmentClose(
      p: seq<CurvePoint>, q: seq<CurvePoint>, tolerance: real, target: real, k: nat)
    requires Close(p, q, tolerance) && k + 1 < |p| && target <= p[|p| - 1].command
    ensures Segment(p, target, k) == Segment(q, target, k)
    decreases |p| - k
  {
    if target <= p[k + 1].command {
    } else {
      SegmentClose(p, q, tolerance, target, k + 1);
    }
  }

  /** Close curves interpolate to close values. */
  lemma InterpolateClose(p: seq<CurvePoint>, q: seq<CurvePoint>, tolerance: real, target: real)
    requires p != [] && Close(p, q, tolerance)
    ensures Abs(Interpolate(p, target).value - Interpolate(q, target).value) <= tolerance
  {
    var last := |p| - 1;
    assert p[0].command == q[0].command && Abs(p[0].output - q[0].output) <= tolerance;
    assert p[last].command == q[last].command && Abs(p[last].output - q[last].output) <= tolerance;
    if p[0].command < target < p[last].command {
      SegmentClose(p, q, tolerance, target, 0);
      var k := Segment(p, target, 0);
      LerpClose(p[k], p[k + 1], q[k], q[k + 1], target, tolerance);
    }
  }

  /** Interpolated values stay between the end outputs. */
  lemma InterpolateBetween(points: seq<CurvePoint>, target: real)
    requires points != [] && CommandsOrdered(points) && OutputsOrdered(points)
    ensures points[0].output <= Interpolate(points, target).value <= points[|points| - 1].output
  {
    if points[0].command < target < points[|points| - 1].command {
      var k := Segment(points, target, 0);
      LerpBetween(points[k], points[k + 1], target);
    }
  }

  /** Interpolation on ordered columns is monotone, whatever the segment widths. */
  lemma InterpolateMonotone(points: seq<CurvePoint>, s: real, t: real)
    requires points != [] && CommandsOrdered(points) && OutputsOrdered(points) && s <= t
    ensures Interpolate(points, s).value <= Interpolate(points, t).value
  {
    var first, last := points[0].command, points[|points| - 1].command;
    InterpolateBetween(points, s);
    InterpolateBetween(points, t);
    if first < s && t < last {
      var j, k := Segment(points, s, 0), Segment(points, t, 0);
      assert j <= k;
      LerpBetween(points[j], points[j + 1], s);
      LerpBetween(points[k], points[k + 1], t);
      if j == k {
        LerpMonotone(points[j], points[j + 1], s, t);
      } else {
        assert points[j + 1].output <= points[k].output;
      }
    }
  }

  /** On a curve with separated commands, the closed segment that holds a target decides its value. */
  lemma InterpolateOnSegment(points: seq<CurvePoint>, k: nat, target: real)
    requires Separated(points) && k + 1 < |points|
    requires points[k].command <= target <= points[k + 1].command
    ensures Interpolate(points, target) == Interpolated(Lerp(points[k], points[k + 1], target), false)
  {
    LerpAtEnds(points[k], points[k + 1]);
    if points[0].command < target < points[|points| - 1].command {
      var j := Segment(points, target, 0);
      LerpAtEnds(points[j], points[j + 1]);
      assert k - 1 <= j <= k;
    } else {
      assert k > 0 ==> points[0].command < points[k].command;
      assert k + 2 < |points| ==> points[k + 1].command < points[|points| - 1].command;
    }
  }

  /** Interpolation passes through every sample, whatever the outputs. */
  lemma InterpolateAtSample(points: seq<CurvePoint>, k: nat)
    requires Separated(points) && k < |points|
    ensures Interpolate(points, points[k].command) == Interpolated(points[k].output, false)
  {
    SampleNotClamped(points, k);
    if k + 1 < |points| {
      InterpolateOnSegment(points, k, points[k].command);
      LerpAtEnds(points[k], points[k + 1]);
    }
  }

  /** The value lies on the straight line through the two points. */
  ghost predicate Straight(left: CurvePoint, right: CurvePoint, target: real, value: real) {
    (value - left.output) * (right.command - left.command) == (target - left.command) * (right.output - left.output)
  }

  /** Between two neighbours it is straight. */
  lemma InterpolateStraight(points: seq<CurvePoint>, k: nat, target: real)
    requires Separated(points) && k + 1 < |points|
    requires points[k].command <= target <= points[k + 1].command
    ensures Straight(points[k], points[k + 1], target, Interpolate(points, target).value)
  {
    assert points[k].command + EPSILON <= points[k + 1].command;
    InterpolateOnSegment(points, k, target);
    LerpStraight(points[k], points[k + 1], target);
  }

  lemma SampleNotClamped(points: seq<CurvePoint>, k: nat)
    requires Separated(points) && k < |points|
    ensures !Interpolate(points, points[k].command).clamped
  {
    assert k > 0 ==> points[0].command + EPSILON <= points[k].command;
    assert k < |points| - 1 ==> points[k].command + EPSILON <= points[|points| - 1].command;
  }

  lemma LerpStraight(left: CurvePoint, right: CurvePoint, target: real)
    requires left.command + EPSILON <= right.command
    ensures Straight(left, right, target, Lerp(left, right, target))
  {
    var width, rise := right.command - left.command, right.output - left.output;
    var f := (target - left.command) / width;
    assert f * width == target - left.command;
    assert Lerp(left, right, target) - left.output == f * rise;
    assert f * rise * width == f * width * rise;
  }

  lemma LerpAtEnds(left: CurvePoint, right: CurvePoint)
    requires left.command + EPSILON <= right.command
    ensures Lerp(left, right, left.command) == left.output
    ensures Lerp(left, right, right.command) == right.output
  {
    var width := right.command - left.command;
    assert width / width == 1.0;
    assert 0.0 / width == 0.0;
  }

  // ----- A curve and its swapped copy

  /** `y` lies strictly inside an output step too narrow for the width test to see. */
  ghost predicate InTinyStep(points: seq<CurvePoint>, y: real) {
    exists k :: 0 <= k < |points| - 1 && TinyStepAt(points, y, k)
  }

  ghost predicate TinyStepAt(points: seq<CurvePoint>, y: real, k: nat)
    requires k + 1 < |points|
  {
    points[k].output < y < points[k + 1].output && points[k + 1].output - points[k].output < EPSILON
  }

  /** Looking up an inner output in the swapped curve lands in the first step that reaches it:
      never a flat step, so the source's exact zero-width case does not arise. */
  lemma InverseSegment(points: seq<CurvePoint>, y: real) returns (k: nat)
    requires OutputsOrdered(points) && points != []
    requires points[0].output < y < points[|points| - 1].output
    ensures k + 1 < |points| && points[k].output < y <= points[k + 1].output
    ensures Interpolate(Swap(points), y) == Interpolated(StepValue(points[k], points[k + 1], y), false)
  {
    var swapped := Swap(points);
    k := Segment(swapped, y, 0);
    assert k > 0 ==> swapped[k].command < y;
    assert points[k].output < y <= points[k + 1].output;
    StepValueIsLerp(points[k], points[k + 1], y);
    assert swapped[k] == CurvePoint(points[k].output, points[k].command);
    assert swapped[k + 1] == CurvePoint(points[k + 1].output, points[k + 1].command);
  }

  /** The command looked up for `y` on a rising step. */
  function StepValue(left: CurvePoint, right: CurvePoint, y: real): real
    requires left.output < right.output
  {
    if right.output - left.output < EPSILON then right.command else Solve(left, right, y)
  }

  lemma StepValueIsLerp(left: CurvePoint, right: CurvePoint, y: real)
    requires left.output < right.output
    ensures Lerp(CurvePoint(left.output, left.command), CurvePoint(right.output, right.command), y)
      == StepValue(left, right, y)
  {
  }

  lemma TinyStepIsUnique(points: seq<CurvePoint>, y: real, k: nat)
    requires OutputsOrdered(points) && k + 1 < |points|
    requires points[k].output < y <= points[k + 1].output
    ensures InTinyStep(points, y) <==> TinyStepAt(points, y, k)
  {
    if InTinyStep(points, y) {
      var j :| 0 <= j < |points| - 1 && TinyStepAt(points, y, j);
      assert j < k ==> points[j + 1].output <= points[k].output;
      assert k < j ==> points[k + 1].output <= points[j].output;
    }
  }

  /** Round trip: an inner output is reproduced by its looked-up command exactly when it is not
      inside a step narrower than EPSILON, plateaus included. */
  lemma InverseLaw(points: seq<CurvePoint>, y: real)
    requires Separated(points) && OutputsOrdered(points) && points != []
    requires points[0].output < y < points[|points| - 1].output
    ensures Interpolate(points, Interpolate(Swap(points), y).value).value == y <==> !InTinyStep(points, y)
  {
    var k := InverseSegment(points, y);
    TinyStepIsUnique(points, y, k);
    var left, right := points[k], points[k + 1];
    var x := Interpolate(Swap(points), y).value;
    SolveInverts(left, right, y);
    InterpolateOnSegment(points, k, x);
    LerpAtEnds(left, right);
  }

  /** Galois connection: the looked-up command is the least one whose output reaches `y`,
      again exactly outside the narrow steps. */
  lemma GaloisLaw(points: seq<CurvePoint>, y: real)
    requires Separated(points) && OutputsOrdered(points) && points != []
    requires points[0].output < y < points[|points| - 1].output
    ensures (forall c :: Interpolate(points, c).value >= y <==> c >= Interpolate(Swap(points), y).value)
      <==> !InTinyStep(points, y)
  {
    var k := InverseSegment(points, y);
    TinyStepIsUnique(points, y, k);
    var exact := Solve(points[k], points[k + 1], y);
    SolveInverts(points[k], points[k + 1], y);
    InterpolateOnSegment(points, k, exact);
    var x := Interpolate(Swap(points), y).value;
    if InTinyStep(points, y) {
      assert Interpolate(points, exact).value >= y && exact < x;
    } else {
      assert x == exact;
      forall c ensures Interpolate(points, c).value >= y <==> c >= x {
        if c >= x {
          InterpolateMonotone(points, x, c);
        } else {
          BelowExact(points, y, k, c);
        }
      }
    }
  }

  /** Left of the exact solution of a rising step the output has not reached `y` yet. */
  lemma BelowExact(points: seq<CurvePoint>, y: real, k: nat, c: real)
    requires Separated(points) && OutputsOrdered(points) && k + 1 < |points|
    requires points[k].output < y <= points[k + 1].output
    requires c < Solve(points[k], points[k + 1], y)
    ensures Interpolate(points, c).value < y
  {
    var left, right, x := points[k], points[k + 1], Solve(points[k], points[k + 1], y);
    SolveInverts(left, right, y);
    if c <= left.command {
      InterpolateMonotone(points, c, left.command);
      InterpolateOnSegment(points, k, left.command);
      LerpAtEnds(left, right);
    } else {
      InterpolateOnSegment(points, k, c);
      LerpStrict(left, right, c, x);
    }
  }

  lemma LerpStrict(left: CurvePoint, right: CurvePoint, s: real, t: real)
    requires left.command + EPSILON <= right.command && left.output < right.output && s < t
    ensures Lerp(left, right, s) < Lerp(left, right, t)
  {
    var slope := (right.output - left.output) / (right.command - left.command);
    assert slope * (right.command - left.command) == right.output - left.output;
    LerpDifference(left, right, slope, s, t);
    assert slope > 0.0;
    assert (t - s) * slope > 0.0;
  }

  /** The same round trip at the two ends, where lookups are not clamped either. */
  lemma InverseAtEnds(points: seq<CurvePoint>, y: real)
    requires Separated(points) && OutputsOrdered(points) && points != []
    requires y == points[0].output || y == points[|points| - 1].output
    ensures Interpolate(points, Interpolate(Swap(points), y).value).value == y
  {
    var n := |points|;
    var x := Interpolate(Swap(points), y).value;
    assert x == points[0].command || x == points[n - 1].command;
    assert n > 1 ==> points[0].command < points[n - 1].command;
  }
}
