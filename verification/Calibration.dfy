/** Preparation of raw samples and the two correction tables of the bulb bench. */
module Calibration {
  import opened Common
  import opened Curves

  datatype Result<T> = Ok(value: T) | Err(error: CalibrationError)

  datatype CalibrationError = TooFewStable | NoMeasurableOutput | DuplicateCommand | NoVisiblePoint

  datatype BrightnessObservation = BrightnessObservation(commandPercent: real, measuredLux: real, stable: bool)

  datatype ColorTemperatureObservation =
    ColorTemperatureObservation(commandKelvin: nat, measuredKelvin: real, duv: real, stable: bool)

  datatype BrightnessCurve =
    BrightnessCurve(points: seq<CurvePoint>, minimumStableCommand: real, nonMonotonic: bool)

  datatype CtPoint = CtPoint(command: real, measured: real, duv: real)

  datatype CtCurve = CtCurve(points: seq<CtPoint>, inversePoints: seq<CurvePoint>, nonMonotonic: bool)

  const MIN_VISIBLE_OUTPUT_PERCENT := 0.5
  const BRIGHTNESS_MONOTONIC_TOLERANCE := 0.5
  const CT_MONOTONIC_TOLERANCE_KELVIN := 25.0

  // ----- Sorting by command

  function ByKey<T>(key: T -> real): (T, T) -> bool {
    (a: T, b: T) => key(a) <= key(b)
  }

  function SortBy<T>(xs: seq<T>, key: T -> real): (r: seq<T>)
    ensures |r| == |xs| && multiset(r) == multiset(xs)
  {
    Sort(xs, ByKey(key))
  }

  ghost predicate SortedBy<T>(xs: seq<T>, key: T -> real) {
    forall i, j :: 0 <= i <= j < |xs| ==> key(xs[i]) <= key(xs[j])
  }

  lemma {:induction false} TailSorted<T>(xs: seq<T>, key: T -> real)
    requires SortedBy(xs, key) && xs != []
    ensures SortedBy(xs[1..], key) && forall y :: y in xs ==> key(xs[0]) <= key(y)
  {
  }

  lemma {:induction false} SortBySorted<T(!new)>(xs: seq<T>, key: T -> real)
    ensures SortedBy(SortBy(xs, key), key)
  {
    var sorted := SortBy(xs, key);
    SortOrders(xs, ByKey(key));
    forall i, j | 0 <= i <= j < |sorted| ensures key(sorted[i]) <= key(sorted[j]) {
      assert i == j || ByKey(key)(sorted[i], sorted[j]);
    }
  }

  /** Sorting leaves a sorted sequence alone. */
  lemma {:induction false} SortOfSorted<T>(xs: seq<T>, key: T -> real)
    requires SortedBy(xs, key)
    ensures SortBy(xs, key) == xs
  {
    if xs == [] {
    } else {
      TailSorted(xs, key);
      SortOfSorted(xs[1..], key);
      assert xs == [xs[0]] + xs[1..];
    }
  }

  /** No two keys are closer than EPSILON, in any order. */
  ghost predicate Distinct<T>(xs: seq<T>, key: T -> real) {
    forall i, j :: 0 <= i < j < |xs| ==> Abs(key(xs[i]) - key(xs[j])) >= EPSILON
  }

  ghost predicate FarFromAll<T(!new)>(x: T, xs: seq<T>, key: T -> real) {
    forall y :: y in xs ==> Abs(key(y) - key(x)) >= EPSILON
  }

  lemma {:induction false} DistinctCons<T(!new)>(x: T, xs: seq<T>, key: T -> real)
    ensures Distinct([x] + xs, key) <==> Distinct(xs, key) && FarFromAll(x, xs, key)
  {
    var all := [x] + xs;
    assert all[0] == x && forall i :: 0 <= i < |xs| ==> xs[i] == all[i + 1];
    if Distinct(all, key) {
      forall i, j | 0 <= i < j < |xs| ensures Abs(key(xs[i]) - key(xs[j])) >= EPSILON {
        assert Abs(key(all[i + 1]) - key(all[j + 1])) >= EPSILON;
      }
    }
  }

  /** Of two neighbours in the sorted order, each is far from the rest and from the other. */
  lemma {:induction false} FarCons<T(!new)>(head: T, x: T, rest: seq<T>, tail: seq<T>, key: T -> real)
    requires forall y :: y in tail <==> y in rest + [x]
    ensures FarFromAll(head, tail, key) <==> FarFromAll(head, rest, key) && Abs(key(x) - key(head)) >= EPSILON
    ensures FarFromAll(x, [head] + rest, key) <==> FarFromAll(x, rest, key) && Abs(key(head) - key(x)) >= EPSILON
  {
    assert x in rest + [x] && head in [head] + rest;
  }

  lemma {:induction false} InsertDistinct<T(!new)>(x: T, xs: seq<T>, key: T -> real)
    ensures Distinct(Insert(x, xs, ByKey(key)), key) <==> Distinct(xs, key) && FarFromAll(x, xs, key)
  {
    if xs == [] || key(x) <= key(xs[0]) {
      DistinctCons(x, xs, key);
    } else {
      var head, rest := xs[0], xs[1..];
      var tail := Insert(x, rest, ByKey(key));
      assert xs == [head] + rest;
      InsertDistinct(x, rest, key);
      DistinctCons(head, tail, key);
      DistinctCons(head, rest, key);
      SameMembers(tail, rest + [x]);
      FarCons(head, x, rest, tail, key);
    }
  }

  /** Sorting neither creates nor hides near-equal keys. */
  lemma {:induction false} SortKeepsDistinct<T(!new)>(xs: seq<T>, key: T -> real)
    ensures Distinct(SortBy(xs, key), key) <==> Distinct(xs, key)
  {
    if xs == [] {
    } else {
      var head, rest := xs[0], xs[1..];
      assert xs == [head] + rest;
      SortKeepsDistinct(rest, key);
      InsertDistinct(head, SortBy(rest, key), key);
      DistinctCons(head, rest, key);
      SameMembers(rest, SortBy(rest, key));
    }
  }

  // ----- Duplicate rejection

  /** The source's loop over the sorted commands. */
  method RejectDuplicateCommands(commands: seq<real>) returns (ok: bool)
    ensures ok <==> forall i :: 0 <= i < |commands| - 1 ==> Abs(commands[i] - commands[i + 1]) >= EPSILON
  {
    var i := 0;
    ok := true;
    while i + 1 < |commands|
      invariant 0 <= i && (i < |commands| || (i == 0 && |commands| == 0))
      invariant ok
      invariant forall k :: 0 <= k < i ==> Abs(commands[k] - commands[k + 1]) >= EPSILON
    {
      if Abs(commands[i] - commands[i + 1]) < EPSILON {
        return false;
      }
      i := i + 1;
    }
  }

  ghost predicate AdjacentApart<T>(xs: seq<T>, key: T -> real) {
    forall i :: 0 <= i < |xs| - 1 ==> Abs(key(xs[i]) - key(xs[i + 1])) >= EPSILON
  }

  /** The duplicate test on the commands of a curve. */
  method CommandsApart<T>(points: seq<T>, key: T -> real) returns (ok: bool)
    ensures ok <==> AdjacentApart(points, key)
  {
    var commands := seq(|points|, i requires 0 <= i < |points| => key(points[i]));
    ok := RejectDuplicateCommands(commands);
    assert forall i :: 0 <= i < |points| ==> commands[i] == key(points[i]);
  }

  /** On sorted commands the adjacent test finds every near-duplicate pair. */
  lemma {:induction false} AdjacentApartIffDistinct<T>(xs: seq<T>, key: T -> real)
    requires SortedBy(xs, key)
    ensures AdjacentApart(xs, key) <==> Distinct(xs, key)
  {
    if AdjacentApart(xs, key) {
      forall i, j | 0 <= i < j < |xs| ensures Abs(key(xs[i]) - key(xs[j])) >= EPSILON {
        assert Abs(key(xs[i]) - key(xs[i + 1])) >= EPSILON;
        assert key(xs[i + 1]) <= key(xs[j]);
      }
    }
  }

  // ----- Brightness preparation

  function StableBrightness(observations: seq<BrightnessObservation>): seq<BrightnessObservation> {
    if observations == [] then []
    else
      (if observations[0].stable && observations[0].commandPercent > 0.0 then [observations[0]] else [])
      + StableBrightness(observations[1..])
  }

  /** Exactly the stable non-zero observations take part, each as often as it was made. */
  lemma {:induction false} StableBrightnessMembers(
      observations: seq<BrightnessObservation>, o: BrightnessObservation)
    ensures multiset(StableBrightness(observations))[o]
      == if o.stable && o.commandPercent > 0.0 then multiset(observations)[o] else 0
  {
    if observations == [] {
    } else {
      StableBrightnessMembers(observations[1..], o);
      assert observations == [observations[0]] + observations[1..];
    }
  }

  lemma {:induction false} StableOfStable(observations: seq<BrightnessObservation>)
    requires forall i :: 0 <= i < |observations| ==>
      observations[i].stable && observations[i].commandPercent > 0.0
    ensures StableBrightness(observations) == observations
  {
    if observations == [] {
    } else {
      StableOfStable(observations[1..]);
      assert observations == [observations[0]] + observations[1..];
    }
  }

  /** Largest lux, folded from zero. */
  function MaxLux(stable: seq<BrightnessObservation>): (r: real)
    ensures r >= 0.0
    ensures forall i :: 0 <= i < |stable| ==> stable[i].measuredLux <= r
    ensures r > 0.0 ==> exists i :: 0 <= i < |stable| && stable[i].measuredLux == r
  {
    if stable == [] then 0.0
    else
      var rest := MaxLux(stable[..|stable| - 1]);
      assert forall i :: 0 <= i < |stable| - 1 ==> stable[..|stable| - 1][i] == stable[i];
      Max(rest, stable[|stable| - 1].measuredLux)
  }

  function Command(p: CurvePoint): real { p.command }

  function CtCommand(p: CtPoint): real { p.command }

  function Normalised(stable: seq<BrightnessObservation>): (r: seq<CurvePoint>)
    requires MaxLux(stable) > 0.0
    ensures |r| == |stable|
  {
    seq(|stable|, i requires 0 <= i < |stable| =>
      CurvePoint(stable[i].commandPercent, stable[i].measuredLux / MaxLux(stable) * 100.0))
  }

  /** What prepare_brightness computes, with its error cases in the source's order. */
  ghost function PreparedBrightness(observations: seq<BrightnessObservation>): Result<BrightnessCurve> {
    var stable := StableBrightness(observations);
    if |stable| < 3 then Err(TooFewStable)
    else if MaxLux(stable) <= 0.0 then Err(NoMeasurableOutput)
    else
      var points := SortBy(Normalised(stable), Command);
      if !AdjacentApart(points, Command) then Err(DuplicateCommand)
      else
        var visible := FirstAtLeast(points, MIN_VISIBLE_OUTPUT_PERCENT);
        if visible < 0 then Err(NoVisiblePoint)
        else Ok(BrightnessCurve(Envelope(points), points[visible].command,
                                Drops(points, BRIGHTNESS_MONOTONIC_TOLERANCE)))
  }

  method PrepareBrightness(observations: seq<BrightnessObservation>) returns (r: Result<BrightnessCurve>)
    ensures r == PreparedBrightness(observations)
  {
    var stable := StableBrightness(observations);
    if |stable| < 3 { return Err(TooFewStable); }
    var maxLux := MaxLux(stable);
    if maxLux <= 0.0 { return Err(NoMeasurableOutput); }
    var points := SortBy(Normalised(stable), Command);
    var ok := CommandsApart(points, Command);
    if !ok { return Err(DuplicateCommand); }
    var visible := FirstAtLeast(points, MIN_VISIBLE_OUTPUT_PERCENT);
    if visible < 0 { return Err(NoVisiblePoint); }
    var minimum := points[visible].command;
    var envelope, flag := EnvelopeOf(points, BRIGHTNESS_MONOTONIC_TOLERANCE);
    return Ok(BrightnessCurve(envelope, minimum, flag));
  }

  /** The envelope of a curve, computed in place on a copy, and the flag for its drops. */
  method EnvelopeOf(points: seq<CurvePoint>, tolerance: real) returns (envelope: seq<CurvePoint>, flag: bool)
    requires tolerance >= 0.0
    ensures envelope == Envelope(points) && flag == Drops(points, tolerance)
  {
    var buffer := new CurvePoint[|points|](i requires 0 <= i < |points| => points[i]);
    assert buffer[..] == points;
    flag := MonotonicEnvelope(buffer, tolerance);
    envelope := buffer[..];
  }

  /** A curve as the correction tables may rely on it. */
  ghost predicate PreparedCurve(points: seq<CurvePoint>) {
    |points| >= 3 && Separated(points) && OutputsOrdered(points)
  }

  lemma SortedApartIsSeparated(points: seq<CurvePoint>)
    requires SortedBy(points, Command) && AdjacentApart(points, Command)
    ensures Separated(points)
  {
    AdjacentApartIffDistinct(points, Command);
    forall i, j | 0 <= i < j < |points| ensures points[i].command + EPSILON <= points[j].command {
      assert Abs(Command(points[i]) - Command(points[j])) >= EPSILON;
      assert Command(points[i]) <= Command(points[j]);
    }
  }

  lemma PercentAtMost(part: real, whole: real)
    requires part <= whole && 0.0 < whole
    ensures part / whole * 100.0 <= 100.0
    ensures part == whole ==> part / whole * 100.0 == 100.0
  {
    var f := part / whole;
    assert f * whole == part;
    assert f <= 1.0;
  }

  /** Some normalised sample is exactly 100 and none is above it. */
  lemma NormalisedPeak(stable: seq<BrightnessObservation>) returns (peak: nat)
    requires MaxLux(stable) > 0.0
    ensures peak < |stable| && Normalised(stable)[peak].output == 100.0
    ensures forall i :: 0 <= i < |stable| ==> Normalised(stable)[i].output <= 100.0
  {
    var top := MaxLux(stable);
    peak :| peak < |stable| && stable[peak].measuredLux == top;
    PercentAtMost(stable[peak].measuredLux, top);
    forall i | 0 <= i < |stable| ensures Normalised(stable)[i].output <= 100.0 {
      PercentAtMost(stable[i].measuredLux, top);
    }
  }

  /** The same peak after sorting, and so at the end of the envelope. */
  lemma SortedPeak(stable: seq<BrightnessObservation>) returns (at: nat)
    requires MaxLux(stable) > 0.0
    ensures at < |stable| && SortBy(Normalised(stable), Command)[at].output == 100.0
    ensures Envelope(SortBy(Normalised(stable), Command))[|stable| - 1].output == 100.0
  {
    var raw := Normalised(stable);
    var points := SortBy(raw, Command);
    var peak := NormalisedPeak(stable);
    SameMembers(raw, points);
    assert raw[peak] in raw;
    at :| at < |points| && points[at] == raw[peak];
    forall i | 0 <= i < |points| ensures points[i].output <= 100.0 {
      assert points[i] in points;
    }
    EnvelopePeak(points, at);
  }

  /** Preparation succeeds exactly on enough, lit and pairwise distinct samples, in any order.
      The source's missing-visible-point error never occurs. */
  lemma PrepareBrightnessSucceeds(observations: seq<BrightnessObservation>)
    ensures var stable := StableBrightness(observations);
      PreparedBrightness(observations).Ok? <==>
        |stable| >= 3 && MaxLux(stable) > 0.0 && Distinct(Normalised(stable), Command)
    ensures PreparedBrightness(observations) != Err(NoVisiblePoint)
  {
    var stable := StableBrightness(observations);
    if |stable| >= 3 && MaxLux(stable) > 0.0 {
      var raw := Normalised(stable);
      SortBySorted(raw, Command);
      AdjacentApartIffDistinct(SortBy(raw, Command), Command);
      SortKeepsDistinct(raw, Command);
      var at := SortedPeak(stable);
      assert FirstAtLeast(SortBy(raw, Command), MIN_VISIBLE_OUTPUT_PERCENT) >= 0;
    }
  }

  /** A prepared curve is separated and ordered, ends at exactly 100, and its minimum command is
      the first visible command of the envelope as well. */
  lemma PrepareBrightnessLaw(observations: seq<BrightnessObservation>)
    requires PreparedBrightness(observations).Ok?
    ensures var curve := PreparedBrightness(observations).value;
      && PreparedCurve(curve.points)
      && curve.points[|curve.points| - 1].output == 100.0
      && exists v ::
           && 0 <= v < |curve.points| && curve.points[v].output >= 0.5
           && (forall i :: 0 <= i < v ==> curve.points[i].output < 0.5)
           && curve.minimumStableCommand == curve.points[v].command
  {
    var stable := StableBrightness(observations);
    var points := SortBy(Normalised(stable), Command);
    SortBySorted(Normalised(stable), Command);
    SortedApartIsSeparated(points);
    var at := SortedPeak(stable);
    EnvelopeMajorizes(points);
    EnvelopeSeparated(points);
    FirstVisibleSurvivesEnvelope(points, MIN_VISIBLE_OUTPUT_PERCENT);
  }

  /** The observation takes part: it is stable and not at zero. */
  predicate TakesPart(observations: seq<BrightnessObservation>, o: BrightnessObservation) {
    o in observations && o.stable && o.commandPercent > 0.0
  }

  /** An observation as a point: its command, and its output in percent of the peak. */
  function AsPoint(o: BrightnessObservation, peak: real): CurvePoint
    requires peak > 0.0
  {
    CurvePoint(o.commandPercent, o.measuredLux / peak * 100.0)
  }

  ghost predicate IsSample(observations: seq<BrightnessObservation>, peak: real, p: CurvePoint)
    requires peak > 0.0
  {
    exists o :: TakesPart(observations, o) && p == AsPoint(o, peak)
  }

  /** The greatest lux of an observation that takes part. */
  ghost predicate IsPeak(observations: seq<BrightnessObservation>, peak: real) {
    && (forall o :: TakesPart(observations, o) ==> o.measuredLux <= peak)
    && exists o :: TakesPart(observations, o) && o.measuredLux == peak
  }

  /** A prepared curve, told from the observations alone: one point for each sample's command, with the
      greatest output up to that command; flagged when some output drops by more than half a percent. */
  ghost predicate CurveOf(observations: seq<BrightnessObservation>, peak: real, curve: BrightnessCurve)
    requires peak > 0.0
  {
    && (forall p :: IsSample(observations, peak, p) ==>
          exists i :: 0 <= i < |curve.points| && curve.points[i].command == p.command)
    && (forall i :: 0 <= i < |curve.points| ==> Peaks(observations, peak, curve.points[i]))
    && (curve.nonMonotonic <==> exists p, q ::
          && IsSample(observations, peak, p) && IsSample(observations, peak, q)
          && p.command < q.command && p.output - q.output > 0.5)
  }

  /** The point has a sample's command, and the greatest output among the samples up to it. */
  ghost predicate Peaks(observations: seq<BrightnessObservation>, peak: real, e: CurvePoint)
    requires peak > 0.0
  {
    && (exists p :: IsSample(observations, peak, p) && p.command == e.command)
    && (forall p :: IsSample(observations, peak, p) && p.command <= e.command ==> p.output <= e.output)
    && exists p :: IsSample(observations, peak, p) && p.command <= e.command && p.output == e.output
  }

  /** What the preparation makes of the observations, whatever their order. */
  lemma PreparedFromSamples(observations: seq<BrightnessObservation>)
    requires PreparedBrightness(observations).Ok?
    ensures var peak := MaxLux(StableBrightness(observations));
      peak > 0.0 && IsPeak(observations, peak) && CurveOf(observations, peak, PreparedBrightness(observations).value)
  {
    var stable := StableBrightness(observations);
    var peak, points := MaxLux(stable), SortBy(Normalised(stable), Command);
    SortBySorted(Normalised(stable), Command);
    SortedApartIsSeparated(points);
    PeakAttained(observations);
    SortedSamples(observations);
    CurveOfSamples(observations, peak, points, PreparedBrightness(observations).value.minimumStableCommand);
  }

  lemma PeakAttained(observations: seq<BrightnessObservation>)
    requires MaxLux(StableBrightness(observations)) > 0.0
    ensures IsPeak(observations, MaxLux(StableBrightness(observations)))
  {
    var stable := StableBrightness(observations);
    StableMembers(observations);
    var i :| 0 <= i < |stable| && stable[i].measuredLux == MaxLux(stable);
    assert stable[i] in stable;
  }

  lemma CurveOfSamples(
      observations: seq<BrightnessObservation>, peak: real, points: seq<CurvePoint>, minimum: real)
    requires peak > 0.0 && Separated(points) && forall p :: p in points <==> IsSample(observations, peak, p)
    ensures CurveOf(observations, peak,
      BrightnessCurve(Envelope(points), minimum, Drops(points, BRIGHTNESS_MONOTONIC_TOLERANCE)))
  {
    var e := Envelope(points);
    forall i | 0 <= i < |points| ensures Peaks(observations, peak, e[i]) {
      EnvelopeByCommand(points, i);
      assert points[i] in points;
    }
    DropsByCommand(points, BRIGHTNESS_MONOTONIC_TOLERANCE);
    forall p | IsSample(observations, peak, p) ensures exists i :: 0 <= i < |e| && e[i].command == p.command {
      var i :| 0 <= i < |points| && points[i] == p;
      assert e[i].command == p.command;
    }
  }

  lemma StableMembers(observations: seq<BrightnessObservation>)
    ensures forall o :: o in StableBrightness(observations) <==> TakesPart(observations, o)
  {
    forall o ensures o in StableBrightness(observations) <==> TakesPart(observations, o) {
      StableBrightnessMembers(observations, o);
      assert o in StableBrightness(observations) <==> multiset(StableBrightness(observations))[o] > 0;
      assert o in observations <==> multiset(observations)[o] > 0;
    }
  }

  lemma NormalisedMembers(stable: seq<BrightnessObservation>, p: CurvePoint)
    requires MaxLux(stable) > 0.0
    ensures p in Normalised(stable) <==> exists o :: o in stable && p == AsPoint(o, MaxLux(stable))
  {
    var raw := Normalised(stable);
    assert forall i :: 0 <= i < |stable| ==> raw[i] == AsPoint(stable[i], MaxLux(stable));
    if p in raw {
      var i :| 0 <= i < |raw| && raw[i] == p;
      assert stable[i] in stable;
    }
  }

  /** The sorted points are exactly the samples. */
  lemma SortedSamples(observations: seq<BrightnessObservation>)
    requires MaxLux(StableBrightness(observations)) > 0.0
    ensures var stable := StableBrightness(observations);
      forall p :: p in SortBy(Normalised(stable), Command) <==> IsSample(observations, MaxLux(stable), p)
  {
    var stable := StableBrightness(observations);
    var raw := Normalised(stable);
    SameMembers(raw, SortBy(raw, Command));
    forall p ensures p in raw <==> IsSample(observations, MaxLux(stable), p) {
      NormalisedMembers(stable, p);
      StableMembers(observations);
    }
  }

  lemma EnvelopeSeparated(points: seq<CurvePoint>)
    requires Separated(points)
    ensures Separated(Envelope(points))
  {
  }

  lemma EnvelopePeak(points: seq<CurvePoint>, at: nat)
    requires at < |points| && forall i :: 0 <= i < |points| ==> points[i].output <= points[at].output
    ensures Envelope(points)[|points| - 1].output == points[at].output
  {
    PrefixMaxIsMaximum(points, |points|);
  }

  // ----- Rounding

  /** f64::round: to the nearest integer, halves away from zero. */
  function RoundHalfAway(x: real): int {
    if x >= 0.0 then (x + 0.5).Floor else -((-x + 0.5).Floor)
  }

  lemma RoundNear(x: real)
    ensures Abs(RoundHalfAway(x) as real - x) <= 0.5
  {
  }

  /** The nearest integer; of two that are equally near, the one further from zero. */
  ghost predicate Nearest(n: int, x: real) {
    && Abs(n as real - x) <= 0.5
    && (Abs(n as real - x) == 0.5 ==> Abs(n as real) > Abs(x))
  }

  lemma RoundsToNearest(x: real, n: int)
    ensures RoundHalfAway(x) == n <==> Nearest(n, x)
  {
    if Nearest(n, x) {
      NearestIsUnique(n, RoundHalfAway(x), x);
    }
  }

  lemma NearestIsUnique(m: int, n: int, x: real)
    requires Nearest(m, x) && Nearest(n, x)
    ensures m == n
  {
  }

  lemma RoundMonotone(x: real, y: real)
    requires x <= y
    ensures RoundHalfAway(x) <= RoundHalfAway(y)
  {
  }

  lemma RoundInside(x: real, low: int, high: int)
    requires low as real <= x <= high as real
    ensures low <= RoundHalfAway(x) <= high
  {
  }

  /** Display rounding to a number of decimals, given as a power of ten. */
  function RoundTo(x: real, scale: real): real
    requires scale > 0.0
  {
    RoundHalfAway(x * scale) as real / scale
  }

  /** `r` is `x`, rounded to the decimals of the scale. */
  ghost predicate Rounds(r: real, x: real, scale: real) {
    r * scale == (r * scale).Floor as real && Nearest((r * scale).Floor, x * scale)
  }

  lemma RoundToRounds(x: real, scale: real)
    requires scale > 0.0
    ensures Rounds(RoundTo(x, scale), x, scale)
  {
    var n := RoundHalfAway(x * scale);
    RoundsToNearest(x * scale, n);
    assert n as real / scale * scale == n as real;
    RoundsAt(RoundTo(x, scale), n, x, scale);
  }

  lemma RoundsAt(r: real, n: int, x: real, scale: real)
    requires r * scale == n as real && Nearest(n, x * scale)
    ensures Rounds(r, x, scale)
  {
    var p := r * scale;
    assert p.Floor == n;
  }

  lemma QuotientMonotone(a: real, b: real, scale: real)
    requires a <= b && scale > 0.0
    ensures a / scale <= b / scale
  {
    var p, q := a / scale, b / scale;
    assert p * scale == a && q * scale == b;
  }

  lemma RoundToMonotone(x: real, y: real, scale: real)
    requires x <= y && scale > 0.0
    ensures RoundTo(x, scale) <= RoundTo(y, scale)
  {
    assert x * scale <= y * scale;
    RoundMonotone(x * scale, y * scale);
    QuotientMonotone(RoundHalfAway(x * scale) as real, RoundHalfAway(y * scale) as real, scale);
  }

  lemma RoundToNear(x: real, scale: real)
    requires scale > 0.0
    ensures Abs(RoundTo(x, scale) - x) * scale <= 0.5
  {
    RoundNear(x * scale);
    var a := RoundHalfAway(x * scale) as real;
    assert a / scale * scale == a;
    assert (RoundTo(x, scale) - x) * scale == a - x * scale;
  }
}
