/** The brightness and color-temperature correction tables built from prepared curves. */
module CorrectionTables {
  import opened Curves
  import opened Calibration
  import opened Common

  // ----- Brightness

  datatype BrightnessCorrectionPoint = BrightnessCorrectionPoint(
    logicalPercent: real,
    referenceOutputPercent: real,
    uncorrectedCandidateOutputPercent: real,
    candidateCommandPercent: real,
    expectedCandidateOutputPercent: real,
    clamped: bool)

  /** The looked-up command for a target output, before display rounding. */
  function Correction(candidate: seq<CurvePoint>, target: real): Interpolated
    requires candidate != []
  {
    Interpolate(Swap(candidate), target)
  }

  /** Output expected of the candidate at the looked-up command, before display rounding. */
  function Expected(candidate: seq<CurvePoint>, target: real): real
    requires candidate != []
  {
    Interpolate(candidate, Correction(candidate, target).value).value
  }

  function BrightnessRow(point: CurvePoint, candidate: seq<CurvePoint>): BrightnessCorrectionPoint
    requires candidate != []
  {
    var correction := Correction(candidate, point.output);
    BrightnessCorrectionPoint(
      RoundTo(point.command, 100.0),
      RoundTo(point.output, 100.0),
      RoundTo(Interpolate(candidate, point.command).value, 100.0),
      RoundTo(correction.value, 100.0),
      RoundTo(Expected(candidate, point.output), 100.0),
      correction.clamped)
  }

  function BrightnessCorrections(reference: seq<CurvePoint>, candidate: seq<CurvePoint>)
    : (rows: seq<BrightnessCorrectionPoint>)
    requires candidate != []
    ensures |rows| == |reference|
  {
    seq(|reference|, i requires 0 <= i < |reference| => BrightnessRow(reference[i], candidate))
  }

  lemma SwapPrepared(points: seq<CurvePoint>)
    requires PreparedCurve(points)
    ensures CommandsOrdered(points) && CommandsOrdered(Swap(points)) && OutputsOrdered(Swap(points))
  {
    forall i, j | 0 <= i <= j < |points| ensures points[i].command <= points[j].command {
      assert i == j || points[i].command + EPSILON <= points[j].command;
    }
  }

  /** An unclamped target is met exactly, and only then, outside the steps narrower than EPSILON. */
  lemma UnclampedTargetMet(candidate: seq<CurvePoint>, y: real)
    requires PreparedCurve(candidate) && !Correction(candidate, y).clamped
    ensures Expected(candidate, y) == y <==> !InTinyStep(candidate, y)
  {
    SwapPrepared(candidate);
    ClampedIffOutside(Swap(candidate), y);
    if y == candidate[0].output || y == candidate[|candidate| - 1].output {
      InverseAtEnds(candidate, y);
    } else {
      InverseLaw(candidate, y);
    }
  }

  /** A target below the candidate's range falls back to its lowest command and overshoots. */
  lemma ClampedBelow(candidate: seq<CurvePoint>, y: real)
    requires PreparedCurve(candidate) && y < candidate[0].output
    ensures Correction(candidate, y) == Interpolated(candidate[0].command, true)
    ensures Expected(candidate, y) == candidate[0].output > y
  {
  }

  /** The command at which a curve meets an output it reaches: the first tested one for the lowest output,
      the last tested one for the highest, and between them the least command with that output. */
  ghost predicate Meets(points: seq<CurvePoint>, y: real, c: real)
    requires points != []
  {
    var first, last := points[0], points[|points| - 1];
    && first.command <= c <= last.command && Interpolate(points, c).value == y
    && if y == first.output then c == first.command
       else if y == last.output then c == last.command
       else forall d :: first.command <= d < c ==> Interpolate(points, d).value < y
  }

  /** The right end of the narrow step that holds the output. */
  ghost predicate EndsTinyStep(points: seq<CurvePoint>, y: real, c: real) {
    exists k :: 0 <= k < |points| - 1 && TinyStepAt(points, y, k) && c == points[k + 1].command
  }

  /** Where the looked-up command of a target lies: at the nearer end of the tested commands for a target out
      of range, otherwise where the curve meets the target, or at the end of a narrow step. */
  ghost predicate Corrects(points: seq<CurvePoint>, y: real, c: real)
    requires points != []
  {
    if y < points[0].output then c == points[0].command
    else if y > points[|points| - 1].output then c == points[|points| - 1].command
    else if InTinyStep(points, y) then EndsTinyStep(points, y, c)
    else Meets(points, y, c)
  }

  lemma LookupCorrects(points: seq<CurvePoint>, y: real)
    requires PreparedCurve(points)
    ensures Corrects(points, y, Interpolate(Swap(points), y).value)
    ensures Interpolate(Swap(points), y).clamped <==> y < points[0].output || y > points[|points| - 1].output
  {
    SwapPrepared(points);
    ClampedIffOutside(Swap(points), y);
    var x := Interpolate(Swap(points), y).value;
    if y == points[0].output || y == points[|points| - 1].output {
      NoTinyStepAtEnds(points, y);
      InverseAtEnds(points, y);
    } else if points[0].output < y < points[|points| - 1].output {
      LookupInside(points, y);
    }
  }

  lemma NoTinyStepAtEnds(points: seq<CurvePoint>, y: real)
    requires PreparedCurve(points) && (y == points[0].output || y == points[|points| - 1].output)
    ensures !InTinyStep(points, y)
  {
  }

  lemma LookupInside(points: seq<CurvePoint>, y: real)
    requires PreparedCurve(points) && points[0].output < y < points[|points| - 1].output
    ensures Corrects(points, y, Interpolate(Swap(points), y).value)
  {
    var x := Interpolate(Swap(points), y).value;
    InverseLaw(points, y);
    var k := InverseSegment(points, y);
    TinyStepIsUnique(points, y, k);
    SolveInverts(points[k], points[k + 1], y);
    if InTinyStep(points, y) {
      assert TinyStepAt(points, y, k) && x == points[k + 1].command;
    } else {
      GaloisLaw(points, y);
      SwapPrepared(points);
      InterpolateBetween(Swap(points), y);
    }
  }

  /** A row of the brightness table, column by column: the reference sample, what the candidate gives
      uncorrected, a command that corrects it, and what the candidate gives there. */
  ghost predicate BrightnessRowSound(
      sample: CurvePoint, candidate: seq<CurvePoint>, row: BrightnessCorrectionPoint)
    requires candidate != []
  {
    && row.logicalPercent == RoundTo(sample.command, 100.0)
    && row.referenceOutputPercent == RoundTo(sample.output, 100.0)
    && row.uncorrectedCandidateOutputPercent == RoundTo(Interpolate(candidate, sample.command).value, 100.0)
    && (row.clamped <==> sample.output < candidate[0].output || sample.output > candidate[|candidate| - 1].output)
    && exists c ::
         && Corrects(candidate, sample.output, c)
         && row.candidateCommandPercent == RoundTo(c, 100.0)
         && row.expectedCandidateOutputPercent == RoundTo(Interpolate(candidate, c).value, 100.0)
  }

  lemma BrightnessRowIsSound(sample: CurvePoint, candidate: seq<CurvePoint>)
    requires PreparedCurve(candidate)
    ensures BrightnessRowSound(sample, candidate, BrightnessRow(sample, candidate))
  {
    LookupCorrects(candidate, sample.output);
  }

  lemma BrightnessRowsSound(reference: seq<CurvePoint>, candidate: seq<CurvePoint>)
    requires PreparedCurve(candidate)
    ensures var rows := BrightnessCorrections(reference, candidate);
      forall i {:trigger BrightnessRowSound(reference[i], candidate, rows[i])} :: 0 <= i < |rows| ==>
        BrightnessRowSound(reference[i], candidate, rows[i])
  {
    var rows := BrightnessCorrections(reference, candidate);
    forall i | 0 <= i < |rows| ensures BrightnessRowSound(reference[i], candidate, rows[i]) {
      BrightnessRowIsSound(reference[i], candidate);
    }
  }

  /** What the rounded columns are worth: an unclamped row outside the narrow steps publishes, to within
      half a hundredth, the command at which the candidate meets the reference output. */
  lemma BrightnessRowMeets(sample: CurvePoint, candidate: seq<CurvePoint>)
    requires PreparedCurve(candidate)
    requires candidate[0].output <= sample.output <= candidate[|candidate| - 1].output
    requires !InTinyStep(candidate, sample.output)
    ensures var row := BrightnessRow(sample, candidate);
      && !row.clamped
      && (exists c :: Meets(candidate, sample.output, c) && Abs(row.candidateCommandPercent - c) <= 0.005)
      && Abs(row.expectedCandidateOutputPercent - sample.output) <= 0.005
  {
    var c := Correction(candidate, sample.output).value;
    LookupCorrects(candidate, sample.output);
    RoundedPercent(c);
    RoundedPercent(sample.output);
  }

  lemma RoundedPercent(x: real)
    ensures Abs(RoundTo(x, 100.0) - x) <= 0.005
  {
    RoundToWithin(x, 100.0, 0.005);
  }

  /** Brightness table: every row is sound, commands never decrease, the clamped rows are exactly the prefix
      of targets below the candidate's lowest output, the last row is never clamped, and an unclamped row
      promises the reference output unless that output sits inside a step narrower than EPSILON. */
  lemma BrightnessTable(reference: seq<CurvePoint>, candidate: seq<CurvePoint>)
    requires PreparedCurve(reference) && PreparedCurve(candidate)
    requires reference[|reference| - 1].output == 100.0 && candidate[|candidate| - 1].output == 100.0
    ensures var rows := BrightnessCorrections(reference, candidate);
      && (forall i {:trigger BrightnessRowSound(reference[i], candidate, rows[i])} :: 0 <= i < |rows| ==>
            BrightnessRowSound(reference[i], candidate, rows[i]))
      && (forall i, j :: 0 <= i <= j < |rows| ==> rows[i].candidateCommandPercent <= rows[j].candidateCommandPercent)
      && (forall i :: 0 <= i < |rows| ==> (rows[i].clamped <==> reference[i].output < candidate[0].output))
      && (forall i, j :: 0 <= i <= j < |rows| && rows[j].clamped ==> rows[i].clamped)
      && !rows[|rows| - 1].clamped
      && (forall i :: 0 <= i < |rows| && !rows[i].clamped && !InTinyStep(candidate, reference[i].output) ==>
            rows[i].expectedCandidateOutputPercent == rows[i].referenceOutputPercent)
  {
    var rows := BrightnessCorrections(reference, candidate);
    SwapPrepared(candidate);
    BrightnessRowsSound(reference, candidate);
    forall i, j | 0 <= i <= j < |rows|
      ensures rows[i].candidateCommandPercent <= rows[j].candidateCommandPercent
    {
      InterpolateMonotone(Swap(candidate), reference[i].output, reference[j].output);
      RoundToMonotone(Correction(candidate, reference[i].output).value,
                      Correction(candidate, reference[j].output).value, 100.0);
    }
    forall i | 0 <= i < |rows| ensures rows[i].clamped <==> reference[i].output < candidate[0].output {
      ClampedIffOutside(Swap(candidate), reference[i].output);
      assert reference[i].output <= reference[|reference| - 1].output;
    }
    assert candidate[0].output <= candidate[|candidate| - 1].output;
    forall i | 0 <= i < |rows| && !rows[i].clamped && !InTinyStep(candidate, reference[i].output)
      ensures rows[i].expectedCandidateOutputPercent == rows[i].referenceOutputPercent
    {
      UnclampedTargetMet(candidate, reference[i].output);
    }
  }

  /** End to end: the table law for any two sample sets that the preparation accepts. */
  lemma BrightnessTableFromSamples(
      referenceSamples: seq<BrightnessObservation>, candidateSamples: seq<BrightnessObservation>)
    requires PreparedBrightness(referenceSamples).Ok? && PreparedBrightness(candidateSamples).Ok?
    ensures var reference := PreparedBrightness(referenceSamples).value.points;
      var candidate := PreparedBrightness(candidateSamples).value.points;
      candidate != [] &&
      var rows := BrightnessCorrections(reference, candidate);
      && |rows| == |reference| >= 3
      && (forall i {:trigger BrightnessRowSound(reference[i], candidate, rows[i])} :: 0 <= i < |rows| ==>
            BrightnessRowSound(reference[i], candidate, rows[i]))
      && (forall i, j :: 0 <= i <= j < |rows| ==> rows[i].candidateCommandPercent <= rows[j].candidateCommandPercent)
      && (forall i :: 0 <= i < |rows| ==> (rows[i].clamped <==> reference[i].output < candidate[0].output))
      && (forall i, j :: 0 <= i <= j < |rows| && rows[j].clamped ==> rows[i].clamped)
      && !rows[|rows| - 1].clamped
      && (forall i :: 0 <= i < |rows| && !rows[i].clamped && !InTinyStep(candidate, reference[i].output) ==>
            rows[i].expectedCandidateOutputPercent == rows[i].referenceOutputPercent)
  {
    PrepareBrightnessLaw(referenceSamples);
    PrepareBrightnessLaw(candidateSamples);
    BrightnessTable(PreparedBrightness(referenceSamples).value.points,
                    PreparedBrightness(candidateSamples).value.points);
  }

  function ThreeSamples(low: real, middle: real): seq<BrightnessObservation> {
    [BrightnessObservation(1.0, low, true), BrightnessObservation(2.0, middle, true),
     BrightnessObservation(3.0, 100.0, true)]
  }

  function ThreePoints(low: real, middle: real): seq<CurvePoint> {
    [CurvePoint(1.0, low), CurvePoint(2.0, middle), CurvePoint(3.0, 100.0)]
  }

  /** Rising samples of a bulb with a peak of 100 lux are prepared as they are. */
  lemma ThreeSamplesPrepared(low: real, middle: real)
    requires 0.0 <= low <= middle <= 100.0
    ensures PreparedBrightness(ThreeSamples(low, middle)).Ok?
    ensures PreparedBrightness(ThreeSamples(low, middle)).value.points == ThreePoints(low, middle)
  {
    var samples, points := ThreeSamples(low, middle), ThreePoints(low, middle);
    StableOfStable(samples);
    ThreePeak(samples);
    ThreeNormalised(low, middle);
    ThreeOrdered(points);
    SortOfSorted(points, Command);
    EnvelopeOfOrdered(points);
    AsPrepared(samples, points);
  }

  /** Samples that are already stable, normalised, sorted, apart and ordered. */
  lemma {:induction false} AsPrepared(samples: seq<BrightnessObservation>, points: seq<CurvePoint>)
    requires |samples| == |points| == 3 && StableBrightness(samples) == samples && MaxLux(samples) == 100.0
    requires Normalised(samples) == points && SortBy(points, Command) == points && Envelope(points) == points
    requires AdjacentApart(points, Command) && points[2].output == 100.0
    ensures PreparedBrightness(samples).Ok? && PreparedBrightness(samples).value.points == points
  {
    assert FirstAtLeast(points, MIN_VISIBLE_OUTPUT_PERCENT) >= 0;
  }

  lemma ThreeOrdered(points: seq<CurvePoint>)
    requires |points| == 3 && points[0].command == 1.0 && points[1].command == 2.0 && points[2].command == 3.0
    requires points[0].output <= points[1].output <= points[2].output
    ensures SortedBy(points, Command) && AdjacentApart(points, Command) && OutputsOrdered(points)
  {
  }

  lemma ThreeNormalised(low: real, middle: real)
    requires MaxLux(ThreeSamples(low, middle)) == 100.0
    ensures Normalised(ThreeSamples(low, middle)) == ThreePoints(low, middle)
  {
    Percent(low);
    Percent(middle);
    Percent(100.0);
  }

  lemma Percent(x: real)
    ensures x / 100.0 * 100.0 == x
  {
  }

  lemma ThreePeak(samples: seq<BrightnessObservation>)
    requires |samples| == 3 && samples[2].measuredLux == 100.0
    requires forall i :: 0 <= i < 3 ==> samples[i].measuredLux <= 100.0
    ensures MaxLux(samples) == 100.0
  {
  }

  /** An unclamped target inside a narrow step that the corrected candidate does not meet. */
  ghost predicate Misses(candidate: seq<CurvePoint>, target: real) {
    && PreparedCurve(candidate) && InTinyStep(candidate, target)
    && !Correction(candidate, target).clamped && Expected(candidate, target) != target
  }

  /** Candidate samples half an EPSILON apart, and a reference sample between them: the width test takes
      the two candidate outputs for one, and the target of the first row is missed. */
  lemma TinyStepMissesTarget()
    ensures var reference := PreparedBrightness(ThreeSamples(EPSILON / 4.0, 50.0));
      var candidate := PreparedBrightness(ThreeSamples(0.0, EPSILON / 2.0));
      && reference.Ok? && reference.value.points != [] && candidate.Ok?
      && Misses(candidate.value.points, reference.value.points[0].output)
  {
    ThreeSamplesPrepared(0.0, EPSILON / 2.0);
    ThreeSamplesPrepared(EPSILON / 4.0, 50.0);
    TinyStepMissed(0.0, EPSILON / 4.0, EPSILON / 2.0);
  }

  lemma TinyStepMissed(low: real, target: real, middle: real)
    requires low < target < middle <= 100.0 && middle - low < EPSILON
    ensures Misses(ThreePoints(low, middle), target)
  {
    var candidate := ThreePoints(low, middle);
    ThreeOrdered(candidate);
    SortedApartIsSeparated(candidate);
    SwapPrepared(candidate);
    assert TinyStepAt(candidate, target, 0);
    ClampedIffOutside(Swap(candidate), target);
    UnclampedTargetMet(candidate, target);
  }

  // ----- Color temperature preparation

  /** Command values come from whole Kelvin. */
  ghost predicate WholeCommands(points: seq<CurvePoint>) {
    forall i :: 0 <= i < |points| ==> points[i].command == points[i].command.Floor as real
  }

  function StableCt(observations: seq<ColorTemperatureObservation>): (r: seq<CtPoint>)
    ensures forall p :: p in r ==> p.command == p.command.Floor as real
  {
    if observations == [] then []
    else
      var o := observations[0];
      (if o.stable then [CtSample(o)] else [])
      + StableCt(observations[1..])
  }

  function CtSample(o: ColorTemperatureObservation): CtPoint {
    CtPoint(o.commandKelvin as real, o.measuredKelvin, o.duv)
  }

  /** Exactly the stable observations take part, each as often as it was made. */
  lemma {:induction false} StableCtMembers(
      observations: seq<ColorTemperatureObservation>, o: ColorTemperatureObservation)
    ensures o.stable ==> multiset(StableCt(observations))[CtSample(o)] == multiset(observations)[o]
    ensures forall p :: p in StableCt(observations) ==>
      exists x :: x in observations && x.stable && p == CtSample(x)
  {
    if observations == [] {
    } else {
      StableCtMembers(observations[1..], o);
      assert observations == [observations[0]] + observations[1..];
      assert observations[0].stable && o.stable && CtSample(observations[0]) == CtSample(o) ==> observations[0] == o;
    }
  }

  function MeasuredCurve(points: seq<CtPoint>): (r: seq<CurvePoint>)
    ensures |r| == |points|
  {
    seq(|points|, i requires 0 <= i < |points| => CurvePoint(points[i].command, points[i].measured))
  }

  function DuvCurve(points: seq<CtPoint>): (r: seq<CurvePoint>)
    ensures |r| == |points|
  {
    seq(|points|, i requires 0 <= i < |points| => CurvePoint(points[i].command, points[i].duv))
  }

  /** What prepare_ct computes: the raw samples stay beside the envelope used for inversion. */
  ghost function PreparedCt(observations: seq<ColorTemperatureObservation>): Result<CtCurve> {
    var stable := StableCt(observations);
    if |stable| < 3 then Err(TooFewStable)
    else
      var points := SortBy(stable, CtCommand);
      if !AdjacentApart(points, CtCommand) then Err(DuplicateCommand)
      else
        var measured := MeasuredCurve(points);
        Ok(CtCurve(points, Envelope(measured), Drops(measured, CT_MONOTONIC_TOLERANCE_KELVIN)))
  }

  method PrepareCt(observations: seq<ColorTemperatureObservation>) returns (r: Result<CtCurve>)
    ensures r == PreparedCt(observations)
  {
    var points := StableCt(observations);
    if |points| < 3 { return Err(TooFewStable); }
    points := SortBy(points, CtCommand);
    var ok := CommandsApart(points, CtCommand);
    if !ok { return Err(DuplicateCommand); }
    var envelope, flag := EnvelopeOf(MeasuredCurve(points), CT_MONOTONIC_TOLERANCE_KELVIN);
    return Ok(CtCurve(points, envelope, flag));
  }

  /** A color-temperature curve as the table may rely on it. */
  ghost predicate PreparedCtCurve(curve: CtCurve) {
    var measured := MeasuredCurve(curve.points);
    && |curve.points| >= 3
    && Separated(measured) && WholeCommands(measured)
    && curve.inversePoints == Envelope(measured)
  }

  lemma PrepareCtLaw(observations: seq<ColorTemperatureObservation>)
    ensures PreparedCt(observations).Ok? <==>
      |StableCt(observations)| >= 3 && Distinct(StableCt(observations), CtCommand)
    ensures PreparedCt(observations).Ok? ==> PreparedCtCurve(PreparedCt(observations).value)
  {
    var stable := StableCt(observations);
    if |stable| >= 3 {
      var points := SortBy(stable, CtCommand);
      SortBySorted(stable, CtCommand);
      AdjacentApartIffDistinct(points, CtCommand);
      SortKeepsDistinct(stable, CtCommand);
      if AdjacentApart(points, CtCommand) {
        MeasuredSeparated(points);
        SameMembers(stable, points);
        forall i | 0 <= i < |points|
          ensures MeasuredCurve(points)[i].command == MeasuredCurve(points)[i].command.Floor as real
        {
          assert points[i] in points;
        }
      }
    }
  }

  /** A prepared curve, told from the samples: they stand in the order of their commands, over each command is
      the greatest temperature measured up to it, and a drop of more than 25 K is flagged. */
  ghost predicate CtCurveOf(samples: seq<CtPoint>, curve: CtCurve) {
    && multiset(curve.points) == multiset(samples)
    && (forall i, j :: 0 <= i < j < |curve.points| ==> curve.points[i].command < curve.points[j].command)
    && |curve.inversePoints| == |curve.points|
    && (forall i :: 0 <= i < |curve.points| ==>
          && curve.inversePoints[i].command == curve.points[i].command
          && GreatestUpTo(MeasuredCurve(curve.points), curve.inversePoints[i]))
    && (curve.nonMonotonic <==> DropsInPoints(curve.points))
  }

  ghost predicate DropsInPoints(points: seq<CtPoint>) {
    exists p, q :: p in points && q in points && p.command < q.command && p.measured - q.measured > 25.0
  }

  /** What the preparation makes of the observations: the curve of the stable ones. */
  lemma PreparedCtFromSamples(observations: seq<ColorTemperatureObservation>)
    requires PreparedCt(observations).Ok?
    ensures CtCurveOf(StableCt(observations), PreparedCt(observations).value)
  {
    PrepareCtLaw(observations);
    var points := SortBy(StableCt(observations), CtCommand);
    CurveOfSorted(StableCt(observations), points);
  }

  lemma CurveOfSorted(samples: seq<CtPoint>, points: seq<CtPoint>)
    requires multiset(points) == multiset(samples) && Separated(MeasuredCurve(points))
    ensures var measured := MeasuredCurve(points);
      CtCurveOf(samples, CtCurve(points, Envelope(measured), Drops(measured, CT_MONOTONIC_TOLERANCE_KELVIN)))
  {
    CommandsRise(points);
    EnvelopeOfMeasured(points);
    MeasuredDrops(points);
  }

  lemma CommandsRise(points: seq<CtPoint>)
    requires Separated(MeasuredCurve(points))
    ensures forall i, j :: 0 <= i < j < |points| ==> points[i].command < points[j].command
  {
    var measured := MeasuredCurve(points);
    forall i, j | 0 <= i < j < |points| ensures points[i].command < points[j].command {
      assert measured[i].command + EPSILON <= measured[j].command;
    }
  }

  lemma EnvelopeOfMeasured(points: seq<CtPoint>)
    requires Separated(MeasuredCurve(points))
    ensures var measured := MeasuredCurve(points);
      forall i :: 0 <= i < |points| ==>
        Envelope(measured)[i].command == points[i].command && GreatestUpTo(measured, Envelope(measured)[i])
  {
    var measured := MeasuredCurve(points);
    forall i | 0 <= i < |points| ensures GreatestUpTo(measured, Envelope(measured)[i]) {
      EnvelopeByCommand(measured, i);
    }
  }

  lemma MeasuredDrops(points: seq<CtPoint>)
    requires Separated(MeasuredCurve(points))
    ensures Drops(MeasuredCurve(points), 25.0) <==> DropsInPoints(points)
  {
    var measured := MeasuredCurve(points);
    if i, j :| 0 <= i < j < |measured| && measured[j].output + 25.0 < measured[i].output {
      assert measured[i].command + EPSILON <= measured[j].command;
      assert points[i] in points && points[j] in points;
    }
    if DropsInPoints(points) {
      PointsDrop(points);
    }
  }

  lemma PointsDrop(points: seq<CtPoint>)
    requires Separated(MeasuredCurve(points)) && DropsInPoints(points)
    ensures Drops(MeasuredCurve(points), 25.0)
  {
    var measured := MeasuredCurve(points);
    var p, q :| p in points && q in points && p.command < q.command && p.measured - q.measured > 25.0;
    var i :| 0 <= i < |points| && points[i] == p;
    var j :| 0 <= j < |points| && points[j] == q;
    CommandsRise(points);
    assert measured[j].output + 25.0 < measured[i].output;
  }

  lemma MeasuredSeparated(points: seq<CtPoint>)
    requires SortedBy(points, CtCommand) && AdjacentApart(points, CtCommand)
    ensures Separated(MeasuredCurve(points))
  {
    var measured := MeasuredCurve(points);
    forall i, j | 0 <= i <= j < |measured| ensures Command(measured[i]) <= Command(measured[j]) {
      assert CtCommand(points[i]) <= CtCommand(points[j]);
    }
    forall i | 0 <= i < |measured| - 1
      ensures Abs(Command(measured[i]) - Command(measured[i + 1])) >= EPSILON
    {
      assert Abs(CtCommand(points[i]) - CtCommand(points[i + 1])) >= EPSILON;
    }
    SortedApartIsSeparated(measured);
  }

  // ----- Color temperature table

  datatype ColorTemperatureCorrectionPoint = ColorTemperatureCorrectionPoint(
    logicalKelvin: int,
    referenceMeasuredKelvin: real,
    uncorrectedCandidateMeasuredKelvin: real,
    candidateCommandKelvin: int,
    expectedCandidateMeasuredKelvin: real,
    errorBeforeKelvin: real,
    expectedErrorAfterKelvin: real,
    referenceDuv: real,
    expectedCandidateDuv: real,
    duvDelta: real,
    clamped: bool)

  /** The whole-Kelvin command sent for a target color temperature. */
  function CtCommandFor(candidate: CtCurve, target: real): int
    requires candidate.inversePoints != []
  {
    RoundHalfAway(Interpolate(Swap(candidate.inversePoints), target).value)
  }

  /** Candidate color temperature expected at that command, before display rounding. */
  function CtExpected(candidate: CtCurve, target: real): real
    requires candidate.inversePoints != [] && candidate.points != []
  {
    Interpolate(MeasuredCurve(candidate.points), CtCommandFor(candidate, target) as real).value
  }

  function CtRow(point: CtPoint, candidate: CtCurve): ColorTemperatureCorrectionPoint
    requires candidate.inversePoints != [] && candidate.points != []
  {
    var command := CtCommandFor(candidate, point.measured);
    var expected := CtExpected(candidate, point.measured);
    var uncorrected := Interpolate(MeasuredCurve(candidate.points), point.command).value;
    var expectedDuv := Interpolate(DuvCurve(candidate.points), command as real).value;
    ColorTemperatureCorrectionPoint(
      RoundHalfAway(point.command),
      RoundTo(point.measured, 10.0),
      RoundTo(uncorrected, 10.0),
      command,
      RoundTo(expected, 10.0),
      RoundTo(uncorrected - point.measured, 10.0),
      RoundTo(expected - point.measured, 10.0),
      RoundTo(point.duv, 100000.0),
      RoundTo(expectedDuv, 100000.0),
      RoundTo(expectedDuv - point.duv, 100000.0),
      Interpolate(Swap(candidate.inversePoints), point.measured).clamped)
  }

  function CtCorrections(reference: CtCurve, candidate: CtCurve): (rows: seq<ColorTemperatureCorrectionPoint>)
    requires candidate.inversePoints != [] && candidate.points != []
    ensures |rows| == |reference.points|
  {
    seq(|reference.points|, i requires 0 <= i < |reference.points| => CtRow(reference.points[i], candidate))
  }

  lemma InversePrepared(candidate: CtCurve)
    requires PreparedCtCurve(candidate)
    ensures PreparedCurve(candidate.inversePoints) && WholeCommands(candidate.inversePoints)
    ensures |candidate.inversePoints| == |candidate.points|
    ensures forall i :: 0 <= i < |candidate.points| ==>
      candidate.inversePoints[i].command == candidate.points[i].command
  {
    var measured := MeasuredCurve(candidate.points);
    EnvelopeMajorizes(measured);
    EnvelopeSeparated(measured);
  }

  /** Whatever the target, the rounded command stays inside the candidate's tested commands. */
  lemma CtCommandInTestedRange(candidate: CtCurve, target: real)
    requires PreparedCtCurve(candidate)
    ensures candidate.inversePoints != []
    ensures candidate.points[0].command
      <= CtCommandFor(candidate, target) as real
      <= candidate.points[|candidate.points| - 1].command
  {
    InversePrepared(candidate);
    var inverse := candidate.inversePoints;
    SwapPrepared(inverse);
    InterpolateBetween(Swap(inverse), target);
    RoundInside(Interpolate(Swap(inverse), target).value,
                inverse[0].command.Floor, inverse[|inverse| - 1].command.Floor);
  }

  /** No measured segment rises faster than `slope` Kelvin per commanded Kelvin; the least such
      bound is the steepest measured slope. */
  ghost predicate SlopeAtMost(points: seq<CurvePoint>, slope: real) {
    forall k :: 0 <= k < |points| - 1 ==> RisesAtMost(points[k], points[k + 1], slope)
  }

  ghost predicate RisesAtMost(left: CurvePoint, right: CurvePoint, slope: real) {
    right.output - left.output <= slope * (right.command - left.command)
  }

  lemma LerpRounded(left: CurvePoint, right: CurvePoint, slope: real, x: real, whole: real)
    requires left.command + EPSILON <= right.command && left.output <= right.output
    requires RisesAtMost(left, right, slope) && Abs(whole - x) <= 0.5
    ensures Abs(Lerp(left, right, whole) - Lerp(left, right, x)) <= slope / 2.0
  {
    var rise, width := right.output - left.output, right.command - left.command;
    var own := rise / width;
    assert own * width == rise;
    LerpDifference(left, right, own, x, whole);
    QuotientMonotone(0.0, rise, width);
    assert 0.0 / width == 0.0;
    ProductCancels(own, slope, width);
    assert own <= slope;
    HalfProduct(whole - x, own);
    var moved := Lerp(left, right, whole) - Lerp(left, right, x);
    assert moved == (whole - x) * own;
    assert Abs(moved) <= own / 2.0;
  }

  lemma ProductCancels(a: real, b: real, width: real)
    requires a * width <= b * width && width > 0.0
    ensures a <= b
  {
  }

  /** Rounding a command moves the output by at most half the slope. */
  lemma RoundedOnSegment(points: seq<CurvePoint>, k: nat, slope: real, x: real)
    requires Separated(points) && OutputsOrdered(points) && WholeCommands(points) && k + 1 < |points|
    requires points[k].command <= x <= points[k + 1].command && SlopeAtMost(points, slope)
    ensures Abs(Interpolate(points, RoundHalfAway(x) as real).value - Interpolate(points, x).value) <= slope / 2.0
  {
    var left, right := points[k], points[k + 1];
    var whole := RoundHalfAway(x) as real;
    RoundInside(x, left.command.Floor, right.command.Floor);
    RoundNear(x);
    assert left.command + EPSILON <= right.command;
    InterpolateOnSegment(points, k, x);
    InterpolateOnSegment(points, k, whole);
    assert RisesAtMost(left, right, slope);
    LerpRounded(left, right, slope, x, whole);
  }

  lemma HalfProduct(d: real, slope: real)
    requires Abs(d) <= 0.5 && slope >= 0.0
    ensures Abs(d * slope) <= slope / 2.0
  {
    assert -0.5 * slope <= d * slope <= 0.5 * slope;
  }

  /** For a candidate whose samples already rise, an unclamped target is missed by at most half the
      steepest measured slope, or by less than EPSILON inside a step narrower than that. */
  lemma CtErrorBound(candidate: CtCurve, target: real, slope: real)
    requires PreparedCtCurve(candidate) && OutputsOrdered(MeasuredCurve(candidate.points))
    requires SlopeAtMost(MeasuredCurve(candidate.points), slope)
    requires candidate.inversePoints != [] && !Interpolate(Swap(candidate.inversePoints), target).clamped
    ensures Abs(CtExpected(candidate, target) - target) <= slope / 2.0
      || (InTinyStep(MeasuredCurve(candidate.points), target) && Abs(CtExpected(candidate, target) - target) < EPSILON)
  {
    EnvelopeOfOrdered(MeasuredCurve(candidate.points));
    InversePrepared(candidate);
    CtErrorOnCurve(candidate.inversePoints, target, slope);
  }

  /** What the envelope itself gives at the rounded command. */
  lemma CtErrorOnCurve(points: seq<CurvePoint>, target: real, slope: real)
    requires PreparedCurve(points) && WholeCommands(points) && SlopeAtMost(points, slope)
    requires !Interpolate(Swap(points), target).clamped
    ensures var x := Interpolate(Swap(points), target).value;
      var missed := Abs(Interpolate(points, RoundHalfAway(x) as real).value - target);
      missed <= slope / 2.0 || (InTinyStep(points, target) && missed < EPSILON)
  {
    SwapPrepared(points);
    ClampedIffOutside(Swap(points), target);
    var x := Interpolate(Swap(points), target).value;
    if target == points[0].output || target == points[|points| - 1].output {
      CtErrorAtEnds(points, target, slope, x);
    } else {
      CtErrorInside(points, target, slope, x);
    }
  }

  /** What the flag is worth: for any candidate that is not flagged, an unclamped target is missed by at
      most half the steepest slope of the envelope, or by less than EPSILON inside a narrow step of it,
      and the tolerance on top. */
  lemma CtErrorBoundUnflagged(candidate: CtCurve, target: real, slope: real, tolerance: real)
    requires PreparedCtCurve(candidate) && candidate.inversePoints != []
    requires tolerance >= 0.0 && !Drops(MeasuredCurve(candidate.points), tolerance)
    requires SlopeAtMost(candidate.inversePoints, slope)
    requires !Interpolate(Swap(candidate.inversePoints), target).clamped
    ensures var missed := Abs(CtExpected(candidate, target) - target);
      || missed <= slope / 2.0 + tolerance
      || (InTinyStep(candidate.inversePoints, target) && missed < EPSILON + tolerance)
  {
    var envelope := candidate.inversePoints;
    InversePrepared(candidate);
    CtErrorOnCurve(envelope, target, slope);
    EnvelopeIsClose(candidate, tolerance, CtCommandFor(candidate, target) as real);
    var lifted := Interpolate(envelope, CtCommandFor(candidate, target) as real).value;
    Triangle(CtExpected(candidate, target), lifted, target, tolerance);
  }

  lemma EnvelopeIsClose(candidate: CtCurve, tolerance: real, command: real)
    requires PreparedCtCurve(candidate) && candidate.inversePoints != []
    requires tolerance >= 0.0 && !Drops(MeasuredCurve(candidate.points), tolerance)
    ensures Abs(Interpolate(MeasuredCurve(candidate.points), command).value
                - Interpolate(candidate.inversePoints, command).value) <= tolerance
  {
    var measured, envelope := MeasuredCurve(candidate.points), candidate.inversePoints;
    EnvelopeMovesLittle(measured, tolerance);
    EnvelopeMajorizes(measured);
    InterpolateClose(measured, envelope, tolerance, command);
  }

  lemma Triangle(x: real, y: real, z: real, tolerance: real)
    requires Abs(x - y) <= tolerance
    ensures Abs(x - z) <= Abs(y - z) + tolerance
  {
  }

  lemma CtErrorAtEnds(points: seq<CurvePoint>, target: real, slope: real, x: real)
    requires PreparedCurve(points) && WholeCommands(points) && SlopeAtMost(points, slope)
    requires target == points[0].output || target == points[|points| - 1].output
    requires x == Interpolate(Swap(points), target).value
    ensures Abs(Interpolate(points, RoundHalfAway(x) as real).value - target) <= slope / 2.0
  {
    InverseAtEnds(points, target);
    var k := if x == points[0].command then 0 else |points| - 2;
    assert points[k].command + EPSILON <= points[k + 1].command;
    RoundedOnSegment(points, k, slope, x);
  }

  /** An inner target: within half the slope, or closer than EPSILON in a step narrower than that. */
  lemma CtErrorInside(points: seq<CurvePoint>, target: real, slope: real, x: real)
    requires PreparedCurve(points) && WholeCommands(points) && SlopeAtMost(points, slope)
    requires points[0].output < target < points[|points| - 1].output
    requires x == Interpolate(Swap(points), target).value
    ensures var missed := Abs(Interpolate(points, RoundHalfAway(x) as real).value - target);
      missed <= slope / 2.0 || (InTinyStep(points, target) && missed < EPSILON)
  {
    InverseLaw(points, target);
    var k := InverseSegment(points, target);
    TinyStepIsUnique(points, target, k);
    assert points[k].command + EPSILON <= points[k + 1].command;
    SolveInverts(points[k], points[k + 1], target);
    if InTinyStep(points, target) {
      AtRightEnd(points, k);
    } else {
      RoundedOnSegment(points, k, slope, x);
    }
  }

  /** A whole command is its own rounding, and looks up its own sample. */
  lemma AtRightEnd(points: seq<CurvePoint>, k: nat)
    requires Separated(points) && WholeCommands(points) && k + 1 < |points|
    ensures Interpolate(points, RoundHalfAway(points[k + 1].command) as real).value == points[k + 1].output
  {
    var x := points[k + 1].command;
    assert points[k].command + EPSILON <= x;
    RoundInside(x, x.Floor, x.Floor);
    InterpolateOnSegment(points, k, x);
    LerpAtEnds(points[k], points[k + 1]);
  }

  /** Two values and their difference, each rounded. */
  ghost predicate DifferenceSound(x: real, y: real, scale: real, first: real, second: real, difference: real)
    requires scale > 0.0
  {
    first == RoundTo(x, scale) && second == RoundTo(y, scale) && difference == RoundTo(x - y, scale)
  }

  /** The columns of a row: the reference sample, what the candidate's own samples give at the reference
      command and at the row's own command, and the differences. */
  ghost predicate CtColumnsSound(sample: CtPoint, candidate: CtCurve, row: ColorTemperatureCorrectionPoint)
    requires candidate.points != []
  {
    var measured := MeasuredCurve(candidate.points);
    var command := row.candidateCommandKelvin as real;
    var uncorrected, expected := Interpolate(measured, sample.command).value, Interpolate(measured, command).value;
    var duv := Interpolate(DuvCurve(candidate.points), command).value;
    && Nearest(row.logicalKelvin, sample.command)
    && DifferenceSound(uncorrected, sample.measured, 10.0,
         row.uncorrectedCandidateMeasuredKelvin, row.referenceMeasuredKelvin, row.errorBeforeKelvin)
    && DifferenceSound(expected, sample.measured, 10.0,
         row.expectedCandidateMeasuredKelvin, row.referenceMeasuredKelvin, row.expectedErrorAfterKelvin)
    && DifferenceSound(duv, sample.duv, 100000.0, row.expectedCandidateDuv, row.referenceDuv, row.duvDelta)
  }

  /** The command of a row: inside the tested range, and the whole number nearest to one that corrects. */
  ghost predicate CtCommandSound(sample: CtPoint, candidate: CtCurve, row: ColorTemperatureCorrectionPoint)
    requires candidate.inversePoints != [] && candidate.points != []
  {
    var envelope, command := candidate.inversePoints, row.candidateCommandKelvin as real;
    && (row.clamped <==> sample.measured < envelope[0].output || sample.measured > envelope[|envelope| - 1].output)
    && candidate.points[0].command <= command <= candidate.points[|candidate.points| - 1].command
    && exists c :: Corrects(envelope, sample.measured, c) && Nearest(row.candidateCommandKelvin, c)
  }

  ghost predicate CtRowSound(sample: CtPoint, candidate: CtCurve, row: ColorTemperatureCorrectionPoint)
    requires candidate.inversePoints != [] && candidate.points != []
  {
    CtColumnsSound(sample, candidate, row) && CtCommandSound(sample, candidate, row)
  }

  lemma CtCommandIsSound(sample: CtPoint, candidate: CtCurve)
    requires PreparedCtCurve(candidate)
    ensures candidate.inversePoints != []
    ensures CtCommandSound(sample, candidate, CtRow(sample, candidate))
  {
    InversePrepared(candidate);
    CtCommandInTestedRange(candidate, sample.measured);
    LookupCorrects(candidate.inversePoints, sample.measured);
    var c := Interpolate(Swap(candidate.inversePoints), sample.measured).value;
    RoundsToNearest(c, RoundHalfAway(c));
  }

  lemma CtColumnsAreSound(sample: CtPoint, candidate: CtCurve)
    requires candidate.inversePoints != [] && candidate.points != []
    ensures CtColumnsSound(sample, candidate, CtRow(sample, candidate))
  {
    RoundsToNearest(sample.command, RoundHalfAway(sample.command));
  }

  /** The whole table: every row is sound, and for a candidate whose samples rise, an unclamped row's own
      command gives the target to within half the steepest slope, or closer than EPSILON in a narrow step. */
  lemma CtTable(reference: CtCurve, candidate: CtCurve, slope: real)
    requires PreparedCtCurve(candidate)
    ensures candidate.inversePoints != []
    ensures var rows, measured := CtCorrections(reference, candidate), MeasuredCurve(candidate.points);
      && |rows| == |reference.points|
      && (forall i {:trigger CtRowSound(reference.points[i], candidate, rows[i])} :: 0 <= i < |rows| ==>
            CtRowSound(reference.points[i], candidate, rows[i]))
      && (OutputsOrdered(measured) && SlopeAtMost(measured, slope) ==>
            forall i :: 0 <= i < |rows| && !rows[i].clamped ==>
            var target := reference.points[i].measured;
            var missed := Abs(Interpolate(measured, rows[i].candidateCommandKelvin as real).value - target);
            missed <= slope / 2.0 || (InTinyStep(measured, target) && missed < EPSILON))
  {
    InversePrepared(candidate);
    var rows, measured := CtCorrections(reference, candidate), MeasuredCurve(candidate.points);
    forall i | 0 <= i < |rows| ensures CtRowSound(reference.points[i], candidate, rows[i]) {
      CtCommandIsSound(reference.points[i], candidate);
      CtColumnsAreSound(reference.points[i], candidate);
    }
    if OutputsOrdered(measured) && SlopeAtMost(measured, slope) {
      forall i | 0 <= i < |rows| && !rows[i].clamped
        ensures var target := reference.points[i].measured;
          var missed := Abs(Interpolate(measured, rows[i].candidateCommandKelvin as real).value - target);
          missed <= slope / 2.0 || (InTinyStep(measured, target) && missed < EPSILON)
      {
        CtErrorBound(candidate, reference.points[i].measured, slope);
      }
    }
  }

  /** Color-temperature table for a reference whose samples already rise: commands never decrease,
      and the unclamped rows are contiguous. */
  lemma CtTableOrdered(reference: CtCurve, candidate: CtCurve)
    requires PreparedCtCurve(candidate) && OutputsOrdered(MeasuredCurve(reference.points))
    requires candidate.inversePoints != []
    ensures var rows := CtCorrections(reference, candidate);
      && (forall i, j :: 0 <= i <= j < |rows| ==> rows[i].candidateCommandKelvin <= rows[j].candidateCommandKelvin)
      && (forall i, j, k :: 0 <= i <= j <= k < |rows| && !rows[i].clamped && !rows[k].clamped ==> !rows[j].clamped)
  {
    var rows := CtCorrections(reference, candidate);
    var measured := MeasuredCurve(reference.points);
    InversePrepared(candidate);
    var inverse := Swap(candidate.inversePoints);
    SwapPrepared(candidate.inversePoints);
    forall i, j | 0 <= i <= j < |rows|
      ensures rows[i].candidateCommandKelvin <= rows[j].candidateCommandKelvin
    {
      assert measured[i].output <= measured[j].output;
      InterpolateMonotone(inverse, reference.points[i].measured, reference.points[j].measured);
      RoundMonotone(Interpolate(inverse, reference.points[i].measured).value,
                    Interpolate(inverse, reference.points[j].measured).value);
    }
    forall i, j, k | 0 <= i <= j <= k < |rows| && !rows[i].clamped && !rows[k].clamped
      ensures !rows[j].clamped
    {
      assert measured[i].output <= measured[j].output <= measured[k].output;
      ClampedIffOutside(inverse, reference.points[i].measured);
      ClampedIffOutside(inverse, reference.points[j].measured);
      ClampedIffOutside(inverse, reference.points[k].measured);
    }
  }

  /** The published error column keeps the bound of CtErrorBound up to display rounding. */
  lemma CtPublishedError(reference: CtCurve, candidate: CtCurve, slope: real, i: nat)
    requires PreparedCtCurve(candidate) && OutputsOrdered(MeasuredCurve(candidate.points))
    requires SlopeAtMost(MeasuredCurve(candidate.points), slope)
    requires candidate.inversePoints != [] && i < |reference.points|
    requires !CtCorrections(reference, candidate)[i].clamped
    ensures var published := Abs(CtCorrections(reference, candidate)[i].expectedErrorAfterKelvin);
      || published <= slope / 2.0 + 0.05
      || (InTinyStep(MeasuredCurve(candidate.points), reference.points[i].measured) && published < EPSILON + 0.05)
  {
    var target := reference.points[i].measured;
    CtErrorBound(candidate, target, slope);
    RoundToNear(CtExpected(candidate, target) - target, 10.0);
  }

  /** The published columns agree with each other up to their own rounding: the errors are the
      differences of the measured columns, and the tint delta that of the tint columns. */
  lemma CtColumnsConsistent(point: CtPoint, candidate: CtCurve)
    requires candidate.inversePoints != [] && candidate.points != []
    ensures var row := CtRow(point, candidate);
      && Abs(row.errorBeforeKelvin - (row.uncorrectedCandidateMeasuredKelvin - row.referenceMeasuredKelvin)) <= 0.15
      && Abs(row.expectedErrorAfterKelvin - (row.expectedCandidateMeasuredKelvin - row.referenceMeasuredKelvin)) <= 0.15
      && Abs(row.duvDelta - (row.expectedCandidateDuv - row.referenceDuv)) <= 0.000015
  {
    var expected := CtExpected(candidate, point.measured);
    var uncorrected := Interpolate(MeasuredCurve(candidate.points), point.command).value;
    var duv := Interpolate(DuvCurve(candidate.points), CtCommandFor(candidate, point.measured) as real).value;
    RoundedDifference(uncorrected, point.measured, 10.0, 0.05);
    RoundedDifference(expected, point.measured, 10.0, 0.05);
    RoundedDifference(duv, point.duv, 100000.0, 0.000005);
  }

  lemma RoundedDifference(x: real, y: real, scale: real, half: real)
    requires scale > 0.0 && half * scale == 0.5
    ensures Abs(RoundTo(x - y, scale) - (RoundTo(x, scale) - RoundTo(y, scale))) <= half + half + half
  {
    RoundToWithin(x - y, scale, half);
    RoundToWithin(x, scale, half);
    RoundToWithin(y, scale, half);
  }

  lemma RoundToWithin(x: real, scale: real, half: real)
    requires scale > 0.0 && half * scale == 0.5
    ensures -half <= RoundTo(x, scale) - x <= half
  {
    RoundToNear(x, scale);
    ProductCancels(Abs(RoundTo(x, scale) - x), half, scale);
  }

  /** Every binary64 number of at least 512 is a multiple of 2 to the power -43; dataset validation
      admits measured Kelvin between 1000 and 20000 only. */
  ghost predicate OnSampleGrid(points: seq<CtPoint>) {
    forall i :: 0 <= i < |points| ==> OnGrid(points[i].measured)
  }

  ghost predicate OnGrid(x: real) {
    x * 8796093022208.0 == (x * 8796093022208.0).Floor as real
  }

  /** On that grid no step is narrower than EPSILON, so the half-slope bound has no exception. */
  lemma CtErrorBoundOnGrid(candidate: CtCurve, target: real, slope: real)
    requires PreparedCtCurve(candidate) && OutputsOrdered(MeasuredCurve(candidate.points))
    requires SlopeAtMost(MeasuredCurve(candidate.points), slope) && OnSampleGrid(candidate.points)
    requires candidate.inversePoints != [] && !Interpolate(Swap(candidate.inversePoints), target).clamped
    ensures Abs(CtExpected(candidate, target) - target) <= slope / 2.0
  {
    CtErrorBound(candidate, target, slope);
    var points := MeasuredCurve(candidate.points);
    if InTinyStep(points, target) {
      var k :| 0 <= k < |points| - 1 && TinyStepAt(points, target, k);
      assert OnGrid(candidate.points[k].measured) && OnGrid(candidate.points[k + 1].measured);
      GridStep(candidate.points[k].measured, candidate.points[k + 1].measured);
    }
  }

  lemma GridStep(x: real, y: real)
    requires OnGrid(x) && OnGrid(y) && x < y
    ensures y - x >= EPSILON
  {
    var m, n := (x * 8796093022208.0).Floor, (y * 8796093022208.0).Floor;
    assert m < n;
    assert (y - x) * 8796093022208.0 >= 1.0;
  }
}
