/** The integer part of move_DoMove: from a signed step count and the results
    of the planner's floating-point steps (the fixed-point jerk, the number of
    acceleration samples, the length of the first segment and the length of
    the cruise segment), decide whether a seven-segment S-curve move can be
    made, and if so build its boundary table. */
module Planner {
  import opened FixedPoint

  /** Motor direction: CW is 0 and CCW is 1 in the source's enum. */
  datatype Direction = CW | CCW

  /** The lengths, in samples, of the seven segments of an S-curve move:
      jerk +J, 0, -J (acceleration), 0 (cruise), -J, 0, +J (deceleration). */
  datatype Segments = Segments(s1: int, s2: int, s3: int, s4: int, s5: int, s6: int, s7: int)

  /** The sample indices at which segments 1 to 7 end (segment k is the
      half-open range from the end of segment k-1 to seg<k>End). */
  datatype Boundaries = Boundaries(
    seg1End: int, seg2End: int, seg3End: int, seg4End: int,
    seg5End: int, seg6End: int, seg7End: int)

  /** What a successful plan hands over to the integrator. */
  datatype MovePlan = MovePlan(dir: Direction, jerk: int, bounds: Boundaries, runSamples: int)

  datatype PlanError =
    | MoveTooShort     // the six ramp segments alone already overshoot the target
    | NoPositiveCruise  // the ramps reach no forward cruise speed, so the cruise length is undefined or negative

  datatype PlanResult = Accepted(plan: MovePlan) | Rejected(error: PlanError)

  /** The motor driver's sample rate in samples per second. */
  const SAMPLE_RATE: int := 50000

  /** Line 326: the peak speed, the uint32 parameter v in steps per second,
      as fixed-point steps per sample. The shift by 40 fits int64 only below
      2^23 steps per second; above, it wraps modulo 2^64, and the truncating division then
      sees a dividend of either sign. The result feeds only the floating-point
      steps of lines 334-335, which the model takes as given, so nothing else
      in the model uses it. */
  function SpeedTarget(v: int): (r: int)
    requires 0 <= v < 0x1_0000_0000
    ensures v < 0x80_0000 ==> 0 <= r && r * SAMPLE_RATE <= v * SCALE < (r + 1) * SAMPLE_RATE
  {
    Quot(Wrap64(v * SCALE), SAMPLE_RATE)
  }

  /** `sp -n` leaves 2^32 - n in the uint32 parameter v (line 309); its shift by
      40 wraps to -n * 2^40, so the speed per sample comes out negative. */
  lemma SpeedTargetWraps(n: int)
    requires 0 < n <= 0x80_0000
    ensures SpeedTarget(0x1_0000_0000 - n) == Quot(-n * SCALE, SAMPLE_RATE) < 0
  {
    var x := (0x1_0000_0000 - n) * SCALE;
    assert x == 0xff * 0x1_0000_0000_0000_0000 + (0x1_0000_0000_0000_0000 - n * SCALE);
    assert x % 0x1_0000_0000_0000_0000 == 0x1_0000_0000_0000_0000 - n * SCALE;
  }

  /** sp -50000: the speed per sample is exactly one step backwards. */
  lemma SpeedTargetOfMinus50000()
    ensures SpeedTarget(4294917296) == -SCALE
  {
    SpeedTargetWraps(50000);
  }

  /** Lines 313-318: the direction is taken from the sign of the request. */
  function DirectionOf(x: int): Direction
  {
    if x < 0 then CCW else CW
  }

  /** Lines 313-318: the number of steps to make, whatever the direction. */
  function Magnitude(x: int): int
  {
    if x < 0 then -x else x
  }

  /** Direction and magnitude together lose nothing of the request. */
  lemma SignSplit(x: int)
    ensures x == if DirectionOf(x) == CCW then -Magnitude(x) else Magnitude(x)
    ensures DirectionOf(x) == CCW <==> x < 0
    ensures Magnitude(x) >= 0
  {
  }

  /** A request and its mirror image differ in direction only. */
  lemma MirrorSplit(x: int)
    requires x != 0
    ensures Magnitude(-x) == Magnitude(x)
    ensures DirectionOf(-x) != DirectionOf(x)
  {
  }

  /** Lines 342-347: the acceleration phase is split into ramp, constant and
      ramp segments, and deceleration mirrors it. */
  function SegmentLengths(totalAccelSamples: int, seg1Samples: int, seg4Samples: int): (s: Segments)
    ensures s.s1 == seg1Samples && s.s4 == seg4Samples
    ensures s.s3 == s.s1 && s.s5 == s.s1 && s.s7 == s.s1 && s.s6 == s.s2
    ensures s.s1 + s.s2 + s.s3 == totalAccelSamples
  {
    var seg3 := seg1Samples;
    var seg2 := totalAccelSamples - seg1Samples - seg3;
    Segments(seg1Samples, seg2, seg3, seg4Samples, seg3, seg2, seg1Samples)
  }

  /** Lines 393-402: the boundaries are the running sums of the lengths, so the
      length of every segment is recovered as a difference of boundaries. */
  function Cumulative(s: Segments): (b: Boundaries)
    ensures b.seg1End == s.s1
    ensures b.seg2End - b.seg1End == s.s2 && b.seg3End - b.seg2End == s.s3
    ensures b.seg4End - b.seg3End == s.s4 && b.seg5End - b.seg4End == s.s5
    ensures b.seg6End - b.seg5End == s.s6 && b.seg7End - b.seg6End == s.s7
  {
    Boundaries(
      s.s1,
      s.s1 + s.s2,
      s.s1 + s.s2 + s.s3,
      s.s1 + s.s2 + s.s3 + s.s4,
      s.s1 + s.s2 + s.s3 + s.s4 + s.s5,
      s.s1 + s.s2 + s.s3 + s.s4 + s.s5 + s.s6,
      s.s1 + s.s2 + s.s3 + s.s4 + s.s5 + s.s6 + s.s7)
  }

  predicate NonNegative(s: Segments)
  {
    s.s1 >= 0 && s.s2 >= 0 && s.s3 >= 0 && s.s4 >= 0 && s.s5 >= 0 && s.s6 >= 0 && s.s7 >= 0
  }

  /** The boundary table starts at or after sample 0 and never goes back. */
  predicate Monotone(b: Boundaries)
  {
    0 <= b.seg1End <= b.seg2End <= b.seg3End <= b.seg4End <= b.seg5End <= b.seg6End <= b.seg7End
  }

  /** Running sums of non-negative lengths are non-decreasing, and a negative
      length shows up as a boundary that goes back. */
  lemma MonotoneIffNonNegative(s: Segments)
    ensures Monotone(Cumulative(s)) <==> NonNegative(s)
  {
  }

  /** The split of the acceleration time is symmetric, so the deceleration
      boundaries mirror the acceleration ones. */
  lemma SymmetricBoundaries(totalAccelSamples: int, seg1Samples: int, seg4Samples: int)
    ensures var b := Cumulative(SegmentLengths(totalAccelSamples, seg1Samples, seg4Samples));
      && b.seg3End == totalAccelSamples
      && b.seg7End - b.seg6End == b.seg1End
      && b.seg6End - b.seg5End == b.seg2End - b.seg1End
      && b.seg5End - b.seg4End == b.seg3End - b.seg2End
      && b.seg7End - b.seg4End == totalAccelSamples
      && b.seg7End == 2 * totalAccelSamples + seg4Samples
  {
  }

  /** The state at the end of segment 3 (the start of the cruise) and the state
      reached by running segments 1-3 and then 5-7 back to back, which is how
      lines 353-366 measure the distance the ramps consume. */
  datatype ProfileEnds = ProfileEnds(cruise: Kinematics, tail: Kinematics)

  /** Every move_pvajt call of lines 353-366 stays within int64. */
  predicate ProfileFits(j: int, s1: int, s2: int)
  {
    && PvajtFits(Rest, j, s1)
    && var k1 := Pvajt(Rest, j, s1);
    && PvajtFits(k1, 0, s2)
    && var k2 := Pvajt(k1, 0, s2);
    && PvajtFits(k2, -j, s1)
    && var k3 := Pvajt(k2, -j, s1);
    && PvajtFits(k3, -j, s1)
    && var k5 := Pvajt(k3, -j, s1);
    && PvajtFits(k5, 0, s2)
    && var k6 := Pvajt(k5, 0, s2);
    && PvajtFits(k6, j, s1)
  }

  /** Lines 353-366. */
  function Profile(j: int, s1: int, s2: int): (e: ProfileEnds)
    requires ProfileFits(j, s1, s2)
  {
    var k1 := Pvajt(Rest, j, s1);
    var k2 := Pvajt(k1, 0, s2);
    var k3 := Pvajt(k2, -j, s1);
    var k5 := Pvajt(k3, -j, s1);
    var k6 := Pvajt(k5, 0, s2);
    var k7 := Pvajt(k6, j, s1);
    ProfileEnds(k3, k7)
  }

  /** The ramps of the profile are exact in velocity and acceleration despite
      the truncating divisions: acceleration returns to zero at the cruise and
      at the end, the cruise speed is J*s1*(s1+s2), and the deceleration brings
      the speed back to exactly zero. This rests on C++ division truncating
      toward zero: the -J segments drop exactly what the +J segments dropped. */
  lemma ProfileRestToRest(j: int, s1: int, s2: int)
    requires ProfileFits(j, s1, s2)
    ensures Profile(j, s1, s2).cruise.a == 0
    ensures Profile(j, s1, s2).cruise.v == j * s1 * (s1 + s2)
    ensures Profile(j, s1, s2).tail.a == 0 && Profile(j, s1, s2).tail.v == 0
  {
    var k3 := Pvajt(Pvajt(Pvajt(Rest, j, s1), 0, s2), -j, s1);
    RampUp(j, s1, s2);
    RampDown(k3, j, s1, s2);
    assert Profile(j, s1, s2) == ProfileEnds(k3, Pvajt(Pvajt(Pvajt(k3, -j, s1), 0, s2), j, s1));
  }

  /** Lines 353-359: from rest, ramp, coast and ramp back reach the cruise
      speed with no acceleration. */
  lemma RampUp(j: int, s1: int, s2: int)
    requires PvajtFits(Rest, j, s1)
    requires PvajtFits(Pvajt(Rest, j, s1), 0, s2)
    requires PvajtFits(Pvajt(Pvajt(Rest, j, s1), 0, s2), -j, s1)
    ensures var k3 := Pvajt(Pvajt(Pvajt(Rest, j, s1), 0, s2), -j, s1);
      k3.a == 0 && k3.v == j * s1 * (s1 + s2)
  {
    var js1 := j * s1;
    var k1 := Pvajt(Rest, j, s1);
    RampFromRest(j, s1);
    var k2 := Pvajt(k1, 0, s2);
    Coast(k1, s2);
    var k3 := Pvajt(k2, -j, s1);
    Ramp(k2, -j, s1, j);
    assert k3.v == js1 * s2 + js1 * s1 && k3.a == 0;
    assert js1 * s2 + js1 * s1 == j * s1 * (s1 + s2);
  }

  /** Lines 364-366: with no acceleration, the mirrored ramps take exactly
      j*s1*(s1+s2) off the speed and end with no acceleration. */
  lemma RampDown(k3: Kinematics, j: int, s1: int, s2: int)
    requires k3.a == 0
    requires PvajtFits(k3, -j, s1)
    requires PvajtFits(Pvajt(k3, -j, s1), 0, s2)
    requires PvajtFits(Pvajt(Pvajt(k3, -j, s1), 0, s2), j, s1)
    ensures var k7 := Pvajt(Pvajt(Pvajt(k3, -j, s1), 0, s2), j, s1);
      k7.a == 0 && k7.v == k3.v - j * s1 * (s1 + s2)
  {
    var js1 := j * s1;
    var k5 := Pvajt(k3, -j, s1);
    Ramp(k3, -j, s1, j);
    var k6 := Pvajt(k5, 0, s2);
    Coast(k5, s2);
    NegMul(js1, s2);
    var k7 := Pvajt(k6, j, s1);
    Ramp(k6, j, s1, j);
    NegMul(js1, s1);
    assert k7.v == k3.v - (js1 * s2 + js1 * s1);
    assert js1 * s2 + js1 * s1 == j * s1 * (s1 + s2);
  }

  lemma RampFromRest(j: int, t: int)
    requires PvajtFits(Rest, j, t)
    ensures Pvajt(Rest, j, t).v == Quot(j * t * t, 2) && Pvajt(Rest, j, t).a == j * t
  {
  }

  lemma Coast(s: Kinematics, t: int)
    requires PvajtFits(s, 0, t)
    ensures Pvajt(s, 0, t).v == s.v + s.a * t && Pvajt(s, 0, t).a == s.a
  {
  }

  /** A ramp of jerk j or -j over t samples, with the truncated jerk term
      written in terms of the +|j| one. */
  lemma Ramp(s: Kinematics, j: int, t: int, m: int)
    requires PvajtFits(s, j, t) && (j == m || j == -m)
    ensures Pvajt(s, j, t).v == s.v + s.a * t + (if j == m then Quot(m * t * t, 2) else -Quot(m * t * t, 2))
    ensures Pvajt(s, j, t).a == s.a + (if j == m then m * t else -(m * t))
  {
    NegMul(m, t);
    NegMul(m * t, t);
    QuotNegate(m * t * t, 2);
  }

  /** Every boundary and runSamples is representable as int32. */
  predicate BoundariesFit(s: Segments)
  {
    var b := Cumulative(s);
    && IsInt32(b.seg1End) && IsInt32(b.seg2End) && IsInt32(b.seg3End) && IsInt32(b.seg4End)
    && IsInt32(b.seg5End) && IsInt32(b.seg6End) && IsInt32(b.seg7End) && IsInt32(b.seg7End + 1)
  }

  /** The request and the floating-point results are in range, and every
      integer operation of move_DoMove stays within its C++ type: negating x
      (line 317), shifting it by 40 (line 327), the move_pvajt calls, the
      subtraction of line 370 and the int32 sums of lines 393-403. */
  predicate PlanFits(x: int, j: int, totalAccelSamples: int, seg1Samples: int, seg4Samples: int)
  {
    && -0x80_0000 < x < 0x80_0000
    && IsInt64(j) && IsInt32(totalAccelSamples) && IsInt32(seg1Samples) && IsInt32(seg4Samples)
    && IsInt32(totalAccelSamples - seg1Samples)
    && IsInt32(totalAccelSamples - seg1Samples - seg1Samples)
    && ProfileFits(j, seg1Samples, totalAccelSamples - seg1Samples - seg1Samples)
    && IsInt64(Magnitude(x) * SCALE - Profile(j, seg1Samples, totalAccelSamples - seg1Samples - seg1Samples).tail.p)
    && BoundariesFit(SegmentLengths(totalAccelSamples, seg1Samples, seg4Samples))
  }

  /** Line 370: what is left for the cruise segment, in fixed-point steps. */
  function Seg4Move(x: int, j: int, totalAccelSamples: int, seg1Samples: int, seg4Samples: int): int
    requires PlanFits(x, j, totalAccelSamples, seg1Samples, seg4Samples)
  {
    Magnitude(x) * SCALE - Profile(j, seg1Samples, totalAccelSamples - seg1Samples - seg1Samples).tail.p
  }

  /** Line 371 divides by this: the speed reached at the end of segment 3. */
  function CruiseSpeed(j: int, totalAccelSamples: int, seg1Samples: int): int
    requires ProfileFits(j, seg1Samples, totalAccelSamples - seg1Samples - seg1Samples)
  {
    Profile(j, seg1Samples, totalAccelSamples - seg1Samples - seg1Samples).cruise.v
  }

  /** The plan of an accepted move (lines 393-403 and 413-417). */
  function Commitment(x: int, j: int, s: Segments): (p: MovePlan)
    ensures p.bounds == Cumulative(s) && p.runSamples == p.bounds.seg7End + 1
  {
    var b := Cumulative(s);
    MovePlan(DirectionOf(x), j, b, b.seg7End + 1)
  }

  /** move_DoMove as written: the only check is the one of line 375. */
  function PlanAsWritten(x: int, j: int, totalAccelSamples: int, seg1Samples: int, seg4Samples: int): (r: PlanResult)
    requires PlanFits(x, j, totalAccelSamples, seg1Samples, seg4Samples)
    ensures r.Rejected? <==> Seg4Move(x, j, totalAccelSamples, seg1Samples, seg4Samples) < 0
    ensures r.Rejected? ==> r.error == MoveTooShort
  {
    var s := SegmentLengths(totalAccelSamples, seg1Samples, seg4Samples);
    var seg4Move := Magnitude(x) * SCALE - Profile(j, seg1Samples, totalAccelSamples - seg1Samples - seg1Samples).tail.p;
    if seg4Move < 0 then Rejected(MoveTooShort)
    else Accepted(Commitment(x, j, s))
  }

  /** move_DoMove's decision, with the cruise speed that line 371 divides by
      also checked: a move is accepted exactly when the ramps leave a
      non-negative distance for the cruise and reach a positive cruise speed. */
  function PlanMove(x: int, j: int, totalAccelSamples: int, seg1Samples: int, seg4Samples: int): (r: PlanResult)
    requires PlanFits(x, j, totalAccelSamples, seg1Samples, seg4Samples)
    ensures r == Rejected(MoveTooShort) <==> Seg4Move(x, j, totalAccelSamples, seg1Samples, seg4Samples) < 0
    ensures r == Rejected(NoPositiveCruise) <==>
      Seg4Move(x, j, totalAccelSamples, seg1Samples, seg4Samples) >= 0 && CruiseSpeed(j, totalAccelSamples, seg1Samples) <= 0
    ensures r.Accepted? ==> r.plan.dir == DirectionOf(x) && r.plan.jerk == j
    ensures r.Accepted? ==> r.plan.runSamples == r.plan.bounds.seg7End + 1
    ensures r.Accepted? ==> r.plan.bounds == Cumulative(SegmentLengths(totalAccelSamples, seg1Samples, seg4Samples))
  {
    var s := SegmentLengths(totalAccelSamples, seg1Samples, seg4Samples);
    var ends := Profile(j, seg1Samples, totalAccelSamples - seg1Samples - seg1Samples);
    var seg4Move := Magnitude(x) * SCALE - ends.tail.p;
    if seg4Move < 0 then Rejected(MoveTooShort)
    else if ends.cruise.v <= 0 then Rejected(NoPositiveCruise)
    else Accepted(Commitment(x, j, s))
  }

  /** The three outcomes of PlanMove, in terms of the values move_DoMove
      computes on the way. */
  lemma PlanMoveOutcome(x: int, j: int, totalAccelSamples: int, seg1Samples: int, seg4Samples: int)
    requires PlanFits(x, j, totalAccelSamples, seg1Samples, seg4Samples)
    ensures var ends := Profile(j, seg1Samples, totalAccelSamples - seg1Samples - seg1Samples);
      var seg4Move := Magnitude(x) * SCALE - ends.tail.p;
      PlanMove(x, j, totalAccelSamples, seg1Samples, seg4Samples) ==
        if seg4Move < 0 then Rejected(MoveTooShort)
        else if ends.cruise.v <= 0 then Rejected(NoPositiveCruise)
        else Accepted(MovePlan(DirectionOf(x), j, Cumulative(SegmentLengths(totalAccelSamples, seg1Samples, seg4Samples)),
          Cumulative(SegmentLengths(totalAccelSamples, seg1Samples, seg4Samples)).seg7End + 1))
  {
  }

  /** The correction changes only the moves whose cruise speed is not positive. */
  lemma PlanMoveRefinesAsWritten(x: int, j: int, totalAccelSamples: int, seg1Samples: int, seg4Samples: int)
    requires PlanFits(x, j, totalAccelSamples, seg1Samples, seg4Samples)
    ensures CruiseSpeed(j, totalAccelSamples, seg1Samples) > 0 ==>
      PlanMove(x, j, totalAccelSamples, seg1Samples, seg4Samples) == PlanAsWritten(x, j, totalAccelSamples, seg1Samples, seg4Samples)
    ensures PlanMove(x, j, totalAccelSamples, seg1Samples, seg4Samples).Accepted? ==>
      PlanMove(x, j, totalAccelSamples, seg1Samples, seg4Samples) == PlanAsWritten(x, j, totalAccelSamples, seg1Samples, seg4Samples)
  {
  }

  /** The magnitude alone feeds the arithmetic: x and -x are accepted or
      rejected together, with the same boundaries, and differ in direction. */
  lemma PlanMirror(x: int, j: int, totalAccelSamples: int, seg1Samples: int, seg4Samples: int)
    requires PlanFits(x, j, totalAccelSamples, seg1Samples, seg4Samples)
    ensures PlanFits(-x, j, totalAccelSamples, seg1Samples, seg4Samples)
    ensures var r, m := PlanMove(x, j, totalAccelSamples, seg1Samples, seg4Samples),
                        PlanMove(-x, j, totalAccelSamples, seg1Samples, seg4Samples);
      && r.Accepted? == m.Accepted?
      && (r.Rejected? ==> r == m)
      && (r.Accepted? ==> r.plan.bounds == m.plan.bounds && r.plan.runSamples == m.plan.runSamples
                          && r.plan.jerk == m.plan.jerk)
      && (r.Accepted? && x != 0 ==> r.plan.dir != m.plan.dir)
  {
    assert Magnitude(-x) == Magnitude(x);
  }

  /** A hypothesis on the floating-point steps of lines 325, 334-335, 342
      and 371: with non-negative jerk and speed set points, and whenever those
      steps are defined, they yield a non-negative jerk and a first segment
      that is at most half the (non-negative) acceleration time, and the
      cruise length is not negative when line 375 accepts. Negative set points
      break it (AsWrittenAcceptsNegativeCruise). */
  predicate FloatResultsSane(j: int, totalAccelSamples: int, seg1Samples: int, seg4Samples: int)
  {
    j >= 0 && 0 <= seg1Samples && 2 * seg1Samples <= totalAccelSamples && seg4Samples >= 0
  }

  /** An accepted move has a non-decreasing table that starts with a
      non-empty jerk ramp, deceleration segments mirroring the acceleration
      ones, and runs for at least one sample. */
  lemma AcceptedPlanShape(x: int, j: int, totalAccelSamples: int, seg1Samples: int, seg4Samples: int)
    requires PlanFits(x, j, totalAccelSamples, seg1Samples, seg4Samples)
    requires FloatResultsSane(j, totalAccelSamples, seg1Samples, seg4Samples)
    requires PlanMove(x, j, totalAccelSamples, seg1Samples, seg4Samples).Accepted?
    ensures var p := PlanMove(x, j, totalAccelSamples, seg1Samples, seg4Samples).plan;
      && Monotone(p.bounds) && 0 < p.bounds.seg1End
      && p.bounds.seg7End - p.bounds.seg6End == p.bounds.seg1End
      && p.bounds.seg6End - p.bounds.seg5End == p.bounds.seg2End - p.bounds.seg1End
      && p.runSamples >= 1 && p.jerk > 0
  {
    var s2 := totalAccelSamples - seg1Samples - seg1Samples;
    ProfileRestToRest(j, seg1Samples, s2);
    PositiveProduct(j, seg1Samples, seg1Samples + s2);
    MonotoneIffNonNegative(SegmentLengths(totalAccelSamples, seg1Samples, seg4Samples));
  }

  lemma PositiveProduct(a: int, b: int, c: int)
    requires a >= 0 && b >= 0 && c >= 0 && a * b * c > 0
    ensures a > 0 && b > 0
  {
  }

  /** With an empty first segment every move_pvajt call of the planner starts
      and ends at rest, so the profile fits whenever the jerk does. */
  lemma NoRampFits(j: int, totalAccelSamples: int)
    requires IsInt64(j) && IsInt64(-j) && IsInt64(totalAccelSamples)
    ensures ProfileFits(j, 0, totalAccelSamples)
    ensures Profile(j, 0, totalAccelSamples) == ProfileEnds(Rest, Rest)
  {
    assert PvajtFits(Rest, j, 0);
    assert Pvajt(Rest, j, 0) == Rest;
    assert PvajtFits(Rest, 0, totalAccelSamples);
    assert Pvajt(Rest, 0, totalAccelSamples) == Rest;
    assert PvajtFits(Rest, -j, 0);
    assert Pvajt(Rest, -j, 0) == Rest;
  }

  /** When the acceleration time is shorter than three samples the first
      segment is empty (floor(total/3) = 0); then the ramps produce no motion
      at all, and line 375 accepts every request while the cruise speed that
      line 371 divides by is zero. */
  lemma AsWrittenAcceptsZeroCruise(x: int, j: int, totalAccelSamples: int, seg4Samples: int)
    requires PlanFits(x, j, totalAccelSamples, 0, seg4Samples)
    ensures CruiseSpeed(j, totalAccelSamples, 0) == 0
    ensures PlanAsWritten(x, j, totalAccelSamples, 0, seg4Samples).Accepted?
  {
    NoRampFits(j, totalAccelSamples);
  }

  /** With negative jerk and speed set points (jk -640000, sp -50000,
      mv 100000) the floating-point steps are all defined, but only because
      the integer shifts of lines 325-326 behave as two's complement, which C++
      guarantees from C++20 on and leaves undefined before: line 325 shifts the
      negative j left (-640000 * 2^40 fits int64), and at line 326 the uint32
      parameter v (line 309) holds the int32 set point as 2^32 - 50000, whose shift by 40 does not fit int64
      and wraps to -50000 * 2^40, so the speed per sample is -2^40
      (SpeedTargetOfMinus50000). Every move with a negative cruise speed goes
      through that wrap: it needs J < 0, so the square root of lines 334-335
      needs a negative speed target, which the uint32 v reaches only by
      wrapping. Then J = -5629, totalAccelSamples = 29647, seg1Samples = 9882,
      and line 371 gives seg4Samples = ceil(seg4Move / v3) = -129653. The
      cruise speed is negative, seg4Move is positive, so line 375 accepts, and
      the committed move has a negative runSamples: the interrupt runs one
      sample and stops. */
  lemma AsWrittenAcceptsNegativeCruise()
    ensures PlanFits(100000, -5629, 29647, 9882, -129653)
    ensures CruiseSpeed(-5629, 29647, 9882) == -1099443502170
    ensures Seg4Move(100000, -5629, 29647, 9882, -129653) == 142546364286433990
    ensures var r := PlanAsWritten(100000, -5629, 29647, 9882, -129653);
      r.Accepted? && r.plan.runSamples == -70358
  {
    NegativeCruiseFits();
    NegativeCruiseEnds();
    NegativeCruiseAccepted();
  }

  /** The corrected decision refuses that move. */
  lemma NegativeCruiseRejected()
    ensures PlanFits(100000, -5629, 29647, 9882, -129653)
    ensures PlanMove(100000, -5629, 29647, 9882, -129653) == Rejected(NoPositiveCruise)
  {
    NegativeCruiseFits();
    NegativeCruiseEnds();
  }

  /** Line 375 lets that move through, and its run ends before it starts. */
  lemma NegativeCruiseAccepted()
    ensures PlanFits(100000, -5629, 29647, 9882, -129653)
    ensures var r := PlanAsWritten(100000, -5629, 29647, 9882, -129653);
      r.Accepted? && r.plan.runSamples == -70358
  {
    NegativeCruiseFits();
    NegativeCruiseEnds();
    NegativeCruiseBoundaries();
    var s := SegmentLengths(29647, 9882, -129653);
    assert PlanAsWritten(100000, -5629, 29647, 9882, -129653) == Accepted(Commitment(100000, -5629, s));
  }

  /** The request above satisfies every range condition of move_DoMove. */
  lemma NegativeCruiseFits()
    ensures PlanFits(100000, -5629, 29647, 9882, -129653)
  {
    NegativeCruiseEnds();
    NegativeCruiseBoundaries();
  }

  /** The ends of the ramps of that move, and the distance requested. */
  lemma NegativeCruiseEnds()
    ensures ProfileFits(-5629, 9882, 29647 - 9882 - 9882)
    ensures Profile(-5629, 9882, 29647 - 9882 - 9882).cruise.v == -1099443502170
    ensures Profile(-5629, 9882, 29647 - 9882 - 9882).tail.p == -32595201508833990
    ensures Magnitude(100000) * SCALE == 109951162777600000
  {
    NegativeCruiseProfile();
  }

  /** The boundaries of that move: the cruise segment runs backwards. */
  lemma NegativeCruiseBoundaries()
    ensures BoundariesFit(SegmentLengths(29647, 9882, -129653))
    ensures Cumulative(SegmentLengths(29647, 9882, -129653))
      == Boundaries(9882, 19765, 29647, -100006, -90124, -80241, -70359)
  {
  }

  /** The six move_pvajt calls of lines 353-366 for the move above. */
  lemma NegativeCruiseProfile()
    ensures ProfileFits(-5629, 9882, 9883)
    ensures Profile(-5629, 9882, 9883) == ProfileEnds(
      Kinematics(-16297600754416995, -1099443502170, 0),
      Kinematics(-32595201508833990, 0, 0))
  {
    NegativeCruiseStep1();
    NegativeCruiseStep2();
    NegativeCruiseStep3();
    NegativeCruiseStep4();
    NegativeCruiseStep5();
    NegativeCruiseStep6();
  }

  /** Call 1 of that profile. */
  lemma NegativeCruiseStep1()
    ensures PvajtFits(Rest, -5629, 9882)
    ensures Pvajt(Rest, -5629, 9882) == Kinematics(-905345916208812, -274846969098, -55625778)
  {
  }

  /** Call 2 of that profile. */
  lemma NegativeCruiseStep2()
    ensures PvajtFits(Kinematics(-905345916208812, -274846969098, -55625778), 0, 9883)
    ensures Pvajt(Kinematics(-905345916208812, -274846969098, -55625778), 0, 9883) == Kinematics(-6338245982181867, -824596533072, -55625778)
  {
  }

  /** Call 3 of that profile. */
  lemma NegativeCruiseStep3()
    ensures PvajtFits(Kinematics(-6338245982181867, -824596533072, -55625778), 5629, 9882)
    ensures Pvajt(Kinematics(-6338245982181867, -824596533072, -55625778), 5629, 9882) == Kinematics(-16297600754416995, -1099443502170, 0)
  {
  }

  /** Call 4 of that profile. */
  lemma NegativeCruiseStep4()
    ensures PvajtFits(Kinematics(-16297600754416995, -1099443502170, 0), 5629, 9882)
    ensures Pvajt(Kinematics(-16297600754416995, -1099443502170, 0), 5629, 9882) == Kinematics(-26256955526652123, -824596533072, 55625778)
  {
  }

  /** Call 5 of that profile. */
  lemma NegativeCruiseStep5()
    ensures PvajtFits(Kinematics(-26256955526652123, -824596533072, 55625778), 0, 9883)
    ensures Pvajt(Kinematics(-26256955526652123, -824596533072, 55625778), 0, 9883) == Kinematics(-31689855592625178, -274846969098, 55625778)
  {
  }

  /** Call 6 of that profile. */
  lemma NegativeCruiseStep6()
    ensures PvajtFits(Kinematics(-31689855592625178, -274846969098, 55625778), -5629, 9882)
    ensures Pvajt(Kinematics(-31689855592625178, -274846969098, 55625778), -5629, 9882) == Kinematics(-32595201508833990, 0, 0)
  {
  }
}
