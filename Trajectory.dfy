/** What the integrator does over a whole move. The interrupt's arithmetic
    is followed sample by sample on exact values (Sample, Run); over a stretch
    of constant jerk that is a polynomial in the number of samples (Steps);
    and over the seven segments of a plan with the planner's symmetric
    lengths the run starts and ends at rest, cruises at the speed the
    planner computed for the end of segment 3, and covers exactly that speed
    times totalAccelSamples + seg4Samples samples, which the interrupt turns
    into whole steps without losing or inventing one. */
module Trajectory {
  import opened FixedPoint
  import opened Planner
  import opened Integrator

  /** One sample of lines 470-477: jerk into acceleration, acceleration into
      speed, speed into position, all on whole fixed-point values. */
  function Sample(k: Kinematics, j: int): Kinematics
  {
    var a := k.a + j;
    var v := k.v + a;
    Kinematics(k.p + v, v, a)
  }

  /** n samples starting at sample index s, each with the jerk the table
      gives its index (lines 451-467). */
  function Run(k: Kinematics, b: Boundaries, j: int, s: int, n: nat): Kinematics
  {
    if n == 0 then k else Sample(Run(k, b, j, s, n - 1), SegmentJerk(s + n - 1, b, j))
  }

  /** n samples of one constant jerk. */
  function Steps(k: Kinematics, j: int, n: nat): Kinematics
  {
    if n == 0 then k else Sample(Steps(k, j, n - 1), j)
  }

  /** The engine's motion registers as exact values: whole steps and the
      fraction together make the position. */
  function Kin(e: EngineState): Kinematics
  {
    Kinematics(e.position * SCALE + e.fracPos, e.speed, e.accel)
  }

  /** Over constant jerk the sampled motion is a polynomial in the number of
      samples: acceleration grows by j per sample and twice the speed by
      2a + j(n+1) per sample. */
  lemma {:induction false} StepsClosedForm(k: Kinematics, j: int, n: nat)
    ensures Steps(k, j, n).a == k.a + n * j
    ensures 2 * Steps(k, j, n).v == 2 * k.v + 2 * (n * k.a) + j * n * (n + 1)
  {
    if n > 0 {
      StepsClosedForm(k, j, n - 1);
      var m := n - 1;
      assert m * j + j == n * j;
      assert j * m * (m + 1) + 2 * (n * j) == j * n * (n + 1) by {
        assert j * m * (m + 1) == j * m * n;
        assert j * m * n + 2 * (n * j) == j * n * (m + 2);
      }
      assert 2 * (m * k.a) + 2 * k.a == 2 * (n * k.a);
    }
  }

  /** A run splits at any sample into the run up to it and the run after. */
  lemma {:induction false} RunSplit(k: Kinematics, b: Boundaries, j: int, s: int, m: nat, n: nat)
    ensures Run(k, b, j, s, m + n) == Run(Run(k, b, j, s, m), b, j, s + m, n)
  {
    if n > 0 {
      RunSplit(k, b, j, s, m, n - 1);
    }
  }

  /** Where the table gives one jerk c, a run is a constant-jerk stretch. */
  lemma {:induction false} RunConstant(k: Kinematics, b: Boundaries, j: int, s: int, n: nat, c: int)
    requires forall i :: s <= i < s + n ==> SegmentJerk(i, b, j) == c
    ensures Run(k, b, j, s, n) == Steps(k, c, n)
  {
    if n > 0 {
      RunConstant(k, b, j, s, n - 1, c);
    }
  }

  /** The motion after n samples of a move, starting from rest at sample 0. */
  function From0(b: Boundaries, j: int, n: nat): Kinematics
  {
    Run(Rest, b, j, 0, n)
  }

  /** Inside a stretch where the table gives jerk c, the motion is the
      constant-jerk polynomial from the stretch's start. */
  lemma InStretch(b: Boundaries, j: int, lo: nat, hi: int, c: int, n: nat)
    requires lo <= n <= hi
    requires forall i :: lo <= i < hi ==> SegmentJerk(i, b, j) == c
    ensures From0(b, j, n) == Steps(From0(b, j, lo), c, n - lo)
  {
    RunSplit(Rest, b, j, 0, lo, n - lo);
    RunConstant(From0(b, j, lo), b, j, lo, n - lo, c);
  }

  /** The two interrupts of one sample, in step with one exact Sample of the
      jerk the table gives that sample. */
  lemma SampleTicks(e: EngineState, r: Kinematics)
    requires e.busy && e.phase == 0 && 0 <= e.fracPos < SCALE
    requires e.accel == r.a && e.speed == r.v
    ensures var f, s := Tick(Tick(e)), Sample(r, SegmentJerk(e.sample, e.bounds, e.jerkConst));
      && f.accel == s.a && f.speed == s.v
      && (Kin(e) == r && 0 <= s.v <= SCALE ==> Kin(f) == s)
  {
    TickIntegrate(e);
    TickClear(Tick(e));
    if Kin(e) == r && 0 <= Tick(e).speed <= SCALE {
      TickLossless(e);
    }
  }

  /** The interrupts follow the exact run: after 2k interrupts of a started
      move the acceleration and speed are those of k samples; and while the
      speed stays between zero and one step per sample, whole steps plus
      fraction are the exact position too. */
  lemma {:induction false} TicksFollowRun(c: EngineState, k: nat)
    requires Started(c) && k <= c.runSamples && 0 <= c.fracPos < SCALE
    ensures var e := Ticks(c, 2 * k);
      var r := Run(Kin(c), c.bounds, c.jerkConst, 0, k);
      e.accel == r.a && e.speed == r.v
    ensures (forall i :: 1 <= i <= k ==> 0 <= Run(Kin(c), c.bounds, c.jerkConst, 0, i).v <= SCALE) ==>
      Kin(Ticks(c, 2 * k)) == Run(Kin(c), c.bounds, c.jerkConst, 0, k)
  {
    if k > 0 {
      TicksFollowRun(c, k - 1);
      MoveTiming(c, k - 1);
      FracPosStaysInRange(c, 2 * (k - 1));
      var e := Ticks(c, 2 * (k - 1));
      var r := Run(Kin(c), c.bounds, c.jerkConst, 0, k - 1);
      assert Ticks(c, 2 * k) == Tick(Tick(e));
      assert Run(Kin(c), c.bounds, c.jerkConst, 0, k) == Sample(r, SegmentJerk(e.sample, e.bounds, e.jerkConst));
      SampleTicks(e, r);
    }
  }

  /** The boundary table of a plan with the planner's segment lengths. */
  function PlanTable(totalAccelSamples: int, seg1Samples: int, seg4Samples: int): Boundaries
  {
    Cumulative(SegmentLengths(totalAccelSamples, seg1Samples, seg4Samples))
  }

  /** Every segment of the plan has a length of zero or more. */
  predicate Proper(totalAccelSamples: int, seg1Samples: int, seg4Samples: int)
  {
    0 <= seg1Samples && 2 * seg1Samples <= totalAccelSamples && 0 <= seg4Samples
  }

  lemma ProperTable(totalAccelSamples: int, seg1Samples: int, seg4Samples: int)
    requires Proper(totalAccelSamples, seg1Samples, seg4Samples)
    ensures Monotone(PlanTable(totalAccelSamples, seg1Samples, seg4Samples))
  {
    MonotoneIffNonNegative(SegmentLengths(totalAccelSamples, seg1Samples, seg4Samples));
  }

  /** On a non-decreasing table, every sample of [lo, hi) gets jerk c when
      [lo, hi) lies inside one segment whose jerk is c. */
  lemma JerkOver(b: Boundaries, j: int, lo: nat, hi: int, c: int)
    requires Monotone(b)
    requires || (hi <= b.seg1End && c == j)
             || (b.seg1End <= lo && hi <= b.seg2End && c == 0)
             || (b.seg2End <= lo && hi <= b.seg3End && c == -j)
             || (b.seg3End <= lo && hi <= b.seg4End && c == 0)
             || (b.seg4End <= lo && hi <= b.seg5End && c == -j)
             || (b.seg5End <= lo && hi <= b.seg6End && c == 0)
             || (b.seg6End <= lo && hi <= b.seg7End && c == j)
             || (b.seg7End <= lo && c == 0)
    ensures forall i :: lo <= i < hi ==> SegmentJerk(i, b, j) == c
  {
    forall i | lo <= i < hi
      ensures SegmentJerk(i, b, j) == c
    {
      SegmentJerkBySegment(i, b, j);
    }
  }

  /** The closed form across one stretch of constant jerk c, from lo to hi. */
  lemma Stretch(b: Boundaries, j: int, lo: nat, hi: nat, c: int)
    requires lo <= hi
    requires forall i :: lo <= i < hi ==> SegmentJerk(i, b, j) == c
    ensures From0(b, j, hi).a == From0(b, j, lo).a + (hi - lo) * c
    ensures 2 * From0(b, j, hi).v == 2 * From0(b, j, lo).v + 2 * ((hi - lo) * From0(b, j, lo).a) + c * (hi - lo) * (hi - lo + 1)
  {
    InStretch(b, j, lo, hi, c, hi);
    StepsClosedForm(From0(b, j, lo), c, hi - lo);
  }

  /** The arithmetic of one half of the S-curve: the three closed forms of
      Stretch chained together. */
  lemma HalfArithmetic(v0: int, a1: int, v1: int, a2: int, v2: int, a3: int, v3: int, s1: int, s2: int, c: int)
    requires a1 == s1 * c && 2 * v1 == 2 * v0 + c * s1 * (s1 + 1)
    requires a2 == a1 && 2 * v2 == 2 * v1 + 2 * (s2 * a1)
    requires a3 == a2 + s1 * (-c) && 2 * v3 == 2 * v2 + 2 * (s1 * a2) + (-c) * s1 * (s1 + 1)
    ensures a3 == 0 && v3 == v0 + c * s1 * (s1 + s2)
  {
    assert s1 * (-c) == -(s1 * c);
    assert (-c) * s1 * (s1 + 1) == -(c * s1 * (s1 + 1));
    assert 2 * (s2 * (s1 * c)) + 2 * (s1 * (s1 * c)) == 2 * (c * s1 * (s1 + s2));
  }

  /** One half of the S-curve: jerk c for s1 samples, none for s2, then -c
      for s1 again, starting with no acceleration. The acceleration is back
      to zero and the speed has grown by c*s1*(s1+s2). */
  lemma SCurveHalf(b: Boundaries, j: int, lo: nat, s1: nat, s2: nat, c: int)
    requires From0(b, j, lo).a == 0
    requires forall i :: lo <= i < lo + s1 ==> SegmentJerk(i, b, j) == c
    requires forall i :: lo + s1 <= i < lo + s1 + s2 ==> SegmentJerk(i, b, j) == 0
    requires forall i :: lo + s1 + s2 <= i < lo + s1 + s2 + s1 ==> SegmentJerk(i, b, j) == -c
    ensures From0(b, j, lo + s1 + s2 + s1).a == 0
    ensures From0(b, j, lo + s1 + s2 + s1).v == From0(b, j, lo).v + c * s1 * (s1 + s2)
  {
    var p1, p2, p3 := lo + s1, lo + s1 + s2, lo + s1 + s2 + s1;
    Stretch(b, j, lo, p1, c);
    Stretch(b, j, p1, p2, 0);
    Stretch(b, j, p2, p3, -c);
    var k0, k1, k2, k3 := From0(b, j, lo), From0(b, j, p1), From0(b, j, p2), From0(b, j, p3);
    assert p1 - lo == s1 && p2 - p1 == s2 && p3 - p2 == s1;
    HalfArithmetic(k0.v, k1.a, k1.v, k2.a, k2.v, k3.a, k3.v, s1, s2, c);
  }

  /** The table of a symmetric plan: s1, s2, s1, s4, s1, s2, s1 samples. */
  function SymmetricTable(s1: nat, s2: nat, s4: nat): Boundaries
  {
    var b3 := s1 + s2 + s1;
    var b4 := b3 + s4;
    Boundaries(s1, s1 + s2, b3, b4, b4 + s1, b4 + s1 + s2, b4 + b3)
  }

  /** The accelerating half of a symmetric table runs from rest to cruise. */
  lemma Accelerate(j: int, s1: nat, s2: nat, s4: nat)
    ensures var b := SymmetricTable(s1, s2, s4);
      From0(b, j, b.seg3End).a == 0 && From0(b, j, b.seg3End).v == j * s1 * (s1 + s2)
  {
    var b := SymmetricTable(s1, s2, s4);
    JerkOver(b, j, 0, b.seg1End, j);
    JerkOver(b, j, b.seg1End, b.seg2End, 0);
    JerkOver(b, j, b.seg2End, b.seg3End, -j);
    SCurveHalf(b, j, 0, s1, s2, j);
  }

  /** Segment 4 keeps the cruise speed. */
  lemma Cruise(j: int, s1: nat, s2: nat, s4: nat)
    ensures var b := SymmetricTable(s1, s2, s4);
      From0(b, j, b.seg4End).a == From0(b, j, b.seg3End).a
      && (From0(b, j, b.seg3End).a == 0 ==> From0(b, j, b.seg4End).v == From0(b, j, b.seg3End).v)
  {
    var b := SymmetricTable(s1, s2, s4);
    JerkOver(b, j, b.seg3End, b.seg4End, 0);
    Stretch(b, j, b.seg3End, b.seg4End, 0);
  }

  /** Segments 5-7 of a symmetric table have jerk -J, 0 and +J. */
  lemma DecelerationJerks(j: int, s1: nat, s2: nat, s4: nat)
    ensures var b := SymmetricTable(s1, s2, s4);
      var lo := b.seg4End;
      && (forall i :: lo <= i < lo + s1 ==> SegmentJerk(i, b, j) == -j)
      && (forall i :: lo + s1 <= i < lo + s1 + s2 ==> SegmentJerk(i, b, j) == 0)
      && (forall i :: lo + s1 + s2 <= i < lo + s1 + s2 + s1 ==> SegmentJerk(i, b, j) == - -j)
  {
    var b := SymmetricTable(s1, s2, s4);
    JerkOver(b, j, b.seg4End, b.seg5End, -j);
    JerkOver(b, j, b.seg5End, b.seg6End, 0);
    JerkOver(b, j, b.seg6End, b.seg7End, j);
  }

  /** The decelerating half of a symmetric table takes the cruise speed away. */
  lemma Decelerate(j: int, s1: nat, s2: nat, s4: nat)
    ensures var b := SymmetricTable(s1, s2, s4);
      From0(b, j, b.seg4End).a == 0 ==>
        && From0(b, j, b.seg7End).a == 0
        && From0(b, j, b.seg7End).v == From0(b, j, b.seg4End).v - j * s1 * (s1 + s2)
  {
    var b := SymmetricTable(s1, s2, s4);
    if From0(b, j, b.seg4End).a == 0 {
      DecelerationJerks(j, s1, s2, s4);
      SCurveHalf(b, j, b.seg4End, s1, s2, -j);
      assert b.seg4End + s1 + s2 + s1 == b.seg7End;
      NegMul(j, s1);
      NegMul(j * s1, s1 + s2);
    }
  }

  /** The planner's table is the symmetric one. */
  lemma PlanTableSymmetric(totalAccelSamples: int, seg1Samples: int, seg4Samples: int)
    requires Proper(totalAccelSamples, seg1Samples, seg4Samples)
    ensures PlanTable(totalAccelSamples, seg1Samples, seg4Samples)
      == SymmetricTable(seg1Samples, totalAccelSamples - seg1Samples - seg1Samples, seg4Samples)
  {
  }

  /** A move planned with symmetric segments, run by the integrator from
      rest: acceleration is back to zero at the end of segment 3, where the
      speed is J*s1*(s1+s2), the cruise speed the planner computed
      (ProfileRestToRest); the speed holds through segment 4; and after
      segment 7 the motor is at rest again, with no acceleration and no
      speed left over. */
  lemma SCurveRestToRest(j: int, totalAccelSamples: int, seg1Samples: int, seg4Samples: int)
    requires Proper(totalAccelSamples, seg1Samples, seg4Samples)
    ensures var b := PlanTable(totalAccelSamples, seg1Samples, seg4Samples);
      var s2 := totalAccelSamples - seg1Samples - seg1Samples;
      && From0(b, j, b.seg3End).a == 0
      && From0(b, j, b.seg3End).v == j * seg1Samples * (seg1Samples + s2)
      && From0(b, j, b.seg4End).a == 0
      && From0(b, j, b.seg4End).v == j * seg1Samples * (seg1Samples + s2)
      && From0(b, j, b.seg7End).a == 0
      && From0(b, j, b.seg7End).v == 0
  {
    var s1: nat, s2: nat, s4: nat := seg1Samples, totalAccelSamples - seg1Samples - seg1Samples, seg4Samples;
    PlanTableSymmetric(totalAccelSamples, seg1Samples, seg4Samples);
    Accelerate(j, s1, s2, s4);
    Cruise(j, s1, s2, s4);
    Decelerate(j, s1, s2, s4);
  }

  /** The sample after the last segment has no jerk, so a motor at rest stays
      at rest through it. */
  lemma LastSample(b: Boundaries, j: int)
    requires Monotone(b) && From0(b, j, b.seg7End).a == 0 && From0(b, j, b.seg7End).v == 0
    ensures From0(b, j, b.seg7End + 1).a == 0 && From0(b, j, b.seg7End + 1).v == 0
    ensures From0(b, j, b.seg7End + 1).p == From0(b, j, b.seg7End).p
  {
    SegmentJerkBySegment(b.seg7End, b, j);
  }

  /** A move started from rest. */
  predicate StartedAtRest(c: EngineState)
  {
    Started(c) && c.position == 0 && c.fracPos == 0 && c.speed == 0 && c.accel == 0
  }

  /** A started move over a symmetric table reaches the cruise speed at the
      end of segment 3, still busy. */
  lemma ReachesCruise(c: EngineState, s1: nat, s2: nat, s4: nat)
    requires StartedAtRest(c) && c.bounds == SymmetricTable(s1, s2, s4)
    requires c.runSamples == c.bounds.seg7End + 1
    ensures var e := Ticks(c, 2 * c.bounds.seg3End);
      e.accel == 0 && e.speed == c.jerkConst * s1 * (s1 + s2) && e.busy
  {
    Accelerate(c.jerkConst, s1, s2, s4);
    assert Kin(c) == Rest;
    TicksFollowRun(c, c.bounds.seg3End);
    MoveTiming(c, c.bounds.seg3End);
  }

  /** A started move over a symmetric table ends idle and at rest. */
  lemma StopsAtRest(c: EngineState, s1: nat, s2: nat, s4: nat)
    requires StartedAtRest(c) && c.bounds == SymmetricTable(s1, s2, s4)
    requires c.runSamples == c.bounds.seg7End + 1
    ensures var e := Ticks(c, 2 * c.runSamples);
      !e.busy && e.accel == 0 && e.speed == 0
  {
    var b, j := c.bounds, c.jerkConst;
    Accelerate(j, s1, s2, s4);
    Cruise(j, s1, s2, s4);
    Decelerate(j, s1, s2, s4);
    LastSample(b, j);
    assert Kin(c) == Rest;
    TicksFollowRun(c, c.runSamples);
    MoveTiming(c, c.runSamples);
  }

  /** Lines 409-425 start a move from rest. */
  lemma CommitStartsAtRest(e: EngineState, p: MovePlan)
    requires p.runSamples >= 1
    ensures StartedAtRest(Commit(e, p))
  {
  }

  /** The planner's cruise speed in closed form. */
  lemma CruiseSpeedClosedForm(j: int, totalAccelSamples: int, seg1Samples: int)
    requires ProfileFits(j, seg1Samples, totalAccelSamples - seg1Samples - seg1Samples)
    ensures CruiseSpeed(j, totalAccelSamples, seg1Samples) == j * seg1Samples * (totalAccelSamples - seg1Samples)
  {
    var s2 := totalAccelSamples - seg1Samples - seg1Samples;
    ProfileRestToRest(j, seg1Samples, s2);
    assert seg1Samples + s2 == totalAccelSamples - seg1Samples;
  }

  /** An accepted plan has the symmetric table, the request's jerk, and the
      cruise speed of the closed form. */
  lemma AcceptedPlanIsSymmetric(x: int, j: int, totalAccelSamples: int, seg1Samples: int, seg4Samples: int, p: MovePlan)
    requires PlanFits(x, j, totalAccelSamples, seg1Samples, seg4Samples)
    requires FloatResultsSane(j, totalAccelSamples, seg1Samples, seg4Samples)
    requires PlanMove(x, j, totalAccelSamples, seg1Samples, seg4Samples) == Accepted(p)
    ensures var s2 := totalAccelSamples - seg1Samples - seg1Samples;
      && s2 >= 0
      && p.bounds == SymmetricTable(seg1Samples, s2, seg4Samples) && p.jerk == j
      && p.runSamples == p.bounds.seg7End + 1
      && p.bounds.seg3End == totalAccelSamples && p.runSamples == 2 * totalAccelSamples + seg4Samples + 1
      && CruiseSpeed(j, totalAccelSamples, seg1Samples) == j * seg1Samples * (seg1Samples + s2)
  {
    assert seg1Samples + (totalAccelSamples - seg1Samples - seg1Samples) == totalAccelSamples - seg1Samples;
    PlanTableSymmetric(totalAccelSamples, seg1Samples, seg4Samples);
    CruiseSpeedClosedForm(j, totalAccelSamples, seg1Samples);
  }

  /** An accepted move, committed and then run by the timer interrupt: after
      the integrate and clear phases of every sample up to the end of
      segment 3 (sample totalAccelSamples) the acceleration is zero and the
      speed is the cruise speed the planner computed with move_pvajt; after
      all runSamples samples the move is over, with no acceleration and no
      speed left. */
  lemma CommittedMoveRestToRest(e: EngineState, x: int, j: int, totalAccelSamples: int, seg1Samples: int, seg4Samples: int, p: MovePlan)
    requires PlanFits(x, j, totalAccelSamples, seg1Samples, seg4Samples)
    requires FloatResultsSane(j, totalAccelSamples, seg1Samples, seg4Samples)
    requires PlanMove(x, j, totalAccelSamples, seg1Samples, seg4Samples) == Accepted(p)
    ensures p.bounds.seg3End == totalAccelSamples && p.runSamples == 2 * totalAccelSamples + seg4Samples + 1
    ensures var cruise := Ticks(Commit(e, p), 2 * totalAccelSamples);
      cruise.busy && cruise.accel == 0 && cruise.speed == CruiseSpeed(j, totalAccelSamples, seg1Samples)
    ensures var done := Ticks(Commit(e, p), 2 * (2 * totalAccelSamples + seg4Samples + 1));
      !done.busy && done.accel == 0 && done.speed == 0
  {
    var s1: nat, s2: nat, s4: nat := seg1Samples, totalAccelSamples - seg1Samples - seg1Samples, seg4Samples;
    AcceptedPlanIsSymmetric(x, j, totalAccelSamples, seg1Samples, seg4Samples, p);
    var c := Commit(e, p);
    CommitStartsAtRest(e, p);
    assert c.bounds == SymmetricTable(s1, s2, s4) && c.jerkConst == j;
    assert 2 * c.bounds.seg3End == 2 * totalAccelSamples;
    assert 2 * c.runSamples == 2 * (2 * totalAccelSamples + seg4Samples + 1);
    ReachesCruise(c, s1, s2, s4);
    StopsAtRest(c, s1, s2, s4);
  }

  /** x lies between y and z, in either order. */
  predicate Between(x: int, y: int, z: int)
  {
    (y <= x <= z) || (z <= x <= y)
  }

  /** k of s samples of jerk c reach between 0 and the peak s*c. */
  lemma MulBetween(k: int, s: int, c: int)
    requires 0 <= k <= s
    ensures Between(k * c, 0, s * c)
  {
    assert s * c - k * c == (s - k) * c;
    if c >= 0 {
      assert 0 <= k * c && 0 <= (s - k) * c;
    } else {
      assert k * c <= 0 && (s - k) * c <= 0;
    }
  }

  /** The acceleration across one stretch of constant jerk c. */
  lemma StretchAccel(b: Boundaries, j: int, lo: nat, hi: nat, c: int)
    requires lo <= hi
    requires forall i :: lo <= i < hi ==> SegmentJerk(i, b, j) == c
    ensures From0(b, j, hi).a == From0(b, j, lo).a + (hi - lo) * c
  {
    InStretch(b, j, lo, hi, c, hi);
    StepsClosedForm(From0(b, j, lo), c, hi - lo);
  }

  /** Within one half of the S-curve (as in SCurveHalf) the acceleration
      always lies between 0 and its peak s1*c. */
  lemma HalfAccelBetween(b: Boundaries, j: int, lo: nat, s1: nat, s2: nat, c: int, n: nat)
    requires From0(b, j, lo).a == 0
    requires forall i :: lo <= i < lo + s1 ==> SegmentJerk(i, b, j) == c
    requires forall i :: lo + s1 <= i < lo + s1 + s2 ==> SegmentJerk(i, b, j) == 0
    requires forall i :: lo + s1 + s2 <= i < lo + s1 + s2 + s1 ==> SegmentJerk(i, b, j) == -c
    requires lo <= n <= lo + s1 + s2 + s1
    ensures Between(From0(b, j, n).a, 0, s1 * c)
  {
    var p1, p2 := lo + s1, lo + s1 + s2;
    if n <= p1 {
      StretchAccel(b, j, lo, n, c);
      MulBetween(n - lo, s1, c);
    } else {
      StretchAccel(b, j, lo, p1, c);
      assert p1 - lo == s1;
      var peak := From0(b, j, p1).a;
      assert peak == s1 * c;
      if n <= p2 {
        StretchAccel(b, j, p1, n, 0);
      } else {
        StretchAccel(b, j, p1, p2, 0);
        StretchAccel(b, j, p2, n, -c);
        PeakDown(n - p2, s1, c, From0(b, j, n).a);
      }
    }
  }

  /** Coming down from the peak s1*c by k samples of jerk -c, with k at most
      s1, stays between 0 and the peak. */
  lemma PeakDown(k: int, s1: int, c: int, a: int)
    requires 0 <= k <= s1 && a == s1 * c + k * (-c)
    ensures Between(a, 0, s1 * c)
  {
    NegMul(c, k);
    assert k * (-c) == -(k * c);
    assert (s1 - k) * c == s1 * c - k * c;
    MulBetween(s1 - k, s1, c);
  }

  /** Where the acceleration is never negative, the speed never falls. */
  lemma {:induction false} SpeedRises(b: Boundaries, j: int, lo: nat, n: nat)
    requires lo <= n
    requires forall i :: lo < i <= n ==> From0(b, j, i).a >= 0
    ensures From0(b, j, lo).v <= From0(b, j, n).v
  {
    if n > lo {
      SpeedRises(b, j, lo, n - 1);
      assert From0(b, j, n).v == From0(b, j, n - 1).v + From0(b, j, n).a;
    }
  }

  /** Where the acceleration is never positive, the speed never rises. */
  lemma {:induction false} SpeedFalls(b: Boundaries, j: int, lo: nat, n: nat)
    requires lo <= n
    requires forall i :: lo < i <= n ==> From0(b, j, i).a <= 0
    ensures From0(b, j, n).v <= From0(b, j, lo).v
  {
    if n > lo {
      SpeedFalls(b, j, lo, n - 1);
      assert From0(b, j, n).v == From0(b, j, n - 1).v + From0(b, j, n).a;
    }
  }

  /** With a non-negative jerk the acceleration is never negative up to the
      end of segment 4. */
  lemma AccelerationPhase(j: int, s1: nat, s2: nat, s4: nat)
    requires j >= 0
    ensures var b := SymmetricTable(s1, s2, s4);
      forall i :: 0 < i <= b.seg4End ==> From0(b, j, i).a >= 0
  {
    var b := SymmetricTable(s1, s2, s4);
    JerkOver(b, j, 0, b.seg1End, j);
    JerkOver(b, j, b.seg1End, b.seg2End, 0);
    JerkOver(b, j, b.seg2End, b.seg3End, -j);
    JerkOver(b, j, b.seg3End, b.seg4End, 0);
    Accelerate(j, s1, s2, s4);
    assert s1 * j >= 0;
    forall i | 0 < i <= b.seg4End
      ensures From0(b, j, i).a >= 0
    {
      if i <= b.seg3End {
        HalfAccelBetween(b, j, 0, s1, s2, j, i);
      } else {
        Stretch(b, j, b.seg3End, i, 0);
      }
    }
  }

  /** With a non-negative jerk the acceleration is never positive from the
      end of segment 4 to the sample after segment 7. */
  lemma DecelerationPhase(j: int, s1: nat, s2: nat, s4: nat)
    requires j >= 0
    ensures var b := SymmetricTable(s1, s2, s4);
      forall i :: b.seg4End < i <= b.seg7End + 1 ==> From0(b, j, i).a <= 0
  {
    var b := SymmetricTable(s1, s2, s4);
    Accelerate(j, s1, s2, s4);
    Cruise(j, s1, s2, s4);
    Decelerate(j, s1, s2, s4);
    DecelerationJerks(j, s1, s2, s4);
    LastSample(b, j);
    assert b.seg4End + s1 + s2 + s1 == b.seg7End;
    NegMul(j, s1);
    assert s1 * (-j) <= 0;
    forall i | b.seg4End < i <= b.seg7End + 1
      ensures From0(b, j, i).a <= 0
    {
      if i <= b.seg7End {
        HalfAccelBetween(b, j, b.seg4End, s1, s2, -j, i);
      }
    }
  }

  /** With a non-negative jerk, at every sample of a symmetric move the speed
      lies between zero and the cruise speed. */
  lemma SpeedBounded(j: int, s1: nat, s2: nat, s4: nat, n: nat)
    requires j >= 0
    ensures var b := SymmetricTable(s1, s2, s4);
      n <= b.seg7End + 1 ==> 0 <= From0(b, j, n).v <= j * s1 * (s1 + s2)
  {
    var b := SymmetricTable(s1, s2, s4);
    if n <= b.seg7End + 1 {
      Accelerate(j, s1, s2, s4);
      Cruise(j, s1, s2, s4);
      Decelerate(j, s1, s2, s4);
      LastSample(b, j);
      AccelerationPhase(j, s1, s2, s4);
      DecelerationPhase(j, s1, s2, s4);
      assert From0(b, j, 0).v == 0;
      if n <= b.seg4End {
        SpeedRises(b, j, 0, n);
        SpeedRises(b, j, n, b.seg4End);
      } else {
        SpeedFalls(b, j, b.seg4End, n);
        SpeedFalls(b, j, n, b.seg7End + 1);
      }
    }
  }

  /** Whole steps and a fraction in [0, 2^40) are the floor of the exact
      position. */
  lemma WholeSteps(q: int, r: int, pos: int)
    requires pos == q * SCALE + r && 0 <= r < SCALE
    ensures q == pos / SCALE && r == pos % SCALE
  {
  }

  /** While the cruise speed is at most one step per sample, a started move
      over a symmetric table loses and gains no step: at its end, whole steps
      plus fraction are the exact sampled position, so the step count is that
      position rounded down to whole steps. */
  lemma StepsExact(c: EngineState, s1: nat, s2: nat, s4: nat)
    requires StartedAtRest(c) && c.bounds == SymmetricTable(s1, s2, s4)
    requires c.runSamples == c.bounds.seg7End + 1
    requires c.jerkConst >= 0 && c.jerkConst * s1 * (s1 + s2) <= SCALE
    ensures var e := Ticks(c, 2 * c.runSamples);
      var exact := From0(c.bounds, c.jerkConst, c.runSamples).p;
      e.position * SCALE + e.fracPos == exact && e.position == exact / SCALE
  {
    var b, j := c.bounds, c.jerkConst;
    assert Kin(c) == Rest;
    forall i | 1 <= i <= c.runSamples
      ensures 0 <= Run(Kin(c), b, j, 0, i).v <= SCALE
    {
      SpeedBounded(j, s1, s2, s4, i);
    }
    TicksFollowRun(c, c.runSamples);
    FracPosStaysInRange(c, 2 * c.runSamples);
    var e := Ticks(c, 2 * c.runSamples);
    WholeSteps(e.position, e.fracPos, From0(b, j, c.runSamples).p);
  }

  /** An accepted move whose cruise speed is at most one step per sample
      (2^40), committed and run to its end by the timer interrupt, emits
      exactly as many steps as the exact sampled motion covers, rounded down:
      the fixed-point integration drops and invents no step. */
  lemma CommittedMoveStepsExact(e: EngineState, x: int, j: int, totalAccelSamples: int, seg1Samples: int, seg4Samples: int, p: MovePlan)
    requires PlanFits(x, j, totalAccelSamples, seg1Samples, seg4Samples)
    requires FloatResultsSane(j, totalAccelSamples, seg1Samples, seg4Samples)
    requires PlanMove(x, j, totalAccelSamples, seg1Samples, seg4Samples) == Accepted(p)
    requires CruiseSpeed(j, totalAccelSamples, seg1Samples) <= SCALE
    ensures var done := Ticks(Commit(e, p), 2 * (2 * totalAccelSamples + seg4Samples + 1));
      var exact := From0(p.bounds, j, 2 * totalAccelSamples + seg4Samples + 1).p;
      done.position * SCALE + done.fracPos == exact && done.position == exact / SCALE
  {
    var s1: nat, s2: nat, s4: nat := seg1Samples, totalAccelSamples - seg1Samples - seg1Samples, seg4Samples;
    AcceptedPlanIsSymmetric(x, j, totalAccelSamples, seg1Samples, seg4Samples, p);
    var c := Commit(e, p);
    CommitStartsAtRest(e, p);
    assert c.bounds == SymmetricTable(s1, s2, s4) && c.jerkConst == j;
    assert c.runSamples == 2 * totalAccelSamples + seg4Samples + 1;
    StepsExact(c, s1, s2, s4);
  }

  /** The arithmetic of one more sample in the position closed form. */
  lemma PositionArithmetic(p0: int, v0: int, a0: int, j: int, n: int, pm: int, vn: int)
    requires n >= 1
    requires 6 * pm == 6 * p0 + 6 * ((n - 1) * v0) + 3 * (a0 * (n - 1) * n) + j * (n - 1) * n * (n + 1)
    requires 2 * vn == 2 * v0 + 2 * (n * a0) + j * n * (n + 1)
    ensures 6 * (pm + vn) == 6 * p0 + 6 * (n * v0) + 3 * (a0 * n * (n + 1)) + j * n * (n + 1) * (n + 2)
  {
    var m := n - 1;
    assert 6 * (m * v0) + 6 * v0 == 6 * (n * v0);
    assert 3 * (a0 * m * n) + 6 * (n * a0) == 3 * (a0 * n * (n + 1)) by {
      assert a0 * m * n + 2 * (n * a0) == a0 * n * (m + 2);
    }
    assert j * m * n * (n + 1) + 3 * (j * n * (n + 1)) == j * n * (n + 1) * (n + 2) by {
      assert j * m * n * (n + 1) + 3 * (j * n * (n + 1)) == (j * n * (n + 1)) * (m + 3);
    }
  }

  /** Over constant jerk, six times the position is a cubic in the number of
      samples. */
  lemma {:induction false} StepsPosition(k: Kinematics, j: int, n: nat)
    ensures 6 * Steps(k, j, n).p == 6 * k.p + 6 * (n * k.v) + 3 * (k.a * n * (n + 1)) + j * n * (n + 1) * (n + 2)
  {
    if n > 0 {
      StepsPosition(k, j, n - 1);
      StepsClosedForm(k, j, n);
      PositionArithmetic(k.p, k.v, k.a, j, n, Steps(k, j, n - 1).p, Steps(k, j, n).v);
    }
  }

  /** The closed forms across t samples of constant jerk c from sample lo:
      acceleration, twice the speed and six times the position. */
  lemma StretchPosition(b: Boundaries, j: int, lo: nat, t: nat, c: int)
    requires forall i :: lo <= i < lo + t ==> SegmentJerk(i, b, j) == c
    ensures var k, k' := From0(b, j, lo), From0(b, j, lo + t);
      && k'.a == k.a + t * c
      && 2 * k'.v == 2 * k.v + 2 * (t * k.a) + c * t * (t + 1)
      && 6 * k'.p == 6 * k.p + 6 * (t * k.v) + 3 * (k.a * t * (t + 1)) + c * t * (t + 1) * (t + 2)
  {
    InStretch(b, j, lo, lo + t, c, lo + t);
    assert lo + t - lo == t;
    StepsClosedForm(From0(b, j, lo), c, t);
    StepsPosition(From0(b, j, lo), c, t);
  }

  /** Multiplication distributes over a sum on the right. */
  lemma Distribute(x: int, y: int, z: int)
    ensures x * (y + z) == x * y + x * z
  {
  }

  /** The polynomial at the heart of the half-curve distance. */
  lemma HalfPolynomial(s1: int, s2: int)
    ensures 2 * (s1 * s2) + s2 * (s2 + 1) + s1 * (s1 + 1) + (s1 + s2) * (s1 + 1)
      == (s1 + s2) * (s1 + s2 + s1 + 2)
  {
  }

  /** Four products with a common factor, gathered. */
  lemma GatherFour(k: int, w: int, x: int, y: int, z: int)
    ensures 2 * (k * w) + k * x + k * y + k * z == k * (2 * w + x + y + z)
  {
    Distribute(k, 2 * w, x + y + z);
    Distribute(k, x, y + z);
    Distribute(k, y, z);
    assert k * (2 * w) == 2 * (k * w);
  }

  /** Products regroup. */
  lemma Associate(x: int, y: int, z: int)
    ensures x * (y * z) == (x * y) * z
  {
  }

  /** The outer factors of a product trade places. */
  lemma Exchange(x: int, y: int, z: int)
    ensures x * (y * z) == y * (x * z)
  {
  }

  /** The four terms of HalfGain, each as a multiple of the peak acceleration. */
  lemma GainTerms(s1: int, s2: int, c: int)
    ensures s1 * (s2 * (s1 * c)) == (s1 * c) * (s1 * s2)
    ensures (s1 * c) * s2 * (s2 + 1) == (s1 * c) * (s2 * (s2 + 1))
    ensures (s1 * c) * s1 * (s1 + 1) == (s1 * c) * (s1 * (s1 + 1))
    ensures (s1 + s2) * (c * s1 * (s1 + 1)) == (s1 * c) * ((s1 + s2) * (s1 + 1))
  {
    Exchange(s1, s2, s1 * c);
    Exchange(s2, s1, s1 * c);
    Associate(s1 * c, s2, s2 + 1);
    Associate(s1 * c, s1, s1 + 1);
    assert c * s1 * (s1 + 1) == (s1 * c) * (s1 + 1);
    Exchange(s1 + s2, s1 * c, s1 + 1);
  }

  /** Equal values scaled by the same factor stay equal. */
  lemma ScaleEqual(k: int, x: int, y: int)
    requires x == y
    ensures k * x == k * y
  {
  }

  /** The jerk-dependent part of the distance over one half of the S-curve. */
  lemma HalfGain(s1: int, s2: int, c: int)
    ensures 2 * (s1 * (s2 * (s1 * c))) + (s1 * c) * s2 * (s2 + 1) + (s1 * c) * s1 * (s1 + 1)
      + (s1 + s2) * (c * s1 * (s1 + 1))
      == c * s1 * (s1 + s2) * (s1 + s2 + s1 + 2)
  {
    var a1 := s1 * c;
    GainTerms(s1, s2, c);
    GatherFour(a1, s1 * s2, s2 * (s2 + 1), s1 * (s1 + 1), (s1 + s2) * (s1 + 1));
    HalfPolynomial(s1, s2);
    ScaleEqual(a1, 2 * (s1 * s2) + s2 * (s2 + 1) + s1 * (s1 + 1) + (s1 + s2) * (s1 + 1),
               (s1 + s2) * (s1 + s2 + s1 + 2));
    Associate(a1, s1 + s2, s1 + s2 + s1 + 2);
    assert a1 * (s1 + s2) == c * s1 * (s1 + s2);
  }

  /** Multiplication distributes over a sum on the left. */
  lemma DistributeRight(x: int, y: int, z: int)
    ensures (x + y) * z == x * z + y * z
  {
  }

  /** The cubic term of a stretch with jerk -c is minus that with jerk c. */
  lemma NegCubic(c: int, s: int)
    ensures (-c) * s * (s + 1) * (s + 2) == -(c * s * (s + 1) * (s + 2))
  {
    NegMul(c, s);
    NegMul(c * s, s + 1);
    NegMul(c * s * (s + 1), s + 2);
  }

  /** Twice a sum of speed products from twice the speed. */
  lemma ScaleSpeed(k: int, v1: int, v0: int, r: int)
    requires 2 * v1 == 2 * v0 + r
    ensures 2 * (k * v1) == 2 * (k * v0) + k * r
  {
    assert k * (2 * v1) == k * (2 * v0) + k * r;
  }

  /** The half-curve distance as a linear combination of its products. */
  lemma HalfCombine(p: int, q1: int, q2: int, q3: int, q4: int, q5: int, q6: int, q7: int, q8: int, q9: int,
                    a2: int, a3: int, k: int)
    requires 6 * p == 6 * q1 + 6 * q2 + 3 * a2 + 6 * q3 + 3 * a3
    requires q3 == q4 + q5 && q2 + q4 == q6 && 2 * q6 == 2 * q7 + q8
    requires 2 * q5 + a2 + a3 + q8 == k && q1 + q7 == q9
    ensures 2 * p == 2 * q9 + k
  {
  }

  /** The arithmetic of the position over one half of the S-curve: the
      three cubic closed forms of StretchPosition chained together. */
  lemma HalfPositionArithmetic(p0: int, v0: int, p1: int, v1: int, p2: int, v2: int, p3: int, s1: int, s2: int, c: int)
    requires 2 * v1 == 2 * v0 + c * s1 * (s1 + 1)
    requires 6 * p1 == 6 * p0 + 6 * (s1 * v0) + c * s1 * (s1 + 1) * (s1 + 2)
    requires 2 * v2 == 2 * v1 + 2 * (s2 * (s1 * c))
    requires 6 * p2 == 6 * p1 + 6 * (s2 * v1) + 3 * ((s1 * c) * s2 * (s2 + 1))
    requires 6 * p3 == 6 * p2 + 6 * (s1 * v2) + 3 * ((s1 * c) * s1 * (s1 + 1)) + (-c) * s1 * (s1 + 1) * (s1 + 2)
    ensures 2 * (p3 - p0) == 2 * ((s1 + s2 + s1) * v0) + c * s1 * (s1 + s2) * (s1 + s2 + s1 + 2)
  {
    var a1 := s1 * c;
    var r := c * s1 * (s1 + 1);
    assert 6 * (p3 - p0) == 6 * (s1 * v0) + 6 * (s2 * v1) + 3 * (a1 * s2 * (s2 + 1)) + 6 * (s1 * v2)
      + 3 * (a1 * s1 * (s1 + 1)) by {
      NegCubic(c, s1);
    }
    assert s1 * v2 == s1 * v1 + s1 * (s2 * a1) by {
      ScaleEqual(s1, v2, v1 + s2 * a1);
      Distribute(s1, v1, s2 * a1);
    }
    assert s2 * v1 + s1 * v1 == (s1 + s2) * v1 by {
      DistributeRight(s1, s2, v1);
    }
    assert 2 * ((s1 + s2) * v1) == 2 * ((s1 + s2) * v0) + (s1 + s2) * r by {
      ScaleSpeed(s1 + s2, v1, v0, r);
    }
    assert 2 * (s1 * (s2 * a1)) + a1 * s2 * (s2 + 1) + a1 * s1 * (s1 + 1) + (s1 + s2) * r
      == c * s1 * (s1 + s2) * (s1 + s2 + s1 + 2) by {
      HalfGain(s1, s2, c);
    }
    assert s1 * v0 + (s1 + s2) * v0 == (s1 + s2 + s1) * v0 by {
      DistributeRight(s1 + s2, s1, v0);
    }
    HalfCombine(p3 - p0, s1 * v0, s2 * v1, s1 * v2, s1 * v1, s1 * (s2 * a1), (s1 + s2) * v1,
                (s1 + s2) * v0, (s1 + s2) * r, (s1 + s2 + s1) * v0,
                a1 * s2 * (s2 + 1), a1 * s1 * (s1 + 1), c * s1 * (s1 + s2) * (s1 + s2 + s1 + 2));
  }

  /** Segment 1 (or 5) of a half, from no acceleration. */
  lemma HalfFirst(b: Boundaries, j: int, lo: nat, s1: nat, c: int)
    requires From0(b, j, lo).a == 0
    requires forall i :: lo <= i < lo + s1 ==> SegmentJerk(i, b, j) == c
    ensures var k0, k1 := From0(b, j, lo), From0(b, j, lo + s1);
      && k1.a == s1 * c && 2 * k1.v == 2 * k0.v + c * s1 * (s1 + 1)
      && 6 * k1.p == 6 * k0.p + 6 * (s1 * k0.v) + c * s1 * (s1 + 1) * (s1 + 2)
  {
    StretchPosition(b, j, lo, s1, c);
  }

  /** Segment 2 (or 6) of a half, at the peak acceleration s1*c. */
  lemma HalfSecond(b: Boundaries, j: int, lo: nat, s1: nat, s2: nat, c: int)
    requires From0(b, j, lo).a == s1 * c
    requires forall i :: lo <= i < lo + s2 ==> SegmentJerk(i, b, j) == 0
    ensures var k1, k2 := From0(b, j, lo), From0(b, j, lo + s2);
      && k2.a == s1 * c && 2 * k2.v == 2 * k1.v + 2 * (s2 * (s1 * c))
      && 6 * k2.p == 6 * k1.p + 6 * (s2 * k1.v) + 3 * ((s1 * c) * s2 * (s2 + 1))
  {
    StretchPosition(b, j, lo, s2, 0);
  }

  /** Segment 3 (or 7) of a half, from the peak acceleration s1*c back down. */
  lemma HalfThird(b: Boundaries, j: int, lo: nat, s1: nat, c: int)
    requires From0(b, j, lo).a == s1 * c
    requires forall i :: lo <= i < lo + s1 ==> SegmentJerk(i, b, j) == -c
    ensures var k2, k3 := From0(b, j, lo), From0(b, j, lo + s1);
      6 * k3.p == 6 * k2.p + 6 * (s1 * k2.v) + 3 * ((s1 * c) * s1 * (s1 + 1)) + (-c) * s1 * (s1 + 1) * (s1 + 2)
  {
    StretchPosition(b, j, lo, s1, -c);
  }

  /** The distance over one half of the S-curve, starting with no
      acceleration: the starting speed for 2*s1+s2 samples plus what the
      jerk adds, c*s1*(s1+s2)*(2*s1+s2+2)/2. */
  lemma HalfPosition(b: Boundaries, j: int, lo: nat, s1: nat, s2: nat, c: int)
    requires From0(b, j, lo).a == 0
    requires forall i :: lo <= i < lo + s1 ==> SegmentJerk(i, b, j) == c
    requires forall i :: lo + s1 <= i < lo + s1 + s2 ==> SegmentJerk(i, b, j) == 0
    requires forall i :: lo + s1 + s2 <= i < lo + s1 + s2 + s1 ==> SegmentJerk(i, b, j) == -c
    ensures var k0 := From0(b, j, lo);
      2 * (From0(b, j, lo + s1 + s2 + s1).p - k0.p)
        == 2 * ((s1 + s2 + s1) * k0.v) + c * s1 * (s1 + s2) * (s1 + s2 + s1 + 2)
  {
    var p1, p2, p3 := lo + s1, lo + s1 + s2, lo + s1 + s2 + s1;
    var k0, k1, k2, k3 := From0(b, j, lo), From0(b, j, p1), From0(b, j, p2), From0(b, j, p3);
    HalfFirst(b, j, lo, s1, c);
    HalfSecond(b, j, p1, s1, s2, c);
    HalfThird(b, j, p2, s1, c);
    HalfPositionArithmetic(k0.p, k0.v, k1.p, k1.v, k2.p, k2.v, k3.p, s1, s2, c);
  }

  /** The accelerating half of a symmetric table covers
      J*s1*(s1+s2)*(2*s1+s2+2)/2. */
  lemma AccelerationDistance(j: int, s1: nat, s2: nat, s4: nat)
    ensures var b := SymmetricTable(s1, s2, s4);
      2 * From0(b, j, b.seg3End).p == j * s1 * (s1 + s2) * (s1 + s2 + s1 + 2)
  {
    var b := SymmetricTable(s1, s2, s4);
    JerkOver(b, j, 0, b.seg1End, j);
    JerkOver(b, j, b.seg1End, b.seg2End, 0);
    JerkOver(b, j, b.seg2End, b.seg3End, -j);
    assert From0(b, j, 0) == Rest;
    HalfPosition(b, j, 0, s1, s2, j);
    assert 0 + s1 + s2 + s1 == b.seg3End;
  }

  /** The decelerating half of a symmetric table, entered at speed v with no
      acceleration, covers v*(2*s1+s2) less what the acceleration half added. */
  lemma DecelerationDistance(j: int, s1: nat, s2: nat, s4: nat)
    ensures var b := SymmetricTable(s1, s2, s4);
      var k4 := From0(b, j, b.seg4End);
      k4.a == 0 ==>
        2 * (From0(b, j, b.seg7End).p - k4.p)
          == 2 * ((s1 + s2 + s1) * k4.v) - j * s1 * (s1 + s2) * (s1 + s2 + s1 + 2)
  {
    var b := SymmetricTable(s1, s2, s4);
    if From0(b, j, b.seg4End).a == 0 {
      DecelerationJerks(j, s1, s2, s4);
      HalfPosition(b, j, b.seg4End, s1, s2, -j);
      assert b.seg4End + s1 + s2 + s1 == b.seg7End;
      NegMul(j, s1);
      NegMul(j * s1, s1 + s2);
      NegMul(j * s1 * (s1 + s2), s1 + s2 + s1 + 2);
    }
  }

  /** Segment 4 adds the cruise speed once per sample. */
  lemma CruiseDistance(j: int, s1: nat, s2: nat, s4: nat)
    ensures var b := SymmetricTable(s1, s2, s4);
      var k3 := From0(b, j, b.seg3End);
      k3.a == 0 ==> From0(b, j, b.seg4End).p == k3.p + s4 * k3.v
  {
    var b := SymmetricTable(s1, s2, s4);
    JerkOver(b, j, b.seg3End, b.seg4End, 0);
    StretchPosition(b, j, b.seg3End, s4, 0);
  }

  /** The whole distance of a symmetric move: the two halves cancel their
      jerk terms, so the move covers exactly the cruise speed
      J*s1*(s1+s2) for 2*s1+s2+s4 samples. */
  lemma MoveDistance(j: int, s1: nat, s2: nat, s4: nat)
    ensures var b := SymmetricTable(s1, s2, s4);
      From0(b, j, b.seg7End + 1).p == j * s1 * (s1 + s2) * (s1 + s2 + s1 + s4)
  {
    var b := SymmetricTable(s1, s2, s4);
    var v3, t := j * s1 * (s1 + s2), s1 + s2 + s1;
    var k3, k4, k7 := From0(b, j, b.seg3End), From0(b, j, b.seg4End), From0(b, j, b.seg7End);
    Accelerate(j, s1, s2, s4);
    Cruise(j, s1, s2, s4);
    Decelerate(j, s1, s2, s4);
    LastSample(b, j);
    assert 2 * k3.p == j * s1 * (s1 + s2) * (t + 2) by {
      AccelerationDistance(j, s1, s2, s4);
    }
    assert k4.p == k3.p + s4 * v3 && k4.v == v3 && k4.a == 0 by {
      CruiseDistance(j, s1, s2, s4);
    }
    assert 2 * (k7.p - k4.p) == 2 * (t * v3) - j * s1 * (s1 + s2) * (t + 2) by {
      DecelerationDistance(j, s1, s2, s4);
    }
    assert s4 * v3 + t * v3 == v3 * (t + s4) by {
      DistributeRight(s4, t, v3);
    }
  }

  /** An accepted move whose cruise speed is at most one step per sample,
      committed and run to its end, emits the cruise speed times
      totalAccelSamples + seg4Samples samples in whole steps, rounded down:
      the two ramps together cover what cruising through one of them would. */
  lemma CommittedMoveStepCount(e: EngineState, x: int, j: int, totalAccelSamples: int, seg1Samples: int, seg4Samples: int, p: MovePlan)
    requires PlanFits(x, j, totalAccelSamples, seg1Samples, seg4Samples)
    requires FloatResultsSane(j, totalAccelSamples, seg1Samples, seg4Samples)
    requires PlanMove(x, j, totalAccelSamples, seg1Samples, seg4Samples) == Accepted(p)
    requires CruiseSpeed(j, totalAccelSamples, seg1Samples) <= SCALE
    ensures var done := Ticks(Commit(e, p), 2 * (2 * totalAccelSamples + seg4Samples + 1));
      done.position == (CruiseSpeed(j, totalAccelSamples, seg1Samples) * (totalAccelSamples + seg4Samples)) / SCALE
  {
    var s1: nat, s2: nat, s4: nat := seg1Samples, totalAccelSamples - seg1Samples - seg1Samples, seg4Samples;
    AcceptedPlanIsSymmetric(x, j, totalAccelSamples, seg1Samples, seg4Samples, p);
    CommittedMoveStepsExact(e, x, j, totalAccelSamples, seg1Samples, seg4Samples, p);
    var b := SymmetricTable(s1, s2, s4);
    assert b.seg7End + 1 == 2 * totalAccelSamples + seg4Samples + 1;
    assert s1 + s2 + s1 + s4 == totalAccelSamples + seg4Samples;
    MoveDistance(j, s1, s2, s4);
  }
}
