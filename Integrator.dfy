/** The real-time integrator of move_IsrHandler as a function on the engine's
    state: one call of Tick is one timer interrupt. Each sample takes two
    interrupts: an integrate phase (phase 0) that picks the segment's jerk,
    integrates jerk into acceleration, speed and fractional position and raises
    the step pins when the position passes a whole step, and a clear phase
    (phase 1) that lowers the step pins and ends the move after its last
    sample. */
module Integrator {
  import opened FixedPoint
  import opened Planner

  /** The LED and the step and direction outputs of both axes. */
  datatype Pins = Pins(led1: bool, stepX: bool, dirX: bool, stepY: bool, dirY: bool)

  const AllLow := Pins(false, false, false, false, false)

  /** The movement globals (gMove*, runSamples, seg*End) and the outputs. */
  datatype EngineState = EngineState(
    busy: bool, jerkConst: int, sample: int, phase: int,
    jerk: int, accel: int, speed: int, fracPos: int, position: int,
    runSamples: int, bounds: Boundaries, pins: Pins)

  const NoBoundaries := Boundaries(0, 0, 0, 0, 0, 0, 0)

  /** The state after move_Init (lines 289-305): the outputs are not touched. */
  function Reset(e: EngineState): (r: EngineState)
    ensures !r.busy && r.pins == e.pins
  {
    EngineState(false, 0, 0, 0, 0, 0, 0, 0, 0, 0, NoBoundaries, e.pins)
  }

  /** The state main sets up before the timer starts (lines 111, 121, 124-128). */
  const PowerOn := Reset(EngineState(false, 0, 0, 0, 0, 0, 0, 0, 0, 0, NoBoundaries, AllLow))

  /** Lines 393-403 and 412-425: an accepted plan replaces the boundary table,
      sets the direction pins and starts the move from rest; the LED and the
      step pins are left as they are. */
  function Commit(e: EngineState, p: MovePlan): (r: EngineState)
    ensures r.busy && r.sample == 0 && r.phase == 0
    ensures r.jerk == 0 && r.accel == 0 && r.speed == 0 && r.fracPos == 0 && r.position == 0
    ensures r.bounds == p.bounds && r.runSamples == p.runSamples && r.jerkConst == p.jerk
    ensures r.pins.dirX == (p.dir == CCW) && r.pins.dirY == (p.dir == CCW)
    ensures r.pins.led1 == e.pins.led1 && r.pins.stepX == e.pins.stepX && r.pins.stepY == e.pins.stepY
  {
    var dirLevel := p.dir == CCW;
    EngineState(true, p.jerk, 0, 0, 0, 0, 0, 0, 0, p.runSamples, p.bounds,
                e.pins.(dirX := dirLevel, dirY := dirLevel))
  }

  /** A rejected plan leaves the engine as it was (line 375 returns before
      anything is written). */
  function ApplyPlan(e: EngineState, r: PlanResult): (s: EngineState)
    ensures r.Rejected? ==> s == e
    ensures r.Accepted? ==> s == Commit(e, r.plan)
  {
    match r
    case Accepted(p) => Commit(e, p)
    case Rejected(_) => e
  }

  /** Lines 451-467: the first boundary the sample lies below decides the
      jerk; at or after the end of segment 7 the jerk is zero. */
  function SegmentJerk(sample: int, b: Boundaries, j: int): (r: int)
    ensures r == j || r == 0 || r == -j
  {
    if sample < b.seg1End then j
    else if sample < b.seg2End then 0
    else if sample < b.seg3End then -j
    else if sample < b.seg4End then 0
    else if sample < b.seg5End then -j
    else if sample < b.seg6End then 0
    else if sample < b.seg7End then j
    else 0
  }

  /** On a non-decreasing table the cascade gives each half-open segment its
      jerk: +J, 0, -J, 0, -J, 0, +J, and 0 from the end of segment 7 on. */
  lemma SegmentJerkBySegment(sample: int, b: Boundaries, j: int)
    requires Monotone(b) && sample >= 0
    ensures var r := SegmentJerk(sample, b, j);
      && (sample < b.seg1End ==> r == j)
      && (b.seg1End <= sample < b.seg2End ==> r == 0)
      && (b.seg2End <= sample < b.seg3End ==> r == -j)
      && (b.seg3End <= sample < b.seg4End ==> r == 0)
      && (b.seg4End <= sample < b.seg5End ==> r == -j)
      && (b.seg5End <= sample < b.seg6End ==> r == 0)
      && (b.seg6End <= sample < b.seg7End ==> r == j)
      && (b.seg7End <= sample ==> r == 0)
  {
  }

  /** Lines 479-485: the int64 test `fracPos & 0xFFFFFF0000000000` is non-zero
      exactly when the value lies outside [0, 2^40), and masking with
      0xFFFFFFFFFF keeps its low 40 bits, that is its value modulo 2^40. */
  predicate HighBitsSet(f: int)
  {
    !(0 <= f < SCALE)
  }

  function LowBits(f: int): (r: int)
    ensures 0 <= r < SCALE
    ensures (f - r) % SCALE == 0
    ensures 0 <= f < SCALE ==> r == f
  {
    f % SCALE
  }

  /** Lines 446-488: the integrate phase. */
  function IntegratePhase(e: EngineState): EngineState
  {
    var jerk := SegmentJerk(e.sample, e.bounds, e.jerkConst);
    var accel := e.accel + jerk;
    var speed := e.speed + accel;
    var frac := e.fracPos + speed;
    var step := HighBitsSet(frac);
    e.(phase := 1, jerk := jerk, accel := accel, speed := speed,
       fracPos := if step then LowBits(frac) else frac,
       position := if step then e.position + 1 else e.position,
       pins := if step then e.pins.(stepX := true, stepY := true) else e.pins,
       sample := e.sample + 1)
  }

  /** Lines 489-501: the clear phase. */
  function ClearPhase(e: EngineState): EngineState
  {
    e.(phase := 0, busy := if e.sample >= e.runSamples then false else e.busy,
       pins := e.pins.(stepX := false, stepY := false))
  }

  /** One timer interrupt (lines 445-505); the LED mirrors busy afterwards. */
  function Tick(e: EngineState): EngineState
  {
    var r := if !e.busy then e else if e.phase == 0 then IntegratePhase(e) else ClearPhase(e);
    r.(pins := r.pins.(led1 := r.busy))
  }

  /** n timer interrupts in a row. */
  function Ticks(e: EngineState, n: nat): EngineState
  {
    if n == 0 then e else Tick(Ticks(e, n - 1))
  }

  /** What no interrupt touches: the planner's hand-over and the direction. */
  predicate SameMove(e: EngineState, r: EngineState)
  {
    && r.jerkConst == e.jerkConst && r.runSamples == e.runSamples && r.bounds == e.bounds
    && r.pins.dirX == e.pins.dirX && r.pins.dirY == e.pins.dirY
  }

  /** With no move in progress an interrupt only sets the LED off. */
  lemma TickIdle(e: EngineState)
    requires !e.busy
    ensures Tick(e) == e.(pins := e.pins.(led1 := false))
  {
  }

  /** An interrupt never starts a move, keeps the plan and the direction, and
      leaves the LED showing whether a move is in progress. */
  lemma TickFrame(e: EngineState)
    ensures Tick(e).busy ==> e.busy
    ensures Tick(e).pins.led1 == Tick(e).busy
    ensures SameMove(e, Tick(e))
  {
  }

  /** The integrate phase: the segment's jerk is integrated into acceleration,
      then speed, then fractional position; at most one step is taken, exactly
      when the new fractional position has bits above 2^40, and the fractional
      position is left in [0, 2^40). */
  lemma TickIntegrate(e: EngineState)
    requires e.busy && e.phase == 0
    ensures var r := Tick(e);
      && r.busy && r.phase == 1 && r.sample == e.sample + 1
      && r.jerk == SegmentJerk(e.sample, e.bounds, e.jerkConst)
      && r.accel == e.accel + r.jerk && r.speed == e.speed + r.accel
      && 0 <= r.fracPos < SCALE
      && (r.position == e.position + 1 <==> HighBitsSet(e.fracPos + r.speed))
      && (r.position == e.position || r.position == e.position + 1)
      && (r.position == e.position + 1 ==>
            r.fracPos == LowBits(e.fracPos + r.speed) && r.pins.stepX && r.pins.stepY)
      && (r.position == e.position ==>
            r.fracPos == e.fracPos + r.speed && r.pins.stepX == e.pins.stepX && r.pins.stepY == e.pins.stepY)
  {
  }

  /** The clear phase lowers both step pins and ends the move exactly when the
      sample count has reached runSamples. */
  lemma TickClear(e: EngineState)
    requires e.busy && e.phase != 0
    ensures var r := Tick(e);
      && r.phase == 0 && !r.pins.stepX && !r.pins.stepY
      && (r.busy <==> e.sample < e.runSamples)
      && r.sample == e.sample && r.accel == e.accel && r.speed == e.speed
      && r.fracPos == e.fracPos && r.position == e.position
  {
  }

  /** The step generator loses nothing while the speed is between zero and one
      step per sample: whole steps plus fraction advance by exactly the speed. */
  lemma TickLossless(e: EngineState)
    requires e.busy && e.phase == 0 && 0 <= e.fracPos < SCALE
    requires 0 <= Tick(e).speed <= SCALE
    ensures Tick(e).position * SCALE + Tick(e).fracPos == e.position * SCALE + e.fracPos + Tick(e).speed
  {
  }

  /** A negative speed out of [0, 2^40) passes the same test and is counted as
      a forward step. */
  lemma TickBackwardCountsForward(e: EngineState)
    requires e.busy && e.phase == 0 && 0 <= e.fracPos < SCALE
    requires e.fracPos + Tick(e).speed < 0
    ensures Tick(e).position == e.position + 1
  {
  }

  /** An idle engine stays idle: however many interrupts arrive, only the LED
      is switched off. */
  lemma {:induction false} IdleForever(e: EngineState, n: nat)
    requires !e.busy && n >= 1
    ensures Ticks(e, n) == e.(pins := e.pins.(led1 := false))
  {
    if n > 1 {
      IdleForever(e, n - 1);
    }
  }

  /** With no move ever committed the outputs keep their reset levels. */
  lemma PowerOnStaysIdle(n: nat)
    ensures !Ticks(PowerOn, n).busy && Ticks(PowerOn, n).pins == AllLow
  {
    if n >= 1 {
      IdleForever(PowerOn, n);
    }
  }

  /** The fractional position stays in [0, 2^40) from interrupt to interrupt. */
  lemma {:induction false} FracPosStaysInRange(e: EngineState, n: nat)
    requires 0 <= e.fracPos < SCALE
    ensures 0 <= Ticks(e, n).fracPos < SCALE
    ensures SameMove(e, Ticks(e, n))
  {
    if n > 0 {
      FracPosStaysInRange(e, n - 1);
    }
  }

  /** A move just committed, of runSamples >= 1 samples. */
  predicate Started(c: EngineState)
  {
    c.busy && c.sample == 0 && c.phase == 0 && c.runSamples >= 1
  }

  /** A committed move of R samples takes exactly 2R interrupts: after 2k of
      them (k <= R) sample k begins, in the integrate phase, and the move is
      still busy exactly when k < R; after 2k+1 (k < R) it is in the clear
      phase of sample k. */
  lemma {:induction false} MoveTiming(c: EngineState, k: nat)
    requires Started(c) && k <= c.runSamples
    ensures var e := Ticks(c, 2 * k);
      && e.sample == k && e.phase == 0 && (e.busy <==> k < c.runSamples) && SameMove(c, e)
    ensures k < c.runSamples ==> var e := Ticks(c, 2 * k + 1);
      && e.sample == k + 1 && e.phase == 1 && e.busy && SameMove(c, e)
  {
    if k > 0 {
      MoveTiming(c, k - 1);
      var e := Ticks(c, 2 * (k - 1) + 1);
      assert Ticks(c, 2 * k) == Tick(e);
    }
  }

  /** A committed move is over after 2R interrupts and the engine is then idle
      for good. */
  lemma MoveEnds(c: EngineState, n: nat)
    requires Started(c) && n >= 2 * c.runSamples
    ensures !Ticks(c, n).busy && !Ticks(c, n).pins.led1
  {
    MoveTiming(c, c.runSamples);
    var e := Ticks(c, 2 * c.runSamples);
    if n > 2 * c.runSamples {
      IdleForever(e, n - 2 * c.runSamples);
      TicksAdd(c, 2 * c.runSamples, n - 2 * c.runSamples);
    } else {
      assert Ticks(c, n) == Tick(Ticks(c, n - 1));
    }
  }

  lemma {:induction false} TicksAdd(e: EngineState, m: nat, n: nat)
    ensures Ticks(e, m + n) == Ticks(Ticks(e, m), n)
  {
    if n > 0 {
      TicksAdd(e, m, n - 1);
    }
  }
}
