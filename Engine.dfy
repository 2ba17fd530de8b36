/** The movement engine of stepper02: the gMove* globals, the segment
    boundary table and the output pins as the fields of one object, with
    move_Init, move_DoMove and the timer interrupt move_IsrHandler as its
    methods. Each method is specified by the pure model of Planner and
    Integrator. */
module Engine {
  import opened FixedPoint
  import opened Planner
  import opened Integrator

  /** Lines 313-403 of move_DoMove: the sign of the request is split off,
      the six move_pvajt calls give the speed at the end of segment 3 and the
      distance of the ramps, the distance left for segment 4 is checked, and
      the boundary table is summed up. Nothing is written. */
  method ComputePlan(x: int, jerkAmount: int, totalAccelSamples: int, seg1Samples: int, seg4Samples: int)
      returns (r: PlanResult)
    requires PlanFits(x, jerkAmount, totalAccelSamples, seg1Samples, seg4Samples)
    ensures r == PlanMove(x, jerkAmount, totalAccelSamples, seg1Samples, seg4Samples)
  {
    PlanMoveOutcome(x, jerkAmount, totalAccelSamples, seg1Samples, seg4Samples);
    var xDir := CW;
    var xSteps := x;
    if x < 0 {
      xDir := CCW;
      xSteps := -x;
    }
    var moveSteps := xSteps * SCALE;
    assert moveSteps == Magnitude(x) * SCALE;

    var seg3Samples := seg1Samples;
    var seg2Samples := totalAccelSamples - seg1Samples - seg3Samples;
    var seg5Samples, seg6Samples, seg7Samples := seg3Samples, seg2Samples, seg1Samples;

    // lines 353-366: the six move_pvajt calls
    var ends := Profile(jerkAmount, seg1Samples, seg2Samples);
    var v3 := ends.cruise.v;

    var seg4Move := moveSteps - ends.tail.p;
    if seg4Move < 0 {
      return Rejected(MoveTooShort);
    }
    if v3 <= 0 {
      return Rejected(NoPositiveCruise);
    }

    var seg7 := seg1Samples + seg2Samples + seg3Samples + seg4Samples + seg5Samples + seg6Samples + seg7Samples;
    var table := Boundaries(
      seg1Samples,
      seg1Samples + seg2Samples,
      seg1Samples + seg2Samples + seg3Samples,
      seg1Samples + seg2Samples + seg3Samples + seg4Samples,
      seg1Samples + seg2Samples + seg3Samples + seg4Samples + seg5Samples,
      seg1Samples + seg2Samples + seg3Samples + seg4Samples + seg5Samples + seg6Samples,
      seg7);
    r := Accepted(MovePlan(xDir, jerkAmount, table, seg7 + 1));
  }

  class MotionEngine {
    var busy: bool
    var jerkConst: int
    var sample: int
    var phase: int
    var jerk: int
    var accel: int
    var speed: int
    var fracPos: int
    var position: int
    var runSamples: int
    var seg1End: int
    var seg2End: int
    var seg3End: int
    var seg4End: int
    var seg5End: int
    var seg6End: int
    var seg7End: int
    var led1: bool
    var stepX: bool
    var dirX: bool
    var stepY: bool
    var dirY: bool

    /** The fields read as one value of the pure model. */
    function State(): EngineState
      reads this
    {
      EngineState(busy, jerkConst, sample, phase, jerk, accel, speed, fracPos, position,
        runSamples, Boundaries(seg1End, seg2End, seg3End, seg4End, seg5End, seg6End, seg7End),
        Pins(led1, stepX, dirX, stepY, dirY))
    }

    /** main before the timer starts: the LED off (line 111), move_Init
        (line 121) and all outputs low (lines 124-128). */
    constructor ()
      ensures State() == PowerOn
    {
      new;
      led1 := false;
      Init();
      SetOutputs(false, false, false);
    }

    /** move_Init (lines 287-306): no move, zero motion state, empty table. */
    method Init()
      modifies this
      ensures State() == Reset(old(State()))
    {
      SetMotion(false, 0);
      SetTable(NoBoundaries, 0);
    }

    /** The motion registers as move_Init (lines 289-297) and the start of a
        move (lines 416-424) write them: everything from rest, with the given
        busy flag and jerk. */
    method SetMotion(moving: bool, jerkPerSample: int)
      modifies this`busy, this`jerkConst, this`sample, this`phase, this`jerk
      modifies this`accel, this`speed, this`fracPos, this`position
      ensures State() == old(State()).(busy := moving, jerkConst := jerkPerSample, sample := 0, phase := 0,
        jerk := 0, accel := 0, speed := 0, fracPos := 0, position := 0)
    {
      WriteMotion(moving, jerkPerSample);
    }

    method WriteMotion(moving: bool, jerkPerSample: int)
      modifies this`busy, this`jerkConst, this`sample, this`phase, this`jerk
      modifies this`accel, this`speed, this`fracPos, this`position
      ensures busy == moving && jerkConst == jerkPerSample && sample == 0 && phase == 0
      ensures jerk == 0 && accel == 0 && speed == 0 && fracPos == 0 && position == 0
    {
      busy := moving;
      jerkConst := jerkPerSample;
      sample := 0;
      phase := 0;
      jerk := 0;
      accel := 0;
      speed := 0;
      fracPos := 0;
      position := 0;
    }

    /** The boundary table and the run length (lines 298-305 and 393-403). */
    method SetTable(b: Boundaries, samples: int)
      modifies this`seg1End, this`seg2End, this`seg3End, this`seg4End
      modifies this`seg5End, this`seg6End, this`seg7End, this`runSamples
      ensures State() == old(State()).(bounds := b, runSamples := samples)
    {
      WriteTable(b, samples);
    }

    method WriteTable(b: Boundaries, samples: int)
      modifies this`seg1End, this`seg2End, this`seg3End, this`seg4End
      modifies this`seg5End, this`seg6End, this`seg7End, this`runSamples
      ensures Boundaries(seg1End, seg2End, seg3End, seg4End, seg5End, seg6End, seg7End) == b
      ensures runSamples == samples
    {
      seg1End := b.seg1End;
      seg2End := b.seg2End;
      seg3End := b.seg3End;
      seg4End := b.seg4End;
      seg5End := b.seg5End;
      seg6End := b.seg6End;
      seg7End := b.seg7End;
      runSamples := samples;
    }

    /** move_DoMove (lines 309-429) from the fixed-point jerk on: the plan
        is computed by ComputePlan, and an accepted move writes the boundary
        table, the direction pins and the start of the move. The result is the
        outcome the console reports. Unlike the source, a move whose cruise
        speed is not positive is rejected (NoPositiveCruise) before anything is
        written: the source divides by that speed at line 371 and accepts the
        move. */
    method DoMove(x: int, jerkAmount: int, totalAccelSamples: int, seg1Samples: int, seg4Samples: int)
        returns (r: PlanResult)
      requires PlanFits(x, jerkAmount, totalAccelSamples, seg1Samples, seg4Samples)
      modifies this
      ensures r == PlanMove(x, jerkAmount, totalAccelSamples, seg1Samples, seg4Samples)
      ensures State() == ApplyPlan(old(State()), r)
    {
      r := ComputePlan(x, jerkAmount, totalAccelSamples, seg1Samples, seg4Samples);
      if r.Accepted? {
        CommitPlan(r.plan);
      }
    }

    /** Lines 393-425: an accepted plan is handed to the interrupt. The
        source masks the interrupt only for lines 411-427, the direction
        pins and the start of the move; the table and runSamples are written
        before that. The model takes the whole hand-over as one step. */
    method CommitPlan(plan: MovePlan)
      modifies this
      ensures State() == Commit(old(State()), plan)
    {
      SetTable(plan.bounds, plan.runSamples);
      SetDirection(if plan.dir == CW then false else true);
      SetMotion(true, plan.jerk);
    }

    /** Lines 124-128: the LED, step and direction outputs of both axes. */
    method SetOutputs(led: bool, step: bool, dir: bool)
      modifies this`led1, this`stepX, this`dirX, this`stepY, this`dirY
      ensures led1 == led && stepX == step && dirX == dir && stepY == step && dirY == dir
    {
      led1 := led;
      stepX := step;
      dirX := dir;
      stepY := step;
      dirY := dir;
    }

    /** Lines 413-414: both axes turn the same way. */
    method SetDirection(level: bool)
      modifies this`dirX, this`dirY
      ensures State() == old(State()).(pins := old(State()).pins.(dirX := level, dirY := level))
    {
      dirX := level;
      dirY := level;
    }

    /** move_IsrHandler (lines 441-506): one timer interrupt. */
    method IsrHandler()
      modifies this
      ensures State() == Tick(old(State()))
    {
      if busy {
        if phase == 0 {
          IntegrateSample();
        } else {
          EndSample();
        }
      }
      led1 := busy;
    }

    /** Lines 446-488: the integrate phase of one sample. */
    method IntegrateSample()
      modifies this
      ensures State() == IntegratePhase(old(State()))
    {
      phase := 1;
      SelectJerk();
      IntegrateJerk();
      TakeStep();
      sample := sample + 1;
    }

    /** Lines 469-477: jerk into acceleration, acceleration into speed, speed
        into the fractional position, in that order. */
    method IntegrateJerk()
      modifies this`accel, this`speed, this`fracPos
      ensures var e := old(State());
        State() == e.(accel := e.accel + e.jerk, speed := e.speed + e.accel + e.jerk,
                      fracPos := e.fracPos + e.speed + e.accel + e.jerk)
    {
      accel := accel + jerk;
      speed := speed + accel;
      fracPos := fracPos + speed;
    }

    /** Lines 479-486: a step when the fractional position has left [0, 2^40). */
    method TakeStep()
      modifies this`stepX, this`stepY, this`fracPos, this`position
      ensures var e := old(State());
        State() == if HighBitsSet(e.fracPos)
          then e.(fracPos := LowBits(e.fracPos), position := e.position + 1, pins := e.pins.(stepX := true, stepY := true))
          else e
    {
      if HighBitsSet(fracPos) {
        stepX := true;
        stepY := true;
        fracPos := LowBits(fracPos);
        position := position + 1;
      }
    }

    /** Lines 451-467: the jerk of the segment the current sample lies in. */
    method SelectJerk()
      modifies this`jerk
      ensures var e := old(State());
        State() == e.(jerk := SegmentJerk(e.sample, e.bounds, e.jerkConst))
    {
      if sample < seg1End {
        jerk := jerkConst;
      } else if sample < seg2End {
        jerk := 0;
      } else if sample < seg3End {
        jerk := -jerkConst;
      } else if sample < seg4End {
        jerk := 0;
      } else if sample < seg5End {
        jerk := -jerkConst;
      } else if sample < seg6End {
        jerk := 0;
      } else if sample < seg7End {
        jerk := jerkConst;
      } else {
        jerk := 0;
      }
    }

    /** Lines 489-501: the clear phase of one sample. */
    method EndSample()
      modifies this
      ensures State() == ClearPhase(old(State()))
    {
      phase := 0;
      if sample >= runSamples {
        busy := false;
      }
      stepX := false;
      stepY := false;
    }
  }
}
