/**
 * The two instruments the alignment scan drives: the motorised XY stage and
 * the oscilloscope used as a scalar detector. Both are external drivers; they
 * are modelled here as ideal devices. The stage moves exactly where it is told
 * and records every command it receives; the detector reads the optical
 * coupling at the stage's current position.
 */
module Instruments {

  /** A stage position, one coordinate per linear axis, in stage units. */
  datatype Pos = Pos(x: real, y: real)

  datatype Axis = XAxis | YAxis

  datatype Direction = Forward | Backward

  /** A command the scanner sends to the stage driver. */
  datatype Command =
    | GoTo(x: real, y: real)              // absolute move (go_to_stage_coordinates)
    | SetJog(step: real)                  // set the linear jog step (set_jog_step_linear)
    | MoveStep(axis: Axis, dir: Direction) // one jog step on one axis (move_step)

  /** What an ideal stage holds: where it is and how far one jog moves it. */
  datatype StageState = StageState(at: Pos, jog: real)

  /** The signed distance one jog step in direction `dir` covers. */
  function Signed(dir: Direction, jog: real): real
  {
    if dir == Forward then jog else -jog
  }

  /** The effect of one command on an ideal stage. */
  function Apply(st: StageState, c: Command): StageState
  {
    match c
    case GoTo(x, y) => StageState(Pos(x, y), st.jog)
    case SetJog(step) => StageState(st.at, step)
    case MoveStep(XAxis, dir) => StageState(Pos(st.at.x + Signed(dir, st.jog), st.at.y), st.jog)
    case MoveStep(YAxis, dir) => StageState(Pos(st.at.x, st.at.y + Signed(dir, st.jog)), st.jog)
  }

  /** The state an ideal stage reaches after executing `cmds` in order. */
  function Replay(st: StageState, cmds: seq<Command>): StageState
    decreases |cmds|
  {
    if cmds == [] then st else Apply(Replay(st, cmds[..|cmds| - 1]), cmds[|cmds| - 1])
  }

  /** Executing two command lists one after the other is executing their concatenation. */
  lemma {:induction false} ReplayAppend(st: StageState, a: seq<Command>, b: seq<Command>)
    ensures Replay(st, a + b) == Replay(Replay(st, a), b)
    decreases |b|
  {
    if b == [] {
      assert a + b == a;
    } else {
      var b' := b[..|b| - 1];
      assert (a + b)[..|a + b| - 1] == a + b';
      ReplayAppend(st, a, b');
    }
  }

  /**
   * The motion controller. Its position and jog step change only through the
   * commands below, and every command is appended to `trace`.
   */
  class Motion {
    var x: real
    var y: real
    var jog: real
    var trace: seq<Command>

    function State(): StageState
      reads this
    {
      StageState(Pos(x, y), jog)
    }

    constructor (x0: real, y0: real, jog0: real)
      ensures State() == StageState(Pos(x0, y0), jog0) && trace == []
    {
      x, y, jog := x0, y0, jog0;
      trace := [];
    }

    /** get_motor_position: reads one axis, changes nothing. */
    method GetMotorPosition(axis: Axis) returns (p: real)
      ensures axis == XAxis ==> p == State().at.x
      ensures axis == YAxis ==> p == State().at.y
    {
      p := if axis == XAxis then x else y;
    }

    /** go_to_stage_coordinates: an absolute move that keeps the jog step. */
    method GoToStageCoordinates(gx: real, gy: real)
      modifies this
      ensures State() == Apply(old(State()), GoTo(gx, gy))
      ensures trace == old(trace) + [GoTo(gx, gy)]
    {
      x, y := gx, gy;
      trace := trace + [GoTo(gx, gy)];
    }

    /** set_jog_step_linear: changes the jog step only. */
    method SetJogStepLinear(step: real)
      modifies this
      ensures State() == Apply(old(State()), SetJog(step))
      ensures trace == old(trace) + [SetJog(step)]
    {
      jog := step;
      trace := trace + [SetJog(step)];
    }

    /** move_step: one jog step on one axis, forward adding and backward subtracting the jog step. */
    method MoveStep(axis: Axis, dir: Direction)
      modifies this
      ensures State() == Apply(old(State()), Command.MoveStep(axis, dir))
      ensures trace == old(trace) + [Command.MoveStep(axis, dir)]
    {
      if axis == XAxis {
        x := x + Signed(dir, jog);
      } else {
        y := y + Signed(dir, jog);
      }
      trace := trace + [Command.MoveStep(axis, dir)];
    }
  }

  /**
   * The oscilloscope's automatic measurement. `signal` is the coupling the
   * detector sees at each stage position; `readings` logs every measurement.
   */
  class Oscilloscope {
    const signal: Pos -> real
    var readings: seq<real>

    constructor (signal: Pos -> real)
      ensures this.signal == signal && readings == []
    {
      this.signal := signal;
      readings := [];
    }

    /** measure: reads the detector at the stage's current position. */
    method Measure(stage: Motion) returns (v: real)
      modifies this
      ensures v == signal(stage.State().at)
      ensures readings == old(readings) + [v]
    {
      v := signal(Pos(stage.x, stage.y));
      readings := readings + [v];
    }
  }
}
