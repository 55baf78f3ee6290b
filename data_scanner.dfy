/**
 * DataScanner of autogator/dataScanner.py: the raster alignment scan
 * (basic_scan) and its three-pass coarse-to-fine driver (auto_scan), run
 * against the ideal stage and detector of Instruments. Each method is proved
 * to do exactly what the Raster specification functions say.
 */
module DataScanning {
  import opened Wrappers
  import opened Instruments
  import opened Raster
  import opened Basics

  /** What auto_scan prints after a pass: a fresh detector reading and the stage position read back. */
  datatype PassReport = PassReport(reading: real, location: Pos)

  /** The stage position of a recorded best cell, if there is one. */
  function Located(g: Geometry, cell: Option<Cell>): Option<Pos>
  {
    match cell
    case None => None
    case Some(w) => Some(CellPosition(g, w.row, w.col))
  }

  /** The line auto_scan prints for a pass that found a peak. */
  function ReportOf(f: Found): (r: PassReport)
  {
    PassReport(f.peak, f.at)
  }

  /** The reports printed for a sequence of pass outcomes: one per pass that succeeded, in order. */
  function ReportsOf(outcomes: seq<Result<Found, ScanError>>): (r: seq<PassReport>)
    ensures |r| <= |outcomes|
  {
    if outcomes == [] then []
    else
      var last := outcomes[|outcomes| - 1];
      ReportsOf(outcomes[..|outcomes| - 1]) + if last.Ok? then [ReportOf(last.value)] else []
  }

  /** One more pass adds its report when it succeeds and nothing otherwise. */
  lemma ReportsOfSnoc(outcomes: seq<Result<Found, ScanError>>, r: Result<Found, ScanError>)
    ensures r.Ok? ==> ReportsOf(outcomes + [r]) == ReportsOf(outcomes) + [ReportOf(r.value)]
    ensures r.Err? ==> ReportsOf(outcomes + [r]) == ReportsOf(outcomes)
  {
    assert (outcomes + [r])[..|outcomes|] == outcomes;
  }

  /**
   * When every pass but possibly the last succeeded, there is one report per
   * pass except a failing last one, and report k is pass k's peak and parked
   * position.
   */
  lemma {:induction false} ReportsOfLeadingSuccesses(outcomes: seq<Result<Found, ScanError>>)
    requires forall k :: 0 <= k < |outcomes| - 1 ==> outcomes[k].Ok?
    ensures |ReportsOf(outcomes)| ==
              if outcomes != [] && outcomes[|outcomes| - 1].Err? then |outcomes| - 1 else |outcomes|
    ensures forall k :: 0 <= k < |ReportsOf(outcomes)| ==>
              outcomes[k].Ok? && ReportsOf(outcomes)[k] == ReportOf(outcomes[k].value)
  {
    if outcomes != [] {
      var init := outcomes[..|outcomes| - 1];
      ReportsOfLeadingSuccesses(init);
      assert forall k :: 0 <= k < |init| ==> init[k] == outcomes[k];
    }
  }

  /**
   * The reports of a coarse-to-fine chain: one per pass up to the first
   * failure, each the peak and parked position of its pass; a failing pass
   * reports nothing.
   */
  lemma ChainReports(signal: Pos -> real, start: Pos, passes: seq<(real, real)>)
    ensures var outs := CoarseToFine(signal, start, passes).outcomes;
      var reports := ReportsOf(outs);
      && |reports| == (if outs != [] && outs[|outs| - 1].Err? then |outs| - 1 else |outs|)
      && forall k :: 0 <= k < |reports| ==> outs[k].Ok? && reports[k] == ReportOf(outs[k].value)
  {
    CoarseToFineShape(signal, start, passes);
    ReportsOfLeadingSuccesses(CoarseToFine(signal, start, passes).outcomes);
  }

  class DataScanner {
    const oscope: Oscilloscope
    const motion: Motion

    /** The oscilloscope set-up the original performs here is driver configuration and is not modelled. */
    constructor (oscope: Oscilloscope, motion: Motion)
      ensures this.oscope == oscope && this.motion == motion
    {
      this.oscope := oscope;
      this.motion := motion;
    }

    /**
     * basic_scan: centre a square of side `sweepDistance` on the current
     * position, read the detector on every cell of an edge-by-edge serpentine
     * raster with jog step `stepSize`, keep the strictly greatest reading with
     * the stage position read back at that moment, and move there. The grid
     * of readings is returned as well; the original discards it.
     */
    method BasicScan(sweepDistance: real, stepSize: real) returns (r: Result<Found, ScanError>, data: array2?<real>)
      modifies motion, oscope
      ensures var p := SinglePass(oscope.signal, old(motion.State().at), sweepDistance, stepSize);
        && r == p.outcome
        && motion.trace == old(motion.trace) + p.commands
        && oscope.readings == old(oscope.readings) + p.readings
        && motion.State() == Replay(old(motion.State()), p.commands)
      ensures motion.jog == stepSize
      ensures r.Ok? ==> motion.State().at == r.value.at
      ensures data != null <==> stepSize != 0.0 && EdgeCount(sweepDistance, stepSize) >= 0
      ensures data != null ==>
        && fresh(data)
        && var g := PassGeometry(old(motion.State().at), sweepDistance, stepSize);
        && data.Length0 == g.edge && data.Length1 == g.edge
        && forall i, j :: 0 <= i < g.edge && 0 <= j < g.edge ==> data[i, j] == Sample(oscope.signal, g, i, j)
    {
      ghost var st0, st0trace := motion.State(), motion.trace;
      ghost var reads0 := oscope.readings;
      ghost var p := SinglePass(oscope.signal, st0.at, sweepDistance, stepSize);

      var maxData: real := 0.0;
      var maxDataLoc: Option<Pos> := None;

      var x := motion.GetMotorPosition(XAxis);
      var xStartPlace := x - sweepDistance / 2.0;
      var y := motion.GetMotorPosition(YAxis);
      var yStartPlace := y - sweepDistance / 2.0;
      motion.GoToStageCoordinates(xStartPlace, yStartPlace);
      motion.SetJogStepLinear(stepSize);
      ghost var prologue := [GoTo(xStartPlace, yStartPlace), SetJog(stepSize)];
      PairAppend(GoTo(xStartPlace, yStartPlace), SetJog(stepSize));
      AppendAssoc(st0trace, [GoTo(xStartPlace, yStartPlace)], [SetJog(stepSize)]);

      if stepSize == 0.0 {
        assert p == Pass(Err(ZeroStepSize), prologue, []);
        assert motion.State() == Replay(st0, p.commands) by {
          SinglePassEndsAt(oscope.signal, st0.at, st0.jog, sweepDistance, stepSize);
        }
        return Err(ZeroStepSize), null;
      }
      var edge := RoundHalfEven(sweepDistance / stepSize);
      if edge < 0 {
        assert p == Pass(Err(NegativeEdgeCount), prologue, []);
        assert motion.State() == Replay(st0, p.commands) by {
          SinglePassEndsAt(oscope.signal, st0.at, st0.jog, sweepDistance, stepSize);
        }
        return Err(NegativeEdgeCount), null;
      }
      data := new real[edge, edge]((_, _) => 0.0);
      ghost var g := PassGeometry(st0.at, sweepDistance, stepSize);
      ghost var bestCell;
      maxData, maxDataLoc, bestCell := ScanRaster(edge, data, g);
      AppendAssoc(st0trace, prologue, RasterCommands(edge, edge));

      match maxDataLoc
      case None =>
        r := Err(NoPositiveReading);
        assert p == Pass(r, prologue + RasterCommands(edge, edge), Samples(oscope.signal, g, edge));
        assert motion.State() == Replay(st0, p.commands) by {
          SinglePassEndsAt(oscope.signal, st0.at, st0.jog, sweepDistance, stepSize);
        }
      case Some(loc) =>
        motion.GoToStageCoordinates(loc.x, loc.y);
        AppendAssoc(st0trace, prologue + RasterCommands(edge, edge), [GoTo(loc.x, loc.y)]);
        r := Ok(Found(maxData, loc));
        assert p == Pass(r, prologue + RasterCommands(edge, edge) + [GoTo(loc.x, loc.y)], Samples(oscope.signal, g, edge));
        assert motion.State() == Replay(st0, p.commands) by {
          SinglePassEndsAt(oscope.signal, st0.at, st0.jog, sweepDistance, stepSize);
        }
    }

    /**
     * The two nested loops of basic_scan: every row of the raster in turn,
     * the row direction alternating, with an x step after each row. The best
     * reading starts at zero, so only a positive reading is ever recorded.
     */
    method ScanRaster(edge: nat, data: array2<real>, ghost g: Geometry)
      returns (maxData: real, maxDataLoc: Option<Pos>, ghost bestCell: Option<Cell>)
      requires g.edge == edge && data.Length0 == edge && data.Length1 == edge
      requires motion.State() == StageState(CellPosition(g, 0, 0), g.step)
      requires forall r, c :: 0 <= r < edge && 0 <= c < edge ==> data[r, c] == 0.0
      modifies motion, oscope, data
      ensures motion.State() == StageState(CellPosition(g, edge, 0), g.step)
      ensures motion.trace == old(motion.trace) + RasterCommands(edge, edge)
      ensures oscope.readings == old(oscope.readings) + Samples(oscope.signal, g, edge)
      ensures Best(maxData, bestCell) == Peak(oscope.signal, g)
      ensures maxDataLoc == Located(g, bestCell)
      ensures forall r, c :: 0 <= r < edge && 0 <= c < edge ==> data[r, c] == Sample(oscope.signal, g, r, c)
    {
      ghost var trace0 := motion.trace;
      ghost var reads0 := oscope.readings;
      maxData, maxDataLoc, bestCell := 0.0, None, None;
      var movingDown := false;

      for i := 0 to edge
        invariant motion.State() == StageState(CellPosition(g, i, 0), g.step)
        invariant motion.trace == trace0 + RasterCommands(edge, i)
        invariant oscope.readings == reads0 + Samples(oscope.signal, g, i)
        invariant movingDown == (RowDirection(i) == Backward)
        invariant Best(maxData, bestCell) == TrackRows(oscope.signal, g, i)
        invariant maxDataLoc == Located(g, bestCell)
        invariant forall r, c :: 0 <= r < edge && 0 <= c < edge ==>
                    data[r, c] == if r < i then Sample(oscope.signal, g, r, c) else 0.0
      {
        maxData, maxDataLoc, bestCell := ScanRow(i, edge, data, movingDown, maxData, maxDataLoc, g, bestCell);
        if movingDown {
          movingDown := false;
        } else {
          movingDown := true;
        }
        motion.MoveStep(XAxis, Forward);
        StepToNextRow(g, i);
        AppendAssoc(trace0 + RasterCommands(edge, i), YSteps(RowDirection(i), edge), [MoveStep(XAxis, Forward)]);
        AppendAssoc(trace0, RasterCommands(edge, i), RowCommands(edge, i));
        AppendAssoc(reads0, Samples(oscope.signal, g, i), RowSamples(oscope.signal, g, i, edge));
        RowDirectionAlternates(i);
      }
    }

    /**
     * One iteration of basic_scan's outer loop without its final x step:
     * row `row` of the raster. At each column it reads the detector into
     * data[row, col], keeps a strictly greater reading with the stage
     * position read back at that moment, and steps y in the row's direction.
     */
    method ScanRow(row: nat, edge: nat, data: array2<real>, movingDown: bool, maxData: real, maxDataLoc: Option<Pos>,
                   ghost g: Geometry, ghost bestCell: Option<Cell>)
      returns (maxData': real, maxDataLoc': Option<Pos>, ghost bestCell': Option<Cell>)
      requires g.edge == edge && row < edge && data.Length0 == edge && data.Length1 == edge
      requires movingDown == (RowDirection(row) == Backward)
      requires motion.State() == StageState(CellPosition(g, row, 0), g.step)
      requires maxDataLoc == Located(g, bestCell)
      requires forall r, c :: 0 <= r < g.edge && 0 <= c < g.edge ==>
                 data[r, c] == if r < row then Sample(oscope.signal, g, r, c) else 0.0
      modifies motion, oscope, data
      ensures motion.State() == StageState(CellPosition(g, row, g.edge), g.step)
      ensures motion.trace == old(motion.trace) + YSteps(RowDirection(row), g.edge)
      ensures oscope.readings == old(oscope.readings) + RowSamples(oscope.signal, g, row, g.edge)
      ensures Best(maxData', bestCell') == TrackRow(oscope.signal, g, row, g.edge, Best(maxData, bestCell))
      ensures maxDataLoc' == Located(g, bestCell')
      ensures forall r, c :: 0 <= r < g.edge && 0 <= c < g.edge ==>
                data[r, c] == if r <= row then Sample(oscope.signal, g, r, c) else 0.0
    {
      ghost var trace0 := motion.trace;
      ghost var reads0 := oscope.readings;
      maxData', maxDataLoc', bestCell' := maxData, maxDataLoc, bestCell;
      for col := 0 to edge
        invariant motion.State() == StageState(CellPosition(g, row, col), g.step)
        invariant motion.trace == trace0 + YSteps(RowDirection(row), col)
        invariant oscope.readings == reads0 + RowSamples(oscope.signal, g, row, col)
        invariant Best(maxData', bestCell') == TrackRow(oscope.signal, g, row, col, Best(maxData, bestCell))
        invariant maxDataLoc' == Located(g, bestCell')
        invariant forall r, c :: 0 <= r < g.edge && 0 <= c < g.edge ==>
                    data[r, c] == if Precedes(r, c, row, col) then Sample(oscope.signal, g, r, c) else 0.0
      {
        maxData', maxDataLoc', bestCell' :=
          ReadCell(row, col, data, movingDown, maxData', maxDataLoc', g, Best(maxData, bestCell), bestCell');
        AppendAssoc(trace0, YSteps(RowDirection(row), col), [MoveStep(YAxis, RowDirection(row))]);
        AppendAssoc(reads0, RowSamples(oscope.signal, g, row, col), [Sample(oscope.signal, g, row, col)]);
      }
    }

    /**
     * One iteration of basic_scan's inner loop: read the detector into
     * data[row, col], keep the reading and the stage position read back if
     * the reading is strictly greater than the best so far, and step y in the
     * row's direction.
     */
    method ReadCell(row: nat, col: nat, data: array2<real>, movingDown: bool, maxData: real, maxDataLoc: Option<Pos>,
                    ghost g: Geometry, ghost rowStart: Best, ghost bestCell: Option<Cell>)
      returns (maxData': real, maxDataLoc': Option<Pos>, ghost bestCell': Option<Cell>)
      requires row < g.edge && col < g.edge && data.Length0 == g.edge && data.Length1 == g.edge
      requires movingDown == (RowDirection(row) == Backward)
      requires motion.State() == StageState(CellPosition(g, row, col), g.step)
      requires Best(maxData, bestCell) == TrackRow(oscope.signal, g, row, col, rowStart)
      requires maxDataLoc == Located(g, bestCell)
      requires forall r, c :: 0 <= r < g.edge && 0 <= c < g.edge ==>
                 data[r, c] == if Precedes(r, c, row, col) then Sample(oscope.signal, g, r, c) else 0.0
      modifies motion, oscope, data
      ensures motion.State() == StageState(CellPosition(g, row, col + 1), g.step)
      ensures motion.trace == old(motion.trace) + [MoveStep(YAxis, RowDirection(row))]
      ensures oscope.readings == old(oscope.readings) + [Sample(oscope.signal, g, row, col)]
      ensures Best(maxData', bestCell') == TrackRow(oscope.signal, g, row, col + 1, rowStart)
      ensures maxDataLoc' == Located(g, bestCell')
      ensures forall r, c :: 0 <= r < g.edge && 0 <= c < g.edge ==>
                data[r, c] == if Precedes(r, c, row, col + 1) then Sample(oscope.signal, g, r, c) else 0.0
    {
      var v := oscope.Measure(motion);
      data[row, col] := v;
      maxData', maxDataLoc', bestCell' := maxData, maxDataLoc, bestCell;
      if data[row, col] > maxData {
        maxData' := data[row, col];
        var px := motion.GetMotorPosition(XAxis);
        var py := motion.GetMotorPosition(YAxis);
        maxDataLoc' := Some(Pos(px, py));
        bestCell' := Some(Cell(row, col));
      }
      if movingDown {
        motion.MoveStep(YAxis, Backward);
      } else {
        motion.MoveStep(YAxis, Forward);
      }
      StepAlongRow(g, row, col);
    }

    /**
     * One step of auto_scan: a basic_scan pass, and when it succeeds a fresh
     * detector reading and the stage position read back, which the original
     * prints. The grid of readings is dropped, as in the original.
     */
    method ReportedPass(sweepDistance: real, stepSize: real)
      returns (r: Result<Found, ScanError>, report: Option<PassReport>, ghost p: Pass)
      modifies motion, oscope
      ensures p == SinglePass(oscope.signal, old(motion.State().at), sweepDistance, stepSize) && r == p.outcome
      ensures motion.trace == old(motion.trace) + p.commands
      ensures motion.State() == Replay(old(motion.State()), p.commands)
      ensures oscope.readings == old(oscope.readings) + ReportedReadings(oscope.signal, p)
      ensures motion.State().jog == stepSize
      ensures report.Some? <==> r.Ok?
      ensures r.Ok? ==> report.value == ReportOf(r.value) && motion.State().at == r.value.at
    {
      p := SinglePass(oscope.signal, motion.State().at, sweepDistance, stepSize);
      var data;
      r, data := BasicScan(sweepDistance, stepSize);
      if r.Err? {
        return r, None, p;
      }
      var reading := oscope.Measure(motion);
      var x := motion.GetMotorPosition(XAxis);
      var y := motion.GetMotorPosition(YAxis);
      report := Some(PassReport(reading, Pos(x, y)));
      SinglePassOutcome(oscope.signal, old(motion.State().at), sweepDistance, stepSize);
    }

    /**
     * auto_scan: three passes of basic_scan, coarse to fine, each starting
     * where the previous one parked the stage. After each pass the detector
     * is read again and the stage position read back, for the console.
     * A failing pass ends the sequence.
     */
    method AutoScan() returns (outcomes: seq<Result<Found, ScanError>>, reports: seq<PassReport>)
      modifies motion, oscope
      ensures var run := CoarseToFine(oscope.signal, old(motion.State().at), AutoScanPasses);
        && outcomes == run.outcomes
        && motion.trace == old(motion.trace) + run.commands
        && oscope.readings == old(oscope.readings) + run.readings
        && motion.State() == Replay(old(motion.State()), run.commands)
      ensures reports == ReportsOf(outcomes)
      ensures outcomes[|outcomes| - 1].Ok? ==> motion.State().at == outcomes[|outcomes| - 1].value.at
    {
      ghost var signal, start := oscope.signal, motion.State().at;
      ghost var trace0, reads0 := motion.trace, oscope.readings;
      ghost var st0 := motion.State();

      var r1, report1, p1 := ReportedPass(0.025, 0.005);
      ghost var p2, p3 := p1, p1;
      ReportsOfSnoc([], r1);
      EmptyAppend([r1]);
      outcomes, reports := [r1], [];
      if r1.Ok? {
        EmptyAppend([report1.value]);
        reports := [report1.value];

        var r2, report2;
        r2, report2, p2 := ReportedPass(0.01, 0.001);
        AppendAssoc(trace0, p1.commands, p2.commands);
        AppendAssoc(reads0, ReportedReadings(signal, p1), ReportedReadings(signal, p2));
        ReplayAppend(st0, p1.commands, p2.commands);
        ReportsOfSnoc(outcomes, r2);
        outcomes := outcomes + [r2];
        if r2.Ok? {
          reports := reports + [report2.value];

          var r3, report3;
          r3, report3, p3 := ReportedPass(0.001, 0.0005);
          AppendAssoc(p1.commands, p2.commands, p3.commands);
          AppendAssoc(trace0, p1.commands + p2.commands, p3.commands);
          AppendAssoc(ReportedReadings(signal, p1), ReportedReadings(signal, p2), ReportedReadings(signal, p3));
          AppendAssoc(reads0, ReportedReadings(signal, p1) + ReportedReadings(signal, p2), ReportedReadings(signal, p3));
          AppendAssoc([r1], [r2], [r3]);
          ReplayAppend(st0, p1.commands + p2.commands, p3.commands);
          ReportsOfSnoc(outcomes, r3);
          outcomes := outcomes + [r3];
          if r3.Ok? {
            reports := reports + [report3.value];
          }
        }
      }
      AutoScanChain(signal, start, p1, p2, p3);
    }
  }
}
