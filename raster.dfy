/**
 * The specification of the alignment scan of autogator/dataScanner.py as
 * pure functions: the grid size, where each cell is read, the commands the
 * stage receives, the running maximum, and what one pass and a chain of
 * coarse-to-fine passes produce. The imperative scanner in DataScanning is
 * proved to behave exactly as these functions say; the lemmas here state
 * what that behaviour means.
 */
module Raster {
  import opened Wrappers
  import opened Instruments
  import opened Basics

  // ---------------------------------------------------------------------------
  // Grid size

  /** Python's round(): the nearest integer, a tie going to the even neighbour. */
  function RoundHalfEven(q: real): (n: int)
    ensures q - 0.5 <= n as real <= q + 0.5
    ensures (n as real - q == 0.5 || q - n as real == 0.5) ==> n % 2 == 0
  {
    var f := q.Floor;
    var frac := q - f as real;
    if frac < 0.5 then f
    else if frac > 0.5 then f + 1
    else if f % 2 == 0 then f else f + 1
  }

  /** edge_Num: the number of cells along each side of the square grid. */
  function EdgeCount(sweepDistance: real, stepSize: real): (n: int)
    requires stepSize != 0.0
    ensures sweepDistance / stepSize - 0.5 <= n as real <= sweepDistance / stepSize + 0.5
  {
    RoundHalfEven(sweepDistance / stepSize)
  }

  // ---------------------------------------------------------------------------
  // Geometry of the serpentine raster

  /** A square grid: its first cell, the jog step, and the number of cells per side. */
  datatype Geometry = Geometry(origin: Pos, step: real, edge: nat)

  /** The corner the raster starts from: half the sweep distance back on both axes. */
  function ScanOrigin(start: Pos, sweepDistance: real): (o: Pos)
    ensures (o.x + (o.x + sweepDistance)) / 2.0 == start.x && (o.y + (o.y + sweepDistance)) / 2.0 == start.y
  {
    Pos(start.x - sweepDistance / 2.0, start.y - sweepDistance / 2.0)
  }

  /** The y direction used throughout row `row`: moving_down is False on even rows. */
  function RowDirection(row: nat): Direction
  {
    if row % 2 == 0 then Forward else Backward
  }

  lemma RowDirectionAlternates(row: nat)
    ensures RowDirection(row + 1) == if RowDirection(row) == Forward then Backward else Forward
  {
  }

  /**
   * How many jog steps above the origin's y the stage is when it reads
   * column `col` of row `row`. Every row ends with one more y step after its
   * last reading, so an odd row runs from `edge` down to 1.
   */
  function ColumnOffset(edge: nat, row: nat, col: nat): (k: int)
    ensures col <= edge ==> 0 <= k <= edge
    ensures row % 2 == 1 && col < edge ==> 1 <= k
  {
    if row % 2 == 0 then col else edge - col
  }

  /** Where an ideal stage stands when it reads cell (row, col). */
  function CellPosition(g: Geometry, row: nat, col: nat): Pos
  {
    Pos(g.origin.x + Steps(row, g.step),
        g.origin.y + Steps(ColumnOffset(g.edge, row, col), g.step))
  }

  /**
   * The distance covered by k jog steps of size `step`, backwards when k is
   * negative. It is k * step (StepsIsProduct), written as repeated addition
   * so that reasoning about one more step stays linear.
   */
  function Steps(k: int, step: real): real
    decreases if k < 0 then -k else k
  {
    if k == 0 then 0.0
    else if k > 0 then Steps(k - 1, step) + step
    else Steps(k + 1, step) - step
  }

  lemma {:induction false} StepsIsProduct(k: int, step: real)
    ensures Steps(k, step) == k as real * step
    decreases if k < 0 then -k else k
  {
    if k > 0 {
      StepsIsProduct(k - 1, step);
    } else if k < 0 {
      StepsIsProduct(k + 1, step);
    }
  }

  // ---------------------------------------------------------------------------
  // Commands of the raster

  /** `count` jog steps on the y axis, all in direction `dir`. */
  function YSteps(dir: Direction, count: nat): seq<Command>
    decreases count
  {
    if count == 0 then [] else YSteps(dir, count - 1) + [MoveStep(YAxis, dir)]
  }

  /** One row: a y step after each of the `edge` readings, then one x step forward. */
  function RowCommands(edge: nat, row: nat): seq<Command>
  {
    YSteps(RowDirection(row), edge) + [MoveStep(XAxis, Forward)]
  }

  /** The first `rows` rows of the raster, in order. */
  function RasterCommands(edge: nat, rows: nat): seq<Command>
    decreases rows
  {
    if rows == 0 then [] else RasterCommands(edge, rows - 1) + RowCommands(edge, rows - 1)
  }

  /** How many commands of `cmds` satisfy `p`. */
  function Count(cmds: seq<Command>, p: Command -> bool): nat
    decreases |cmds|
  {
    if cmds == [] then 0
    else Count(cmds[..|cmds| - 1], p) + (if p(cmds[|cmds| - 1]) then 1 else 0)
  }

  predicate IsYStep(c: Command) { c.MoveStep? && c.axis == YAxis }
  predicate IsXStep(c: Command) { c.MoveStep? && c.axis == XAxis }
  predicate IsSetJog(c: Command) { c.SetJog? }
  predicate IsGoTo(c: Command) { c.GoTo? }

  lemma {:induction false} CountAppend(a: seq<Command>, b: seq<Command>, p: Command -> bool)
    ensures Count(a + b, p) == Count(a, p) + Count(b, p)
    decreases |b|
  {
    if b == [] {
      assert a + b == a;
    } else {
      var b' := b[..|b| - 1];
      assert (a + b)[..|a + b| - 1] == a + b';
      CountAppend(a, b', p);
    }
  }

  lemma CountPair(a: Command, b: Command, p: Command -> bool)
    ensures Count([a, b], p) == (if p(a) then 1 else 0) + (if p(b) then 1 else 0)
  {
    assert Count([a], p) == (if p(a) then 1 else 0) by { assert [a][..0] == []; }
    assert [a, b][..1] == [a];
  }

  lemma {:induction false} YStepsShape(dir: Direction, count: nat)
    ensures |YSteps(dir, count)| == count
    ensures forall k :: 0 <= k < count ==> YSteps(dir, count)[k] == MoveStep(YAxis, dir)
    ensures Count(YSteps(dir, count), IsYStep) == count
    ensures Count(YSteps(dir, count), IsXStep) == 0
    ensures Count(YSteps(dir, count), IsSetJog) == 0
    ensures Count(YSteps(dir, count), IsGoTo) == 0
    decreases count
  {
    if count > 0 {
      YStepsShape(dir, count - 1);
      assert YSteps(dir, count)[..count - 1] == YSteps(dir, count - 1);
    }
  }

  lemma RowCommandsLayout(edge: nat, row: nat)
    ensures |RowCommands(edge, row)| == edge + 1
    ensures forall k :: 0 <= k < edge ==> RowCommands(edge, row)[k] == MoveStep(YAxis, RowDirection(row))
    ensures RowCommands(edge, row)[edge] == MoveStep(XAxis, Forward)
  {
    YStepsShape(RowDirection(row), edge);
  }

  lemma RowCommandsCounts(edge: nat, row: nat)
    ensures |RowCommands(edge, row)| == edge + 1
    ensures Count(RowCommands(edge, row), IsYStep) == edge
    ensures Count(RowCommands(edge, row), IsXStep) == 1
    ensures Count(RowCommands(edge, row), IsSetJog) == 0
    ensures Count(RowCommands(edge, row), IsGoTo) == 0
  {
    var ys := YSteps(RowDirection(row), edge);
    YStepsShape(RowDirection(row), edge);
    var x: seq<Command> := [MoveStep(XAxis, Forward)];
    assert x[..0] == [];
    CountAppend(ys, x, IsYStep);
    CountAppend(ys, x, IsXStep);
    CountAppend(ys, x, IsSetJog);
    CountAppend(ys, x, IsGoTo);
  }

  /**
   * The raster issues one y step per cell, the last cell of each row
   * included, and one x step per row, the last row included; it never
   * changes the jog step and never makes an absolute move.
   */
  lemma RasterStepCounts(edge: nat, rows: nat)
    ensures Count(RasterCommands(edge, rows), IsYStep) == rows * edge
    ensures Count(RasterCommands(edge, rows), IsXStep) == rows
    ensures Count(RasterCommands(edge, rows), IsSetJog) == 0
    ensures Count(RasterCommands(edge, rows), IsGoTo) == 0
  {
    forall row: nat
      ensures Count(RowCommands(edge, row), IsYStep) == edge
      ensures Count(RowCommands(edge, row), IsXStep) == 1
      ensures Count(RowCommands(edge, row), IsSetJog) == 0
      ensures Count(RowCommands(edge, row), IsGoTo) == 0
    {
      RowCommandsCounts(edge, row);
    }
    RasterCount(edge, rows, IsYStep, edge);
    RasterCount(edge, rows, IsXStep, 1);
    RasterCount(edge, rows, IsSetJog, 0);
    RasterCount(edge, rows, IsGoTo, 0);
  }

  /** Adding a row to the raster adds that row's count. */
  lemma RasterCountStep(edge: nat, rows: nat, p: Command -> bool)
    ensures Count(RasterCommands(edge, rows + 1), p) == Count(RasterCommands(edge, rows), p) + Count(RowCommands(edge, rows), p)
  {
    CountAppend(RasterCommands(edge, rows), RowCommands(edge, rows), p);
  }

  /** When every row holds `perRow` commands satisfying `p`, the first `rows` rows hold rows * perRow of them. */
  lemma {:induction false} RasterCount(edge: nat, rows: nat, p: Command -> bool, perRow: nat)
    requires forall row: nat :: Count(RowCommands(edge, row), p) == perRow
    ensures Count(RasterCommands(edge, rows), p) == rows * perRow
    decreases rows
  {
    if rows > 0 {
      var k := rows - 1;
      RasterCount(edge, k, p, perRow);
      RasterCountStep(edge, k, p);
      assert rows * perRow == k * perRow + perRow by { MulSucc(k, perRow); }
    }
  }

  /**
   * Row `row` of the raster occupies the `edge + 1` commands from
   * row * (edge + 1): `edge` y steps, forward on even rows and backward on
   * odd rows, then one x step forward.
   */
  lemma {:induction false} RasterRowLayout(edge: nat, rows: nat, row: nat, k: nat)
    requires row < rows && k <= edge
    ensures row * (edge + 1) + k < |RasterCommands(edge, rows)|
    ensures RasterCommands(edge, rows)[row * (edge + 1) + k] ==
            if k < edge then MoveStep(YAxis, RowDirection(row)) else MoveStep(XAxis, Forward)
    decreases rows
  {
    var prev := RasterCommands(edge, rows - 1);
    RowCommandsLayout(edge, rows - 1);
    if row < rows - 1 {
      RasterRowLayout(edge, rows - 1, row, k);
    } else {
      assert row * (edge + 1) == |prev| by { RasterLength(edge, rows - 1); }
    }
  }

  lemma {:induction false} RasterLength(edge: nat, rows: nat)
    ensures |RasterCommands(edge, rows)| == rows * (edge + 1)
    decreases rows
  {
    if rows > 0 {
      RasterLength(edge, rows - 1);
      RowCommandsLayout(edge, rows - 1);
      MulSucc(rows - 1, edge + 1);
    }
  }

  // ---------------------------------------------------------------------------
  // An ideal stage executing the raster

  lemma StepAlongRow(g: Geometry, row: nat, col: nat)
    requires col < g.edge
    ensures Apply(StageState(CellPosition(g, row, col), g.step), MoveStep(YAxis, RowDirection(row)))
         == StageState(CellPosition(g, row, col + 1), g.step)
  {
    if row % 2 == 0 {
      assert Steps(col + 1, g.step) == Steps(col, g.step) + g.step;
    } else {
      assert Steps(g.edge - col, g.step) == Steps(g.edge - (col + 1), g.step) + g.step;
    }
  }

  lemma StepToNextRow(g: Geometry, row: nat)
    ensures Apply(StageState(CellPosition(g, row, g.edge), g.step), MoveStep(XAxis, Forward))
         == StageState(CellPosition(g, row + 1, 0), g.step)
  {
    assert Steps(row + 1, g.step) == Steps(row, g.step) + g.step;
  }

  lemma {:induction false} ReplayAlongRow(g: Geometry, row: nat, cols: nat)
    requires cols <= g.edge
    ensures Replay(StageState(CellPosition(g, row, 0), g.step), YSteps(RowDirection(row), cols))
         == StageState(CellPosition(g, row, cols), g.step)
    decreases cols
  {
    if cols > 0 {
      var steps := YSteps(RowDirection(row), cols);
      assert steps[..|steps| - 1] == YSteps(RowDirection(row), cols - 1);
      ReplayAlongRow(g, row, cols - 1);
      StepAlongRow(g, row, cols - 1);
    }
  }

  /** One row of the raster takes the stage from the row's first cell to the next row's first cell. */
  lemma ReplayRow(g: Geometry, row: nat)
    ensures Replay(StageState(CellPosition(g, row, 0), g.step), RowCommands(g.edge, row))
         == StageState(CellPosition(g, row + 1, 0), g.step)
  {
    var ys := YSteps(RowDirection(row), g.edge);
    var x: seq<Command> := [MoveStep(XAxis, Forward)];
    var rowStart := StageState(CellPosition(g, row, 0), g.step);
    var rowEnd := StageState(CellPosition(g, row, g.edge), g.step);
    calc {
      Replay(rowStart, ys + x);
      { ReplayAppend(rowStart, ys, x); }
      Replay(Replay(rowStart, ys), x);
      { ReplayAlongRow(g, row, g.edge); }
      Replay(rowEnd, x);
      { assert x[..0] == []; }
      Apply(rowEnd, MoveStep(XAxis, Forward));
      { StepToNextRow(g, row); }
      StageState(CellPosition(g, row + 1, 0), g.step);
    }
  }

  /**
   * Started at the origin with the jog step set, an ideal stage that has
   * executed the first `rows` rows stands where row `rows` reads its first
   * cell: the commanded steps visit exactly the cells of CellPosition.
   */
  lemma {:induction false} ReplayRaster(g: Geometry, rows: nat)
    ensures Replay(StageState(g.origin, g.step), RasterCommands(g.edge, rows))
         == StageState(CellPosition(g, rows, 0), g.step)
    decreases rows
  {
    if rows == 0 {
      assert CellPosition(g, 0, 0) == g.origin;
    } else {
      var st0 := StageState(g.origin, g.step);
      var row := rows - 1;
      calc {
        Replay(st0, RasterCommands(g.edge, rows));
        Replay(st0, RasterCommands(g.edge, row) + RowCommands(g.edge, row));
        { ReplayAppend(st0, RasterCommands(g.edge, row), RowCommands(g.edge, row)); }
        Replay(Replay(st0, RasterCommands(g.edge, row)), RowCommands(g.edge, row));
        { ReplayRaster(g, row); }
        Replay(StageState(CellPosition(g, row, 0), g.step), RowCommands(g.edge, row));
        { ReplayRow(g, row); }
        StageState(CellPosition(g, rows, 0), g.step);
      }
    }
  }

  // ---------------------------------------------------------------------------
  // Readings and the running maximum

  datatype Cell = Cell(row: nat, col: nat)

  /** max_data and, once some reading exceeded it, the cell of max_data_loc. */
  datatype Best = Best(value: real, cell: Option<Cell>)

  /** The detector reading taken at cell (row, col). */
  function Sample(signal: Pos -> real, g: Geometry, row: nat, col: nat): real
  {
    signal(CellPosition(g, row, col))
  }

  /** The readings of row `row`, columns 0 to cols - 1, in the order taken. */
  function RowSamples(signal: Pos -> real, g: Geometry, row: nat, cols: nat): seq<real>
    decreases cols
  {
    if cols == 0 then [] else RowSamples(signal, g, row, cols - 1) + [Sample(signal, g, row, cols - 1)]
  }

  /** The readings of the first `rows` rows, in the order taken. */
  function Samples(signal: Pos -> real, g: Geometry, rows: nat): seq<real>
    decreases rows
  {
    if rows == 0 then [] else Samples(signal, g, rows - 1) + RowSamples(signal, g, rows - 1, g.edge)
  }

  lemma {:induction false} RowSamplesShape(signal: Pos -> real, g: Geometry, row: nat, cols: nat)
    ensures |RowSamples(signal, g, row, cols)| == cols
    ensures forall c :: 0 <= c < cols ==> RowSamples(signal, g, row, cols)[c] == Sample(signal, g, row, c)
    decreases cols
  {
    if cols > 0 {
      RowSamplesShape(signal, g, row, cols - 1);
    }
  }

  lemma {:induction false} SamplesLength(signal: Pos -> real, g: Geometry, rows: nat)
    ensures |Samples(signal, g, rows)| == rows * g.edge
    decreases rows
  {
    if rows > 0 {
      SamplesLength(signal, g, rows - 1);
      RowSamplesShape(signal, g, rows - 1, g.edge);
      MulSucc(rows - 1, g.edge);
    }
  }

  /** One reading per cell, row by row: the reading of cell (r, c) is the (r * edge + c)-th. */
  lemma {:induction false} SampleOrder(signal: Pos -> real, g: Geometry, rows: nat, r: nat, c: nat)
    requires r < rows && c < g.edge
    ensures |Samples(signal, g, rows)| == rows * g.edge
    ensures r * g.edge + c < rows * g.edge
    ensures Samples(signal, g, rows)[r * g.edge + c] == Sample(signal, g, r, c)
    decreases rows
  {
    var prev := Samples(signal, g, rows - 1);
    var last := RowSamples(signal, g, rows - 1, g.edge);
    SamplesLength(signal, g, rows);
    SamplesLength(signal, g, rows - 1);
    RowSamplesShape(signal, g, rows - 1, g.edge);
    if r < rows - 1 {
      SampleOrder(signal, g, rows - 1, r, c);
    } else {
      assert r * g.edge == |prev|;
    }
  }

  /** One reading compared with the running maximum: only a strictly greater reading replaces it. */
  function Consider(b: Best, v: real, c: Cell): (r: Best)
    ensures r.value >= b.value && r.value >= v
    ensures r != b ==> r == Best(v, Some(c)) && v > b.value
  {
    if v > b.value then Best(v, Some(c)) else b
  }

  /** The running maximum after row `row`, columns 0 to cols - 1, starting from `b`. */
  function TrackRow(signal: Pos -> real, g: Geometry, row: nat, cols: nat, b: Best): Best
    decreases cols
  {
    if cols == 0 then b
    else Consider(TrackRow(signal, g, row, cols - 1, b), Sample(signal, g, row, cols - 1), Cell(row, cols - 1))
  }

  /** The running maximum after the first `rows` rows; it starts at 0 with no location. */
  function TrackRows(signal: Pos -> real, g: Geometry, rows: nat): Best
    decreases rows
  {
    if rows == 0 then Best(0.0, None)
    else TrackRow(signal, g, rows - 1, g.edge, TrackRows(signal, g, rows - 1))
  }

  /** The running maximum once the whole grid has been read. */
  function Peak(signal: Pos -> real, g: Geometry): Best
  {
    TrackRows(signal, g, g.edge)
  }

  /** Cell (r, c) is read before cell (row, col). */
  predicate Precedes(r: nat, c: nat, row: nat, col: nat)
  {
    r < row || (r == row && c < col)
  }

  /**
   * What the running maximum must be once every cell read before
   * (row, col) has been read: at least 0 and at least every such reading;
   * 0 with no location while none was positive; otherwise the first of those
   * cells whose reading equals it.
   */
  ghost predicate Summarises(signal: Pos -> real, g: Geometry, b: Best, row: nat, col: nat)
  {
    && b.value >= 0.0
    && (forall r: nat, c: nat :: c < g.edge && Precedes(r, c, row, col) ==> Sample(signal, g, r, c) <= b.value)
    && (b.cell.None? ==> b.value == 0.0)
    && (b.cell.Some? ==>
          && b.cell.value.col < g.edge
          && Precedes(b.cell.value.row, b.cell.value.col, row, col)
          && Sample(signal, g, b.cell.value.row, b.cell.value.col) == b.value
          && b.value > 0.0
          && forall r: nat, c: nat :: c < g.edge && Precedes(r, c, b.cell.value.row, b.cell.value.col) ==>
               Sample(signal, g, r, c) < b.value)
  }

  lemma ConsiderStep(signal: Pos -> real, g: Geometry, b: Best, row: nat, col: nat)
    requires col < g.edge && Summarises(signal, g, b, row, col)
    ensures Summarises(signal, g, Consider(b, Sample(signal, g, row, col), Cell(row, col)), row, col + 1)
  {
    var v := Sample(signal, g, row, col);
    if v > b.value {
      forall r: nat, c: nat | c < g.edge && Precedes(r, c, row, col + 1)
        ensures Sample(signal, g, r, c) <= v
      {
        if Precedes(r, c, row, col) {
          assert Sample(signal, g, r, c) <= b.value;
        }
      }
    } else {
      forall r: nat, c: nat | c < g.edge && Precedes(r, c, row, col + 1)
        ensures Sample(signal, g, r, c) <= b.value
      {
        if Precedes(r, c, row, col) {
          assert Sample(signal, g, r, c) <= b.value;
        }
      }
    }
  }

  lemma {:induction false} TrackRowSummarises(signal: Pos -> real, g: Geometry, row: nat, cols: nat, b: Best)
    requires cols <= g.edge && Summarises(signal, g, b, row, 0)
    ensures Summarises(signal, g, TrackRow(signal, g, row, cols, b), row, cols)
    decreases cols
  {
    if cols > 0 {
      var col := cols - 1;
      var prev := TrackRow(signal, g, row, col, b);
      TrackRowSummarises(signal, g, row, col, b);
      ConsiderStep(signal, g, prev, row, col);
      assert TrackRow(signal, g, row, cols, b) == Consider(prev, Sample(signal, g, row, col), Cell(row, col));
      assert col + 1 == cols;
    }
  }

  /** Having read a whole row is having read everything before the next row's first cell. */
  lemma RowBoundary(signal: Pos -> real, g: Geometry, b: Best, row: nat)
    requires Summarises(signal, g, b, row, g.edge)
    ensures Summarises(signal, g, b, row + 1, 0)
  {
    forall r: nat, c: nat | c < g.edge && Precedes(r, c, row + 1, 0)
      ensures Sample(signal, g, r, c) <= b.value
    {
      assert Precedes(r, c, row, g.edge);
    }
  }

  lemma {:induction false} TrackRowsSummarises(signal: Pos -> real, g: Geometry, rows: nat)
    ensures Summarises(signal, g, TrackRows(signal, g, rows), rows, 0)
    decreases rows
  {
    if rows > 0 {
      var prev := TrackRows(signal, g, rows - 1);
      TrackRowsSummarises(signal, g, rows - 1);
      TrackRowSummarises(signal, g, rows - 1, g.edge, prev);
      RowBoundary(signal, g, TrackRow(signal, g, rows - 1, g.edge, prev), rows - 1);
    }
  }

  /**
   * The running maximum over the whole grid is the largest reading, or 0
   * when none is positive, and its cell is the first cell read whose reading
   * equals it: a later equal reading never replaces it.
   */
  lemma PeakIsFirstMaximum(signal: Pos -> real, g: Geometry)
    ensures Peak(signal, g).value >= 0.0
    ensures forall r: nat, c: nat :: r < g.edge && c < g.edge ==> Sample(signal, g, r, c) <= Peak(signal, g).value
    ensures Peak(signal, g).cell.None? <==>
            forall r: nat, c: nat :: r < g.edge && c < g.edge ==> Sample(signal, g, r, c) <= 0.0
    ensures Peak(signal, g).cell.None? ==> Peak(signal, g).value == 0.0
    ensures Peak(signal, g).cell.Some? ==>
              var w := Peak(signal, g).cell.value;
              && w.row < g.edge && w.col < g.edge
              && Sample(signal, g, w.row, w.col) == Peak(signal, g).value
              && Peak(signal, g).value > 0.0
              && forall r: nat, c: nat :: c < g.edge && Precedes(r, c, w.row, w.col) ==>
                   Sample(signal, g, r, c) < Peak(signal, g).value
  {
    var b := Peak(signal, g);
    TrackRowsSummarises(signal, g, g.edge);
    forall r: nat, c: nat | r < g.edge && c < g.edge
      ensures Sample(signal, g, r, c) <= b.value
    {
      assert Precedes(r, c, g.edge, 0);
    }
    if b.cell.Some? {
      var w := b.cell.value;
      assert Sample(signal, g, w.row, w.col) > 0.0;
    }
  }

  /**
   * The first maximum is unique: a cell whose positive reading is at least
   * every reading and strictly above every earlier one is the cell the scan
   * records, with its reading as the maximum.
   */
  lemma FirstMaximumIsPeak(signal: Pos -> real, g: Geometry, w: Cell)
    requires w.row < g.edge && w.col < g.edge
    requires Sample(signal, g, w.row, w.col) > 0.0
    requires forall r: nat, c: nat :: r < g.edge && c < g.edge ==> Sample(signal, g, r, c) <= Sample(signal, g, w.row, w.col)
    requires forall r: nat, c: nat :: c < g.edge && Precedes(r, c, w.row, w.col) ==>
               Sample(signal, g, r, c) < Sample(signal, g, w.row, w.col)
    ensures Peak(signal, g) == Best(Sample(signal, g, w.row, w.col), Some(w))
  {
    PeakIsFirstMaximum(signal, g);
    var b := Peak(signal, g);
    var v := Sample(signal, g, w.row, w.col);
    assert b.cell.Some?;
    var u := b.cell.value;
    assert b.value == v;
    assert Precedes(u.row, u.col, w.row, w.col) ==> Sample(signal, g, u.row, u.col) < v;
    assert Precedes(w.row, w.col, u.row, u.col) ==> v < b.value;
  }

  // ---------------------------------------------------------------------------
  // One pass of basic_scan

  /** Why basic_scan stops: a zero step size (division), a negative grid size (array allocation), or no reading above 0 (max_data_loc left at 0). */
  datatype ScanError = ZeroStepSize | NegativeEdgeCount | NoPositiveReading

  /** The best reading of a pass and the stage position recorded with it. */
  datatype Found = Found(peak: real, at: Pos)

  /** What one pass produces: its outcome, the stage commands in order, the detector readings in order. */
  datatype Pass = Pass(outcome: Result<Found, ScanError>, commands: seq<Command>, readings: seq<real>)

  function PassGeometry(start: Pos, sweepDistance: real, stepSize: real): Geometry
    requires stepSize != 0.0 && EdgeCount(sweepDistance, stepSize) >= 0
  {
    Geometry(ScanOrigin(start, sweepDistance), stepSize, EdgeCount(sweepDistance, stepSize))
  }

  /** basic_scan(sweepDistance, stepSize) started with the stage at `start`. */
  function SinglePass(signal: Pos -> real, start: Pos, sweepDistance: real, stepSize: real): Pass
  {
    var origin := ScanOrigin(start, sweepDistance);
    var prologue := [GoTo(origin.x, origin.y), SetJog(stepSize)];
    if stepSize == 0.0 then Pass(Err(ZeroStepSize), prologue, [])
    else if EdgeCount(sweepDistance, stepSize) < 0 then Pass(Err(NegativeEdgeCount), prologue, [])
    else
      var g := PassGeometry(start, sweepDistance, stepSize);
      var raster := prologue + RasterCommands(g.edge, g.edge);
      var readings := Samples(signal, g, g.edge);
      var b := Peak(signal, g);
      match b.cell
      case None => Pass(Err(NoPositiveReading), raster, readings)
      case Some(w) =>
        var at := CellPosition(g, w.row, w.col);
        Pass(Ok(Found(b.value, at)), raster + [GoTo(at.x, at.y)], readings)
  }

  /**
   * How a pass ends: a zero step size and a negative grid size are the only
   * failures before the raster; after it, the pass fails exactly when no
   * reading is positive. Otherwise the pass reports the largest reading and
   * the position where the first cell with that reading was read, and the
   * detector reads that value again at that position.
   */
  lemma SinglePassOutcome(signal: Pos -> real, start: Pos, sweepDistance: real, stepSize: real)
    ensures SinglePass(signal, start, sweepDistance, stepSize).outcome == Err(ZeroStepSize) <==> stepSize == 0.0
    ensures SinglePass(signal, start, sweepDistance, stepSize).outcome == Err(NegativeEdgeCount) <==>
              stepSize != 0.0 && EdgeCount(sweepDistance, stepSize) < 0
    ensures stepSize != 0.0 && EdgeCount(sweepDistance, stepSize) >= 0 ==>
              var g := PassGeometry(start, sweepDistance, stepSize);
              && (SinglePass(signal, start, sweepDistance, stepSize).outcome == Err(NoPositiveReading) <==>
                    forall r: nat, c: nat :: r < g.edge && c < g.edge ==> Sample(signal, g, r, c) <= 0.0)
              && (SinglePass(signal, start, sweepDistance, stepSize).outcome.Ok? ==>
                    var f := SinglePass(signal, start, sweepDistance, stepSize).outcome.value;
                    && f.peak > 0.0
                    && signal(f.at) == f.peak
                    && (forall r: nat, c: nat :: r < g.edge && c < g.edge ==> Sample(signal, g, r, c) <= f.peak)
                    && exists r: nat, c: nat :: r < g.edge && c < g.edge && f.at == CellPosition(g, r, c) &&
                         forall r': nat, c': nat :: c' < g.edge && Precedes(r', c', r, c) ==> Sample(signal, g, r', c') < f.peak)
  {
    if stepSize != 0.0 && EdgeCount(sweepDistance, stepSize) >= 0 {
      var g := PassGeometry(start, sweepDistance, stepSize);
      PeakIsFirstMaximum(signal, g);
    }
  }

  /**
   * The commands of a pass: an absolute move to the corner, the jog step set
   * to the step size and never set again, then (once the grid size is known)
   * edge * edge y steps and edge x steps, and a final absolute move only when
   * a best position was found.
   */
  lemma SinglePassCommands(signal: Pos -> real, start: Pos, sweepDistance: real, stepSize: real)
    ensures var p := SinglePass(signal, start, sweepDistance, stepSize);
      && |p.commands| >= 2
      && p.commands[0] == GoTo(start.x - sweepDistance / 2.0, start.y - sweepDistance / 2.0)
      && p.commands[1] == SetJog(stepSize)
      && Count(p.commands, IsSetJog) == 1
      && Count(p.commands, IsGoTo) == (if p.outcome.Ok? then 2 else 1)
    ensures stepSize != 0.0 && EdgeCount(sweepDistance, stepSize) >= 0 ==>
      var p := SinglePass(signal, start, sweepDistance, stepSize);
      var n := EdgeCount(sweepDistance, stepSize);
      && Count(p.commands, IsYStep) == n * n
      && Count(p.commands, IsXStep) == n
      && |p.readings| == n * n
  {
    var p := SinglePass(signal, start, sweepDistance, stepSize);
    var origin := ScanOrigin(start, sweepDistance);
    var prologue := [GoTo(origin.x, origin.y), SetJog(stepSize)];
    CountPair(GoTo(origin.x, origin.y), SetJog(stepSize), IsSetJog);
    CountPair(GoTo(origin.x, origin.y), SetJog(stepSize), IsGoTo);
    CountPair(GoTo(origin.x, origin.y), SetJog(stepSize), IsYStep);
    CountPair(GoTo(origin.x, origin.y), SetJog(stepSize), IsXStep);
    if stepSize != 0.0 && EdgeCount(sweepDistance, stepSize) >= 0 {
      var g := PassGeometry(start, sweepDistance, stepSize);
      var raster := RasterCommands(g.edge, g.edge);
      RasterStepCounts(g.edge, g.edge);
      SamplesLength(signal, g, g.edge);
      CountAppend(prologue, raster, IsSetJog);
      CountAppend(prologue, raster, IsGoTo);
      CountAppend(prologue, raster, IsYStep);
      CountAppend(prologue, raster, IsXStep);
      if p.outcome.Ok? {
        var last: seq<Command> := [p.commands[|p.commands| - 1]];
        assert p.commands == prologue + raster + last;
        assert last[..0] == [];
        CountAppend(prologue + raster, last, IsSetJog);
        CountAppend(prologue + raster, last, IsGoTo);
        CountAppend(prologue + raster, last, IsYStep);
        CountAppend(prologue + raster, last, IsXStep);
      }
    }
  }

  /**
   * Where an ideal stage executing a pass ends: at the recorded best
   * position when there is one, at the cell after the raster's last when no
   * reading was positive, and at the corner when the pass stopped earlier;
   * in every case with the jog step left at the step size.
   */
  lemma SinglePassEndsAt(signal: Pos -> real, start: Pos, jog: real, sweepDistance: real, stepSize: real)
    ensures var p := SinglePass(signal, start, sweepDistance, stepSize);
      var end := Replay(StageState(start, jog), p.commands);
      && end.jog == stepSize
      && (p.outcome.Ok? ==> end.at == p.outcome.value.at)
      && (p.outcome == Err(NoPositiveReading) ==>
            end.at == CellPosition(PassGeometry(start, sweepDistance, stepSize), EdgeCount(sweepDistance, stepSize), 0))
      && (p.outcome == Err(ZeroStepSize) || p.outcome == Err(NegativeEdgeCount) ==>
            end.at == ScanOrigin(start, sweepDistance))
  {
    var p := SinglePass(signal, start, sweepDistance, stepSize);
    var st0 := StageState(start, jog);
    var origin := ScanOrigin(start, sweepDistance);
    var prologue := [GoTo(origin.x, origin.y), SetJog(stepSize)];
    assert prologue[..1] == [GoTo(origin.x, origin.y)];
    assert prologue[..1][..0] == [];
    assert Replay(st0, prologue) == StageState(origin, stepSize);
    if stepSize != 0.0 && EdgeCount(sweepDistance, stepSize) >= 0 {
      var g := PassGeometry(start, sweepDistance, stepSize);
      var raster := RasterCommands(g.edge, g.edge);
      ReplayAppend(st0, prologue, raster);
      ReplayRaster(g, g.edge);
      if p.outcome.Ok? {
        var last: seq<Command> := [p.commands[|p.commands| - 1]];
        assert p.commands == prologue + raster + last;
        assert last[..0] == [];
        ReplayAppend(st0, prologue + raster, last);
      }
    }
  }

  /** A detector that reads the same positive value everywhere leaves the stage on the first cell, the corner. */
  lemma ConstantSignalParksAtCorner(signal: Pos -> real, start: Pos, sweepDistance: real, stepSize: real, level: real)
    requires forall p :: signal(p) == level
    requires level > 0.0 && stepSize != 0.0 && EdgeCount(sweepDistance, stepSize) >= 1
    ensures SinglePass(signal, start, sweepDistance, stepSize).outcome == Ok(Found(level, ScanOrigin(start, sweepDistance)))
  {
    var g := PassGeometry(start, sweepDistance, stepSize);
    FirstMaximumIsPeak(signal, g, Cell(0, 0));
    assert CellPosition(g, 0, 0) == g.origin;
  }

  /** A reading strictly above every other is found, and the stage is parked where it was read. */
  lemma StrictMaximumIsFound(signal: Pos -> real, start: Pos, sweepDistance: real, stepSize: real, row: nat, col: nat)
    requires stepSize != 0.0 && EdgeCount(sweepDistance, stepSize) >= 0
    requires var g := PassGeometry(start, sweepDistance, stepSize);
      && row < g.edge && col < g.edge && Sample(signal, g, row, col) > 0.0
      && forall r: nat, c: nat :: r < g.edge && c < g.edge && (r, c) != (row, col) ==>
           Sample(signal, g, r, c) < Sample(signal, g, row, col)
    ensures var g := PassGeometry(start, sweepDistance, stepSize);
      SinglePass(signal, start, sweepDistance, stepSize).outcome ==
        Ok(Found(Sample(signal, g, row, col), CellPosition(g, row, col)))
  {
    var g := PassGeometry(start, sweepDistance, stepSize);
    forall r: nat, c: nat | c < g.edge && Precedes(r, c, row, col)
      ensures Sample(signal, g, r, c) < Sample(signal, g, row, col)
    {
      assert (r, c) != (row, col);
    }
    FirstMaximumIsPeak(signal, g, Cell(row, col));
  }

  // ---------------------------------------------------------------------------
  // Coarse-to-fine: auto_scan

  /** What a chain of passes produces: the outcome of each pass run, every command and every reading. */
  datatype Run = Run(outcomes: seq<Result<Found, ScanError>>, commands: seq<Command>, readings: seq<real>)

  /**
   * Passes run one after the other, each starting where the previous one
   * parked the stage, until one fails. After each pass that succeeds the
   * detector is read once more, at the parked position, for the report.
   */
  function CoarseToFine(signal: Pos -> real, start: Pos, passes: seq<(real, real)>): Run
    decreases |passes|
  {
    if passes == [] then Run([], [], [])
    else
      var p := SinglePass(signal, start, passes[0].0, passes[0].1);
      if p.outcome.Err? then PassRun(signal, p)
      else Then(PassRun(signal, p), CoarseToFine(signal, p.outcome.value.at, passes[1..]))
  }

  /** The run of a single pass: its outcome, its commands, and its readings together with the report reading. */
  function PassRun(signal: Pos -> real, p: Pass): Run
  {
    Run([p.outcome], p.commands, ReportedReadings(signal, p))
  }

  /**
   * auto_scan's chain written out pass by pass: the first pass from the
   * start, the second from where the first parked, the third from where the
   * second parked, stopping after the first failure.
   */
  lemma AutoScanChain(signal: Pos -> real, start: Pos, p1: Pass, p2: Pass, p3: Pass)
    requires p1 == SinglePass(signal, start, 0.025, 0.005)
    requires p1.outcome.Ok? ==> p2 == SinglePass(signal, p1.outcome.value.at, 0.01, 0.001)
    requires p1.outcome.Ok? && p2.outcome.Ok? ==> p3 == SinglePass(signal, p2.outcome.value.at, 0.001, 0.0005)
    ensures CoarseToFine(signal, start, AutoScanPasses) ==
              if p1.outcome.Err? then PassRun(signal, p1)
              else if p2.outcome.Err? then Then(PassRun(signal, p1), PassRun(signal, p2))
              else Then(PassRun(signal, p1), Then(PassRun(signal, p2), PassRun(signal, p3)))
  {
    var fine: seq<(real, real)> := [(0.01, 0.001), (0.001, 0.0005)];
    var finest: seq<(real, real)> := [(0.001, 0.0005)];
    assert AutoScanPasses[1..] == fine;
    assert fine[1..] == finest;
    assert finest[1..] == [];
    CoarseToFineStep(signal, start, AutoScanPasses, p1);
    if p1.outcome.Ok? {
      CoarseToFineStep(signal, p1.outcome.value.at, fine, p2);
      if p2.outcome.Ok? {
        CoarseToFineStep(signal, p2.outcome.value.at, finest, p3);
        if p3.outcome.Ok? {
          ThenNothing(PassRun(signal, p3));
        }
      }
    }
  }

  /** The first step of a chain: its first pass, then, when that succeeds, the rest of the chain from where it parked. */
  lemma CoarseToFineStep(signal: Pos -> real, start: Pos, passes: seq<(real, real)>, p: Pass)
    requires passes != [] && p == SinglePass(signal, start, passes[0].0, passes[0].1)
    ensures CoarseToFine(signal, start, passes) ==
              if p.outcome.Err? then PassRun(signal, p)
              else Then(PassRun(signal, p), CoarseToFine(signal, p.outcome.value.at, passes[1..]))
  {
  }

  /** One run followed by another. */
  function Then(a: Run, b: Run): Run
  {
    Run(a.outcomes + b.outcomes, a.commands + b.commands, a.readings + b.readings)
  }

  /** Following a run by the empty run changes nothing. */
  lemma ThenNothing(a: Run)
    ensures Then(a, Run([], [], [])) == a
  {
    assert a.outcomes + [] == a.outcomes;
    assert a.commands + [] == a.commands;
    assert a.readings + [] == a.readings;
  }

  /** The readings of a pass followed, when it succeeded, by the reading auto_scan reports at the parked position. */
  function ReportedReadings(signal: Pos -> real, p: Pass): (r: seq<real>)
    ensures |r| == |p.readings| + (if p.outcome.Ok? then 1 else 0)
    ensures r[..|p.readings|] == p.readings
    ensures p.outcome.Ok? ==> r[|r| - 1] == signal(p.outcome.value.at)
  {
    if p.outcome.Ok? then p.readings + [signal(p.outcome.value.at)] else p.readings
  }

  /** The passes auto_scan runs: (sweep distance, step size), coarsest first. */
  const AutoScanPasses: seq<(real, real)> := [(0.025, 0.005), (0.01, 0.001), (0.001, 0.0005)]

  /** auto_scan's passes use grids of 5, 10 and 2 cells per side. */
  lemma AutoScanEdgeCounts()
    ensures EdgeCount(AutoScanPasses[0].0, AutoScanPasses[0].1) == 5
    ensures EdgeCount(AutoScanPasses[1].0, AutoScanPasses[1].1) == 10
    ensures EdgeCount(AutoScanPasses[2].0, AutoScanPasses[2].1) == 2
  {
    assert 0.025 / 0.005 == 5.0;
    assert 0.01 / 0.001 == 10.0;
    assert 0.001 / 0.0005 == 2.0;
  }

  /**
   * A chain runs at most one pass per entry, the first of them centred on the
   * start; every pass but the last run succeeded, and the chain stops early
   * only on a failure.
   */
  lemma {:induction false} CoarseToFineShape(signal: Pos -> real, start: Pos, passes: seq<(real, real)>)
    ensures var outs := CoarseToFine(signal, start, passes).outcomes;
      && |outs| <= |passes|
      && (passes != [] ==> |outs| >= 1 && outs[0] == SinglePass(signal, start, passes[0].0, passes[0].1).outcome)
      && (forall k :: 0 <= k < |outs| - 1 ==> outs[k].Ok?)
      && (|outs| < |passes| ==> outs != [] && outs[|outs| - 1].Err?)
    decreases |passes|
  {
    if passes != [] {
      var p := SinglePass(signal, start, passes[0].0, passes[0].1);
      var outs := CoarseToFine(signal, start, passes).outcomes;
      if p.outcome.Err? {
        assert outs == [p.outcome] by { CoarseToFineStep(signal, start, passes, p); }
      } else {
        var rest := CoarseToFine(signal, p.outcome.value.at, passes[1..]).outcomes;
        assert outs == [p.outcome] + rest by { CoarseToFineStep(signal, start, passes, p); }
        CoarseToFineShape(signal, p.outcome.value.at, passes[1..]);
        forall k | 0 <= k < |outs| - 1
          ensures outs[k].Ok?
        {
          if k > 0 {
            assert outs[k] == rest[k - 1];
          }
        }
      }
    }
  }

  /**
   * Every pass of a chain after the first is centred on the position where
   * the previous pass parked the stage.
   */
  lemma {:induction false} CoarseToFineRecentres(signal: Pos -> real, start: Pos, passes: seq<(real, real)>)
    ensures var outs := CoarseToFine(signal, start, passes).outcomes;
      && |outs| <= |passes|
      && (forall k :: 0 <= k < |outs| - 1 ==> outs[k].Ok?)
      && forall k :: 0 < k < |outs| ==>
           outs[k] == SinglePass(signal, outs[k - 1].value.at, passes[k].0, passes[k].1).outcome
    decreases |passes|
  {
    CoarseToFineShape(signal, start, passes);
    if passes != [] {
      var p := SinglePass(signal, start, passes[0].0, passes[0].1);
      var outs := CoarseToFine(signal, start, passes).outcomes;
      if p.outcome.Err? {
        assert outs == [p.outcome] by { CoarseToFineStep(signal, start, passes, p); }
      } else {
        var at := p.outcome.value.at;
        var rest := CoarseToFine(signal, at, passes[1..]).outcomes;
        assert outs == [p.outcome] + rest by { CoarseToFineStep(signal, start, passes, p); }
        CoarseToFineRecentres(signal, at, passes[1..]);
        assert |rest| <= |passes| - 1 by { CoarseToFineShape(signal, at, passes[1..]); }
        assert rest != [] ==> rest[0] == SinglePass(signal, at, passes[1].0, passes[1].1).outcome by {
          CoarseToFineShape(signal, at, passes[1..]);
        }
        forall k | 0 < k < |outs|
          ensures outs[k] == SinglePass(signal, outs[k - 1].value.at, passes[k].0, passes[k].1).outcome
        {
          assert outs[k] == rest[k - 1];
          assert passes[k] == passes[1..][k - 1];
          if k > 1 {
            assert outs[k - 1] == rest[k - 2];
          }
        }
      }
    }
  }
}
