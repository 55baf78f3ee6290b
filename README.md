# autogator alignment scan and key classifier, in Dafny

This project models two small cores of autogator, a Python package for
camera-assisted motion control of PIC chip interrogation platforms.

**The raster alignment scan** (`autogator/dataScanner.py`).

`basic_scan` does the following:
- centres a square of side `sweep_distance` on the stage's current position
  and sets the jog step to `step_size`;
- reads the oscilloscope once per cell of an `edge_Num` × `edge_Num`
  serpentine raster, where `edge_Num = round(sweep_distance / step_size)`;
- keeps the first largest reading, provided it is above 0, with the stage
  position read back at that moment;
- moves the stage there.

`auto_scan` chains three such passes, coarse to fine, each centred where the
previous one left the stage. After each pass it reads the detector once more
and reads back the position, for its console report.

**The key classifier** (`autogator/motion/state_machine/keyboardTesting.py`).

`is_no_char_key` classifies a recorded keyboard event, in its string form
`KeyboardEvent(<name> <down|up>)`:
1. It strips every `"KeyboardEvent("` and then every `" down)"`.
2. It answers true when what is left contains `"up"`.
3. Otherwise it answers true when what is left equals one of the eight
   entries of `NO_CHARACTER_KEYS`.

`clear` takes the current recording, restarts recording, and types one
backspace per recorded character key.

## Files

- `wrappers.dfy` (`Wrappers`): `Option` and `Result`.
- `basics.dfy` (`Basics`): small facts about concatenation and multiplication that the proofs cite.
- `instruments.dfy` (`Instruments`): the stage and the detector, as ideal devices.
  - `Motion` is a class whose position and jog step change only through the
    driver calls the scan makes. Every call is logged in `trace`.
  - `Oscilloscope` reads a fixed signal, a function from position to
    reading, at the stage's position. Every reading is logged.
  - `Replay` executes a command list on an ideal stage.
- `raster.dfy` (`Raster`): the pure specification of the scan.
  - The grid size, with Python's round-half-to-even.
  - Where each cell is read, and the commands of the raster.
  - The running maximum, as a fold over the cells in reading order.
  - `SinglePass`, for one `basic_scan`, and `CoarseToFine`, for a chain of
    passes.
  - The lemmas saying what these mean.
- `data_scanner.dfy` (`DataScanning`): the imperative `DataScanner` class.
  - `BasicScan` keeps the two nested loops, the in-place `data` grid and the
    `moving_down` flag of the original. It is proved to issue exactly the
    commands of `SinglePass`, take exactly its readings and return its
    outcome.
  - `AutoScan` is proved equal to `CoarseToFine` over the three passes.
- `keyboard_testing.dfy` (`KeyboardTesting`):
  - Python's `str.count` and `str.replace(x, "")` as greedy left-to-right
    functions;
  - the classifier, as a specification predicate and as the original's
    OR-accumulating loop proved equal to it;
  - `clear`'s counting loop, over a `Keyboard` class that holds the recording
    and the typed text.

Details of the scan that follow from the code as written:
- Each row issues a y step after every reading, the last one included, so
  one pass issues edge² y steps and edge x steps.
- Rows with an odd index therefore read y offsets edge down to 1, not
  edge − 1 down to 0 (`Raster.ColumnOffset`).
- Rows with an even index go forward, because `moving_down` starts False.
- When no reading exceeds 0, the original's final move fails with an
  exception, because `max_data_loc` is still the integer 0. It does not
  return to any default position. The model returns
  `Err(NoPositiveReading)` and leaves the stage where the raster ended.
- A zero step size raises on the division after the first absolute move and
  the jog-step change. A negative grid size raises when the array is
  allocated. Both are error results carrying the commands issued so far.

## Model

| member | source | states |
|---|---|---|
| DataScanning.DataScanner.constructor | autogator/dataScanner.py:7-9 | The scanner drives the given detector and stage. |
| DataScanning.DataScanner.BasicScan | autogator/dataScanner.py:26-75 | The pass returns the outcome, issues exactly the stage commands and takes exactly the readings of `SinglePass` from the start position. The stage ends in the state an ideal stage reaches by executing those commands. That state has the jog step at `step_size` and, on success, the stage parked at the returned position. The grid exists exactly when the step is non-zero and the grid size non-negative; it is fresh, edge × edge, and holds the reading of every cell. |
| DataScanning.DataScanner.ScanRaster | autogator/dataScanner.py:45-72 | The nested loops: from the first cell, the stage ends at the first cell of row `edge`. The trace grows by the raster commands, the log by every reading in row order, and every grid cell holds its reading. The running maximum and its location are `Peak`'s. |
| DataScanning.DataScanner.ScanRow | autogator/dataScanner.py:48-59 | One row: `edge` y steps in the row's direction and the row's readings in column order. The maximum is folded over the row, and the row's grid cells are filled while the other cells are kept. |
| DataScanning.DataScanner.ReadCell | autogator/dataScanner.py:49-59 | One cell: one reading stored in the grid, a strictly greater reading replacing the maximum and the position read back, then one y step in the row's direction. |
| DataScanning.DataScanner.ReportedPass | autogator/dataScanner.py:16-18 | One `basic_scan` then, only when it succeeds, a fresh reading and the position read back. The stage ends in the state the pass's commands lead to. The report exists exactly when the pass succeeded and equals the pass's peak and parked position. |
| DataScanning.DataScanner.AutoScan | autogator/dataScanner.py:15-24 | The outcomes, every command and every reading are those of `CoarseToFine` over (0.025, 0.005), (0.01, 0.001), (0.001, 0.0005) from the start position. The stage ends in the state those commands lead to, failing passes included. The reports are one per successful pass. After a last pass that succeeded, the stage is at its peak. |
| DataScanning.PassReport | autogator/dataScanner.py:17-18 | The two values printed after a pass: the fresh detector reading and the stage position read back. |
| DataScanning.ReportOf | autogator/dataScanner.py:17-18 | The report of a successful pass: its peak as the reading, and the position it parked at. `ReportedPass` proves that this is what the fresh reading and the read-back position are. |
| DataScanning.ReportsOf | autogator/dataScanner.py:17-24 | There is never more than one report per pass. |
| DataScanning.ReportsOfSnoc | autogator/dataScanner.py:17-18 | A pass that succeeds adds its report; a failing pass adds none. |
| DataScanning.ReportsOfLeadingSuccesses | autogator/dataScanner.py:15-24 | When all passes but the last succeeded, there is one report per pass except a failing last pass, and report k is pass k's peak and position. |
| DataScanning.ChainReports | autogator/dataScanner.py:15-24 | The reports of any chain of passes: one per pass up to the first failure, each that pass's peak and parked position. |
| Raster.RoundHalfEven | autogator/dataScanner.py:37 | `round()`: the result is within 0.5 of the quotient, and a tie goes to the even integer. |
| Raster.EdgeCount | autogator/dataScanner.py:37 | `edge_Num`, the number of cells per side: `round(sweep_distance / step_size)`, within 0.5 of the quotient. It is defined only for a non-zero step, because the division raises otherwise. |
| Raster.ScanOrigin | autogator/dataScanner.py:30-31 | The corner the raster starts from. The start position is the midpoint of the swept square along each axis. |
| Raster.ColumnOffset | autogator/dataScanner.py:45-71 | The number of y steps above the corner at which column `col` of row `row` is read. It lies between 0 and edge. Odd rows never read offset 0, because every row ends with one more y step. |
| Raster.RowDirection | autogator/dataScanner.py:45-70 | `moving_down`: a row with an even index steps y forward and one with an odd index steps backward. `RowDirectionAlternates` proves it flips after every row. |
| Raster.CellPosition | autogator/dataScanner.py:45-71 | Where an ideal stage stands when it reads cell (row, col): one x step per finished row and `ColumnOffset` y steps from the corner. |
| Raster.YSteps | autogator/dataScanner.py:54-58 | The `move_step` calls on the y axis within one row, one per cell, all in the same direction. `YStepsShape` states their number and form. |
| Raster.RowCommands | autogator/dataScanner.py:48-71 | One row's commands: the y steps of its cells in the row's direction, then the x step forward. `RowCommandsLayout` and `RowCommandsCounts` state their order and counts. |
| Raster.RasterCommands | autogator/dataScanner.py:47-71 | The commands of the first `rows` rows in order. `RasterRowLayout`, `RasterStepCounts` and `ReplayRaster` state their layout, counts and effect. |
| Raster.Sample | autogator/dataScanner.py:49 | The `measure()` at cell (row, col): the signal at the position where an ideal stage reads that cell. |
| Raster.RowSamples | autogator/dataScanner.py:48-49 | The readings of the first `cols` cells of a row, in column order. |
| Raster.Samples | autogator/dataScanner.py:47-49 | The readings of the first `rows` rows, row after row. `SampleOrder` proves that reading r·edge + c is cell (r, c). |
| Raster.Consider | autogator/dataScanner.py:50-52 | One comparison of the running maximum. The result is at least the old maximum and the new reading. It changes only when the reading is strictly greater, and then records the reading and its cell. |
| Raster.TrackRow | autogator/dataScanner.py:48-52 | The running maximum folded over the first `cols` cells of a row in reading order. `TrackRowSummarises` states what it keeps. |
| Raster.TrackRows | autogator/dataScanner.py:47-52 | The running maximum over the first `rows` rows, from `max_data = 0` with no location (lines 27-28). `TrackRowsSummarises` states what it keeps. |
| Raster.Peak | autogator/dataScanner.py:27-52 | The running maximum over the whole grid. `PeakIsFirstMaximum` and `FirstMaximumIsPeak` characterise it. |
| Raster.SinglePass | autogator/dataScanner.py:26-74 | One `basic_scan` from a start position: its outcome, its stage commands in order and its readings in order. The error cases and the success case follow the original's branches. `SinglePassOutcome`, `SinglePassCommands` and `SinglePassEndsAt` state what it means. |
| Raster.CoarseToFine | autogator/dataScanner.py:15-24 | A chain of passes, each started where the previous one parked and stopping after the first failure. Its run collects the outcomes, the commands and the readings, including each report reading. `CoarseToFineShape` and `CoarseToFineRecentres` state what it means. |
| Raster.AutoScanEdgeCounts | autogator/dataScanner.py:16-22 | The three passes use grids of 5, 10 and 2 cells per side. |
| Raster.AutoScanPasses | autogator/dataScanner.py:16-22 | The (sweep distance, step size) arguments of the three passes: (0.025, 0.005), (0.01, 0.001) and (0.001, 0.0005). `AutoScanEdgeCounts` gives their grid sizes. |
| Raster.RowDirectionAlternates | autogator/dataScanner.py:67-70 | The y direction flips from one row to the next. |
| Raster.RasterStepCounts | autogator/dataScanner.py:47-71 | The raster issues edge y steps per row and one x step per row. It never changes the jog step and never makes an absolute move. |
| Raster.RasterLength | autogator/dataScanner.py:47-71 | The raster has rows × (edge + 1) commands. |
| Raster.RasterRowLayout | autogator/dataScanner.py:47-71 | Command row·(edge+1)+k is a y step in the row's direction for k < edge, and the x step forward for k = edge. |
| Raster.StepAlongRow | autogator/dataScanner.py:54-58 | A y step in the row's direction moves an ideal stage from one cell to the next in the row. |
| Raster.StepToNextRow | autogator/dataScanner.py:71 | The x step after a row moves the stage to the next row's first cell. |
| Raster.ReplayAlongRow | autogator/dataScanner.py:48-59 | The first `cols` y steps of a row take the stage from its first cell to cell `cols`. |
| Raster.ReplayRow | autogator/dataScanner.py:48-71 | A whole row takes the stage from its first cell to the next row's first cell. |
| Raster.ReplayRaster | autogator/dataScanner.py:47-71 | After `rows` rows, an ideal stage that started at the corner with the jog set stands at row `rows`'s first cell. The commanded steps visit exactly the cells of `CellPosition`. |
| Raster.SampleOrder | autogator/dataScanner.py:47-49 | There is one reading per cell, row by row: the reading of cell (r, c) is reading number r·edge + c. |
| Raster.ConsiderStep | autogator/dataScanner.py:50-52 | One comparison keeps the running-maximum invariant. The value is at least 0 and at least every reading so far. It is 0 with no location while no reading was positive, and otherwise it is the reading of the first cell that reached it. |
| Raster.TrackRowSummarises | autogator/dataScanner.py:48-52 | The invariant holds across one row. |
| Raster.TrackRowsSummarises | autogator/dataScanner.py:47-52 | The invariant holds across the first `rows` rows. |
| Raster.PeakIsFirstMaximum | autogator/dataScanner.py:27-52 | Over the whole grid, the maximum is at least 0 and at least every reading. There is no location exactly when no reading is positive, and then the maximum is 0. Otherwise the location is a cell of the grid whose reading is the maximum, the maximum is positive, and every earlier cell read strictly less: on a tie the first cell wins. |
| Raster.FirstMaximumIsPeak | autogator/dataScanner.py:27-52 | The converse: a cell whose positive reading is at least every reading and strictly above every earlier reading is the recorded one. |
| Raster.SinglePassOutcome | autogator/dataScanner.py:26-74 | A pass fails with a zero step exactly when the step is 0, and with a negative grid exactly when the grid size is negative. Otherwise it fails exactly when no reading is positive. On success the peak is positive, is at least every reading, and is what the detector reads at the returned position. That position is a cell of the grid before which every reading was strictly lower. |
| Raster.SinglePassCommands | autogator/dataScanner.py:30-74 | A pass starts with the absolute move to (x − d/2, y − d/2) and then the jog set to the step size. It sets the jog once. It makes one absolute move, or two when it succeeds. Once the grid size n is known, it makes n² y steps, n x steps and n² readings. |
| Raster.SinglePassEndsAt | autogator/dataScanner.py:30-74 | An ideal stage executing a pass ends with the jog at the step size. It is at the returned position on success, one row past the raster when nothing was positive, and at the corner when the pass stopped before the raster. |
| Raster.ConstantSignalParksAtCorner | autogator/dataScanner.py:47-74 | A detector reading the same positive value everywhere leaves the stage on the first cell, the corner. |
| Raster.StrictMaximumIsFound | autogator/dataScanner.py:47-74 | A reading strictly above every other is found, and the stage is parked where it was read. |
| Raster.AutoScanChain | autogator/dataScanner.py:15-24 | The three-pass chain written out: the second pass starts where the first parked and the third where the second parked. The chain stops after the first failure. |
| Raster.CoarseToFineShape | autogator/dataScanner.py:15-24 | A chain runs at most one pass per entry, the first of them centred on the start. Every pass but the last succeeded, and the chain stops early only on a failure. |
| Raster.CoarseToFineRecentres | autogator/dataScanner.py:15-24 | Every pass after the first is centred where the previous pass parked the stage. |
| Raster.ReportedReadings | autogator/dataScanner.py:17 | A pass's readings are followed, when it succeeded, by one more reading taken at the parked position. |
| Instruments.Motion.GetMotorPosition | autogator/dataScanner.py:30-31 | It reads the requested axis and changes nothing. |
| Instruments.Motion.GoToStageCoordinates | autogator/dataScanner.py:32 | An absolute move that keeps the jog step, logged in the trace. |
| Instruments.Motion.SetJogStepLinear | autogator/dataScanner.py:35 | It changes the jog step only, logged in the trace. |
| Instruments.Motion.MoveStep | autogator/dataScanner.py:55-58 | One jog step on one axis, forward adding and backward subtracting the jog step, logged in the trace. |
| Instruments.Oscilloscope.Measure | autogator/dataScanner.py:49 | It reads the signal at the stage's position and logs the reading. |
| Instruments.ReplayAppend | autogator/dataScanner.py:47-74 | Executing two command lists in turn is executing their concatenation. |
| KeyboardTesting.NoCharacterKeys | autogator/motion/state_machine/keyboardTesting.py:6-15 | `NO_CHARACTER_KEYS`: the eight key names, in the source's order. `ListedKeyDownIsNoCharKey` proves each one's key-down event is classified as a no-character key. |
| KeyboardTesting.Occurrences | autogator/motion/state_machine/keyboardTesting.py:20 | `str.count`: the non-overlapping occurrences, scanned from the left. The result is never more than the string's length. |
| KeyboardTesting.RemoveAll | autogator/motion/state_machine/keyboardTesting.py:19 | `str.replace(pat, "")`: every non-overlapping occurrence, scanned from the left, is removed. The result is no longer than the input and keeps only characters of the input. |
| KeyboardTesting.Stripped | autogator/motion/state_machine/keyboardTesting.py:19 | The event string with every `"KeyboardEvent("` removed and then every `" down)"`. It is never longer than the event. |
| KeyboardTesting.AnyEqual | autogator/motion/state_machine/keyboardTesting.py:23-25 | The loop's accumulator: false, OR-ed with `stripped == key` for each key in turn. `AnyEqualIsMembership` states what it means. |
| KeyboardTesting.NoCharKey | autogator/motion/state_machine/keyboardTesting.py:17-26 | The classification `is_no_char_key` returns. `NoCharKeyMeaning` states what it means. |
| KeyboardTesting.IsNoCharKey | autogator/motion/state_machine/keyboardTesting.py:17-26 | The original's loop, an early true on `"up"` followed by OR-ing `stripped == key` over the list, computes exactly `NoCharKey`. |
| KeyboardTesting.NoCharKeyMeaning | autogator/motion/state_machine/keyboardTesting.py:17-26 | An event is a no-character key exactly when its stripped form contains `"up"` at some index, or exactly equals one of the listed keys. |
| KeyboardTesting.AnyEqualIsMembership | autogator/motion/state_machine/keyboardTesting.py:23-25 | The OR accumulator is list membership by exact string equality. |
| KeyboardTesting.AnyEqualStaysTrue | autogator/motion/state_machine/keyboardTesting.py:23-25 | Once the accumulator is true, it stays true whatever keys follow. |
| KeyboardTesting.AnyEqualOrderFree | autogator/motion/state_machine/keyboardTesting.py:6-26 | Two key lists with the same members, in any order or repetition, give the same answer. |
| KeyboardTesting.OccurrencesPositive | autogator/motion/state_machine/keyboardTesting.py:20 | `count(pat) != 0` exactly when `pat` occurs at some index. |
| KeyboardTesting.RemoveAllLength | autogator/motion/state_machine/keyboardTesting.py:19 | `replace(pat, "")` shortens the string by \|pat\| for each occurrence `count` finds. |
| KeyboardTesting.RemoveAllAbsent | autogator/motion/state_machine/keyboardTesting.py:19 | A string without the pattern's last character is left unchanged. |
| KeyboardTesting.RemoveAllLeading | autogator/motion/state_machine/keyboardTesting.py:19 | A leading occurrence is removed first. |
| KeyboardTesting.RemoveAllSplit | autogator/motion/state_machine/keyboardTesting.py:19 | The two halves of a string are stripped separately when the second starts with a character that the pattern holds only in first place. |
| KeyboardTesting.KeyDownStripped | autogator/motion/state_machine/keyboardTesting.py:19 | The key-down event of a key whose name has no parenthesis is stripped back to the name. |
| KeyboardTesting.KeyUpStripped | autogator/motion/state_machine/keyboardTesting.py:19 | The key-up event of such a key is stripped to `"<name> up)"`. |
| KeyboardTesting.KeyEventClassified | autogator/motion/state_machine/keyboardTesting.py:17-26 | For such a key, the key-down event is a no-character key exactly when the name contains `"up"` or is listed. The key-up event always is one. |
| KeyboardTesting.KeyUpClassified | autogator/motion/state_machine/keyboardTesting.py:20-21 | Every key-up event of such a key is a no-character key. |
| KeyboardTesting.ListedKeyDownIsNoCharKey | autogator/motion/state_machine/keyboardTesting.py:6-26 | The key-down event of each of the eight listed keys is a no-character key. |
| KeyboardTesting.OrdinaryKeyDownIsCharKey | autogator/motion/state_machine/keyboardTesting.py:19-26 | `"KeyboardEvent(a down)"` is stripped to `"a"` and is a character key. |
| KeyboardTesting.CharKeyCount | autogator/motion/state_machine/keyboardTesting.py:31-35 | The number of strokes `clear` deletes: those that are not no-character keys. `CharKeyCountBound` bounds it. |
| KeyboardTesting.CharKeyCountBound | autogator/motion/state_machine/keyboardTesting.py:31-35 | The deletion count is at most the number of strokes. It reaches that number exactly when every stroke is a character key. |
| KeyboardTesting.CharKeyCountAppend | autogator/motion/state_machine/keyboardTesting.py:31-35 | Counting a recording split in two is counting each part. |
| KeyboardTesting.Clear | autogator/motion/state_machine/keyboardTesting.py:28-36 | It returns the number of recorded strokes and the number of character keys among them, the two figures printed. Recording restarts empty, and exactly that many backspaces are typed after what was typed before. |
| KeyboardTesting.Keyboard.StopRecording | autogator/motion/state_machine/keyboardTesting.py:29 | Recording stops, and the events recorded so far are returned. |
| KeyboardTesting.Keyboard.StartRecording | autogator/motion/state_machine/keyboardTesting.py:30 | A new, empty recording starts. |
| KeyboardTesting.Keyboard.Write | autogator/motion/state_machine/keyboardTesting.py:34 | The text is appended to what was typed. |

## Left out

- Plotting in `basic_scan` (matplotlib), the `time.sleep` settle delays and the console `print`s are not modelled. The printed values are returned as `PassReport`s and as `Clear`'s two counts.
- The oscilloscope set-up in `DataScanner.__init__` is driver configuration, so the constructor only stores the two instruments.
- Positions and readings are exact reals, not floating point. The grid size is `round()` of the exact quotient.
- The stage and the detector are ideal. Moves are exact, the position read back is the commanded one, and a reading depends only on the current position. Noise, drift and backlash are outside the model.
- Exceptions raised by the original become error results. The model does not capture the interpreter unwinding through `auto_scan`, only that later passes and their prints do not happen.
- DataScanning.DataScanner.ReportedPass: a split of `auto_scan`'s one pass and its prints, not a function of the original. `ScanRaster`, `ScanRow` and `ReadCell` are likewise splits of `basic_scan`'s loop nest.
- The conversion of a keyboard event object to its string is part of the keyboard library. Events are taken in their string form.
- KeyboardTesting.Keyboard.Write: text the hook would itself record while recording is not added to the new recording.
- keyboardTesting `run` is a wall-clock polling loop over keyboard hooks driving state machines. Those state machines, `motionSM` and `singleSM`, are not part of this model.
- The other files of the repository are not part of this model:
  - experiment scripts, laser and analyser drivers, file output;
  - interactive examples;
  - the package's version check.
