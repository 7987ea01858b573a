# Validator-cluster monitor: rate estimator, console renderer, CSV buffer

This project models the three stateful pieces of the monitor's statistics
module, `txnintegration/stats_utils.py`, and proves properties about them.

- **TransactionRate** (`rate.dfy`, module `RateEstimator`) estimates a rate over
  a window of samples. Each time a validator's committed-block count changes,
  it appends a sample (transaction count, time) to a FIFO history. It then
  computes the average transaction rate and the average block time from the
  newest sample (the tip) to the oldest retained one (the tail). Finally it
  evicts at most one sample once the history exceeds the window size.
- **ConsolePrint.cpprint** (`console.dfy`, module `ConsoleRenderer`) writes rows
  onto a fixed-size curses window:
  - The first call of a frame erases the window.
  - A row is written only at column 0 of a line inside the window, cut to
    `width - 1` characters.
  - After a write the cursor moves to the next line if there is one. Otherwise
    it stays on the last line, just past the text.
  - The call that finishes a frame refreshes the terminal and opens the next
    frame.
  - A rejected write is meant to be reported at the top of the window. As
    written, the handler names an exception class that curses does not
    define, so the error escapes instead (see "## Findings").
  - Without curses, every row is printed as a plain line.
- **CsvManager** (`csv.dfy`, module `CsvLog`) keeps a field buffer:
  - `csv_append` extends the buffer and `csv_newline` clears it.
  - A header or data write prepends the leading field (`"time"` or the
    timestamp), hands the row to the CSV writer and clears the buffer.

Each source class is a Dafny class with the source's fields. Each public
method that changes state is proved equal to a pure step function of the old
state: `Calculate`, `Print` and `Step`. The private `_csv_write`
(`CsvManager.CsvWrite`) states its new state directly; it is the last step of
both header and data writes. The properties are proved about those
functions and about runs of them (`Run`, `PrintAll`).

Abstractions:
- The clock reading `time.time()` is a parameter (`now`).
- Rates and times are `real`.
- The curses window is an append-only log of the calls made on it
  (`Erase`, `Put`, `Diagnostic`, `Refresh`), plus its cursor and its size.
- The CSV writer is a ghost sequence of the rows it was given.

## Behaviour worth knowing

The model follows the code as written, except for the one defect listed
under "## Findings":
- **Unchanged block count.** The docstring promises `avg_txn_rate` and
  `avg_block_time` as the return values
  (`txnintegration/stats_utils.py:135-137`). When the block count is unchanged,
  though, the body (lines 140-161) falls off the end and returns `None`.
  - The model returns `NoUpdate` and changes no field.
  - Callers read the stale `avg_txn_rate`/`avg_block_time` fields directly
    (`UnchangedPollingIsNoOp`).
  - A second call with the same block count never repeats the `(0.0, 0.0)`
    of the first sample.
- **Zero elapsed time.** A zero elapsed time raises `ZeroDivisionError` at line
  154. The model returns `ZeroElapsedTime` together with the state the object
  has when the exception escapes:
  - the block count is recorded;
  - the sample is appended;
  - `window_time`/`window_txn_count` are set;
  - the averages keep their old values;
  - nothing is evicted.

  One such fault at a full window leaves `windowSize + 1` samples
  (`WindowStaysBounded`). The excess is then permanent:
  - every later computed pair appends one sample and evicts one;
  - every later fault adds one more (`OverfullWindowStays`).

  A clock stuck at the tail's timestamp faults on every change of the block
  count, so the history grows without bound (`StuckClockGrows`).
- **Dropped rows.** The guard at line 48 drops a row whenever the cursor is not
  at column 0, not only below the window. This happens after a non-empty write
  on the last line has parked the cursor past its text (lines 51-52).
- **Fault during the finishing call.** In both the written and the corrected
  handler (see "## Findings"), a rejected write skips lines 53-55. So no
  refresh happens and `start` stays false, and the next call does not erase
  the window (`FaultOnFinishKeepsFrame`, `HandlerNeverRuns`). With the
  corrected handler, the next call writes below the report, where the
  report's final newline left the cursor (`RowsContinueBelowReport`).

## Model

| member | source | states |
|---|---|---|
| `RateEstimator.Calculate` | txnintegration/stats_utils.py:140-161 | Unchanged count: no field changes and the result is `NoUpdate`. Changed count: it is recorded and exactly one sample `(txn, now)` is appended as the tip. With one sample both averages are 0.0. Otherwise rate × elapsed = Δtxn and block time × (samples − 1) = elapsed, tip to tail, counted before eviction. Only the oldest sample is evicted, only after a computation over more than `windowSize` samples. A fault happens exactly when the tail's time equals `now`. |
| `RateEstimator.TransactionRate.CalculateTxnRate` | txnintegration/stats_utils.py:118-161 | The new fields and the result are exactly those `Calculate` gives for the old fields. The window size defaults to 10, as `window_size=10` does. |
| `RateEstimator.TransactionRate.constructor` | txnintegration/stats_utils.py:110-116 | Empty history, block count 0, averages and window fields 0. |
| `RateEstimator.UnchangedPollingIsNoOp` | txnintegration/stats_utils.py:140 | Any number of polls with the stored block count leave every field unchanged. |
| `RateEstimator.WindowStaysBounded` | txnintegration/stats_utils.py:157-159 | A history within `windowSize ≥ 1` stays within it after a call that does not fault. A faulting call leaves one sample more. |
| `RateEstimator.SteadyStep` | txnintegration/stats_utils.py:143-159 | When every retained sample is older than the poll and counted no more transactions, the call does not fault. It keeps the window bounded and both averages non-negative. It passes that ordering on to the next poll. |
| `RateEstimator.SteadyRun` | txnintegration/stats_utils.py:143-159 | Polls with an advancing clock and a non-decreasing counter keep the window within `windowSize` and both averages non-negative. If every poll changes the block count, the window ends with min(old + polls, windowSize) samples. |
| `RateEstimator.AdvancingStep` | txnintegration/stats_utils.py:140-159 | A poll later than every retained sample never faults and keeps the window within `windowSize`. A changed count grows the window to min(old + 1, windowSize). Every sample stays older than any later poll. |
| `RateEstimator.AdvancingRun` | txnintegration/stats_utils.py:140-159 | Under a strictly advancing clock, whatever the transaction counter does, the window never exceeds `windowSize`. If every poll changes the block count, the window ends with min(old + polls, windowSize) samples. |
| `RateEstimator.WindowFills` | txnintegration/stats_utils.py:157-159 | From a fresh estimator, n polls under a strictly advancing clock that each change the block count leave exactly min(n, windowSize) samples. |
| `RateEstimator.OverfullWindowStays` | txnintegration/stats_utils.py:143-159 | Once the history exceeds `windowSize`, it never shrinks. After any run it holds its old length plus one sample per faulting poll. |
| `RateEstimator.StuckClockGrows` | txnintegration/stats_utils.py:143-159 | With the clock stuck at the tail's timestamp, every poll that changes the block count faults and adds a sample. The tail is kept, so the history grows by one per poll, without bound. |
| `RateEstimator.TwoSampleWindow` | txnintegration/stats_utils.py:150-156 | Tail (100 txns, t=0) and tip (150 txns, t=5) give rate 10.0 and block time 5.0. |
| `ConsoleRenderer.Truncate` | txnintegration/stats_utils.py:49 | The written text is a prefix of the row with at most `width − 1` characters. It is the whole row or exactly `width − 1` characters. |
| `ConsoleRenderer.Print` | txnintegration/stats_utils.py:37-63 | With the handler at line 56 catching the rejected write, as intended. The cursor stays inside the window. Without curses the row is appended to the output and nothing else changes. With curses nothing is printed and the window log only grows. After a write the cursor goes to `(row+1, 0)` if that line exists, else to `(row, len(text))`. A dropped row leaves the cursor in place. A fault leaves it at column 0 of the line where the report ended. The next call opens a new frame iff this call finished one without a fault. |
| `ConsoleRenderer.PrintFrameOps` | txnintegration/stats_utils.py:43-61 | Under the corrected handler, a call erases the window iff it is the first of a frame. It reports a diagnostic iff the write was attempted and rejected. It refreshes iff it finishes the frame without a fault. |
| `ConsoleRenderer.PrintWrites` | txnintegration/stats_utils.py:46-52 | A row is written iff the window accepts it and the cursor is at column 0 of a line inside the window. The only write is the truncated row at the cursor's line, with the requested attribute. |
| `ConsoleRenderer.ConsolePrint.constructor` | txnintegration/stats_utils.py:29-35 | A window of at least one cell, `start` set, cursor at the origin, nothing written or printed. |
| `ConsoleRenderer.ConsolePrint.CpPrint` | txnintegration/stats_utils.py:37-63 | With the corrected handler, the new state is exactly the one `Print` gives for the old state. The window invariant is kept. By default the row neither finishes the frame nor is reversed, matching the source's `finish=False, reverse=False`. |
| `ConsoleRenderer.PrintAll` | txnintegration/stats_utils.py:37-63 | Any fault-free run of calls keeps the cursor inside the window and the mode and size fixed. |
| `ConsoleRenderer.FallbackPrintsEveryRow` | txnintegration/stats_utils.py:62-63 | Without curses, every call of a run prints its row as one line, in order, and nothing else changes. |
| `ConsoleRenderer.ParkedCursorDropsRows` | txnintegration/stats_utils.py:48 | Once the cursor is off column 0 inside an open frame, every further non-finishing row is dropped. |
| `ConsoleRenderer.PrintBodyRow` | txnintegration/stats_utils.py:48-52 | On a window at least two columns wide, a non-empty row at column 0 of an open frame appends exactly one write at the cursor's line. The cursor moves down or parks off column 0 on the last line. |
| `ConsoleRenderer.PaintFits` | txnintegration/stats_utils.py:46-52 | On a window at least two columns wide, in an open frame, non-empty rows that fit below the cursor are written one per line from the cursor's line down. The cursor ends at column 0 of the next line, or parked past the last row's text on the bottom line. |
| `ConsoleRenderer.PaintRows` | txnintegration/stats_utils.py:46-52 | On a window at least two columns wide, in an open frame, non-empty rows go one per line from the cursor's line down until the window is full. Later rows are dropped. The final cursor is stated for both cases. |
| `ConsoleRenderer.OpenedFirst` | txnintegration/stats_utils.py:43-45 | The first call of a frame behaves as it would on the erased window with the cursor at the origin. |
| `ConsoleRenderer.PrintAllAppend` | txnintegration/stats_utils.py:37-63 | Running two sequences of calls is the same as running their concatenation. |
| `ConsoleRenderer.Frame` | txnintegration/stats_utils.py:171-308 | On a window at least two columns wide, a `print_stats`-shaped frame is non-empty body rows followed by `("", finish=True)`. It gives one erase, then the first min(rows, height) rows from line 0, then the empty row if a line is left, then one refresh, and reopens the frame. |
| `ConsoleRenderer.FinishingRow` | txnintegration/stats_utils.py:48-55 | Inside a frame, the empty finishing row is written at the cursor iff the cursor is at the start of a line. The terminal is then refreshed, and the next call opens a new frame. |
| `ConsoleRenderer.OverfullFrameDropsLastRow` | txnintegration/stats_utils.py:48-52 | On a window at least two columns wide, a frame of `height + 1` body rows writes the first `height` rows and drops the last without a fault. |
| `ConsoleRenderer.FaultOnFinishKeepsFrame` | txnintegration/stats_utils.py:53-61 | With either handler, a fault on the finishing call leaves `start` false and does not refresh. The next call does not erase. |
| `ConsoleRenderer.RowsContinueBelowReport` | txnintegration/stats_utils.py:56-61 | With the corrected handler, after a rejected write the cursor is at column 0 of the report's last line and the frame stays open. On a window at least two columns wide, the next body row is written on that line. |
| `ConsoleRenderer.HandlerNeverRuns` | txnintegration/stats_utils.py:43-56 | As written, a rejected write makes the call raise. The frame's erase stays done and `start` stays false. No report, write or refresh is logged, and nothing is printed. The corrected call logs the report instead. |
| `ConsoleRenderer.AsWrittenAgrees` | txnintegration/stats_utils.py:37-63 | Whenever the window does not reject a write, the call as written returns exactly the corrected call's state. |
| `ConsoleRenderer.UnknownExceptionClass` | txnintegration/stats_utils.py:50-61 | Input that shows the defect: the first row of a frame is rejected on a three-line window. As written the call raises with only the erase logged. Corrected, it logs the erase and the report, and leaves the cursor at `(2, 0)`. |
| `CsvLog.Step` | txnintegration/stats_utils.py:86-106 | The writer's rows are never taken back, and one call adds at most one row. |
| `CsvLog.Appends` | txnintegration/stats_utils.py:89-90 | The i-th call of the sequence appends the i-th field list. |
| `CsvLog.AppendsExtendBuffer` | txnintegration/stats_utils.py:89-90 | A run of `csv_append` calls extends the buffer by all their fields in order and writes nothing. |
| `CsvLog.RowCollectsAppends` | txnintegration/stats_utils.py:86-106 | The sequence `csv_newline`, then appends, then a header or data write emits one row: the leading field, then every appended field in order, then the write's own fields. The buffer is left empty. |
| `CsvLog.RunAppend` | txnintegration/stats_utils.py:86-106 | Running two sequences of calls is the same as running their concatenation. |
| `CsvLog.RowsOnlyGrow` | txnintegration/stats_utils.py:104-106 | Over any run the writer keeps its earlier rows and gains exactly one row per header or data write. |
| `CsvLog.CsvManager.constructor` | txnintegration/stats_utils.py:74-77 | Empty buffer, no rows written. |
| `CsvLog.CsvManager.CsvNewline` | txnintegration/stats_utils.py:86-87 | The buffer is emptied and no row is written. |
| `CsvLog.CsvManager.CsvAppend` | txnintegration/stats_utils.py:89-90 | The buffer is extended by the list and no row is written. |
| `CsvLog.CsvManager.CsvWriteHeader` | txnintegration/stats_utils.py:92-96 | Emits `["time"] + buffer + header` (no header fields when `None`, the default as in `headerlist=None`) and leaves the buffer empty. |
| `CsvLog.CsvManager.CsvWriteData` | txnintegration/stats_utils.py:98-102 | Emits `[now] + buffer + data` (no data fields when `None`, the default as in `datalist=None`) and leaves the buffer empty. |
| `CsvLog.CsvManager.CsvWrite` | txnintegration/stats_utils.py:104-106 | The writer gains the buffer as one row and the buffer is emptied. |

## Findings

| source | as written | input that shows it | evidently intended | confidence | as-written member | corrected member |
|---|---|---|---|---|---|---|
| txnintegration/stats_utils.py:56 | `except curses.CursesError as e:` names a class the curses module does not define; its exception is `curses.error`. When the write at line 50 is rejected, evaluating that name raises `AttributeError`, which escapes `cpprint`. Lines 57-61 never run. | Curses mode, first call of a frame, cursor at (0, 0), window rejects the write (`UnknownExceptionClass`) | Catch the curses error and show it at the top of the window (the comment at line 57): `except curses.error as e:` | high; not executed | `ConsoleRenderer.PrintAsWritten` (`ConsoleRenderer.HandlerNeverRuns`) | `ConsoleRenderer.Print` |

## Left out

- `ConsolePrint.cpstop` (lines 65-70): it only restores terminal modes through
  curses calls, with no state of its own to model.
- `curses.initscr` and the `curses_imported` test: whether curses is used and
  the window's size are constructor parameters.
- Terminal resizing: the window keeps its size, whereas `getmaxyx` is re-read
  on every call.
- ConsoleRenderer.Print: a curses error is modelled only at the row's `addstr`
  (line 50). The diagnostic's text (exception type, message, `pos`, `hw`) is
  abstract. The report ends in a newline (line 61), so the corrected handler
  leaves the cursor at column 0, but the line it lands on is an input. These
  are left out:
  - errors raised by `erase`, `move` or `refresh`;
  - partial writes;
  - a second error raised inside the handler, for instance when the report's
    newline falls on the last line.
- ConsoleRenderer.PrintAsWritten: after the `AttributeError` the state is the
  opened frame. Whatever the rejected `addstr` itself put on the window, and
  where it left the cursor, is not modelled. Neither is the exception
  propagating out of `print_stats`.
- ConsoleRenderer.Print: a row's characters are taken to be printable and one
  screen column wide each. The slice at line 49 counts elements of a Python 2
  byte string, while `addstr` moves the cursor by display cells:
  - multi-byte characters take fewer columns than bytes;
  - tabs expand;
  - a newline moves to the next line.

  So the parked column `|Truncate(s, width)|` and the one-line-per-row layout
  hold only for such rows.
- ConsoleRenderer.PrintBodyRow, ConsoleRenderer.PaintFits,
  ConsoleRenderer.PaintRows, ConsoleRenderer.Frame,
  ConsoleRenderer.OverfullFrameDropsLastRow and
  ConsoleRenderer.RowsContinueBelowReport are stated only for windows at least
  two columns wide. On a one-column window line 49 cuts every row to `""`, so
  a write on the last line leaves the cursor at column 0 and each later row is
  written on that line again instead of being dropped. `Print` itself covers
  that case.
- `StatsPrintManager.print_stats` (lines 164-308): the format specifications and
  the reading of external stats objects are not modelled. Only its call shape
  is kept (`ConsoleRenderer.Frame`): body rows, then a finishing empty row.
- `CsvManager.open_csv_file` / `close_csv_file` and `csv.writer`: file I/O. The
  writer is the ghost row log. Writing before a file was opened raises
  `AttributeError` in the source; the model writes regardless.
- The clock, `time.time()`, is an input.
- IEEE floating point: rates and times are exact reals, and division by zero
  is the explicit `ZeroElapsedTime` outcome.
- RateEstimator.SteadyRun: the window bound and the non-negative averages are
  proved only for polls whose clock strictly advances and whose transaction
  counter never decreases. The window bound alone needs only the clock
  (`AdvancingRun`). With a repeated tail timestamp the source raises before
  it evicts, and the history then stays over the window
  (`OverfullWindowStays`, `StuckClockGrows`).
