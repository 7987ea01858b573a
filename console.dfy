/** A model of ConsolePrint.cpprint: a row writer that paints one line per call
    onto a fixed-size curses window, erasing on the first call of a frame and
    refreshing on the call that finishes it, or prints plain lines when curses
    is not available. The curses window is kept abstract: an append-only log of
    the calls made on it, plus its cursor and its size. */
module ConsoleRenderer {

  /** One call made on the curses window. */
  datatype ScreenOp =
    | Erase                                        // blanks the window and homes the cursor
    | Put(row: nat, text: string, reverse: bool)   // text written at (row, 0), in reverse video or not
    | Diagnostic(text: string, reverse: bool)      // the error report written from (0, 0), followed by the row's text
    | Refresh                                      // commits the window to the terminal

  /** How the window answers the write of a row: it accepts it, or it raises a
      curses error. The report of the error (the exception, then the row, each
      ended by a newline) leaves the cursor at column 0 of line landRow; which
      line depends on the report's length, which the model keeps abstract. */
  datatype Driver = Healthy | Fault(landRow: nat)

  /** The fields of a ConsolePrint object together with the window it owns. */
  datatype Console = Console(
    useCurses: bool,
    start: bool,
    height: nat,
    width: nat,
    row: nat,
    col: nat,
    screen: seq<ScreenOp>,
    output: seq<string>)

  /** A curses window has at least one cell and its cursor lies inside it. */
  predicate WellFormed(c: Console)
  {
    c.useCurses ==> 1 <= c.height && 1 <= c.width && c.row < c.height && c.col < c.width
  }

  /** A reported fault leaves the cursor inside the window. */
  predicate Lands(c: Console, driver: Driver)
  {
    driver.Fault? ==> driver.landRow < c.height
  }

  /** The slice s[:width - 1]: one column is kept free at the right edge. */
  function Truncate(s: string, width: nat): (t: string)
    requires 1 <= width
    ensures t <= s && |t| <= width - 1
    ensures |t| == |s| || |t| == width - 1
  {
    if |s| <= width - 1 then s else s[..width - 1]
  }

  /** The first call of a frame erases the window, which homes the cursor. */
  function Opened(c: Console): Console
  {
    if c.start then c.(start := false, row := 0, col := 0, screen := c.screen + [Erase]) else c
  }

  /** A row is written only at the start of a line inside the window. */
  predicate CanWrite(c: Console)
  {
    c.row < c.height && c.col == 0
  }

  /** The window operations a call appended. */
  function NewOps(c: Console, r: Console): seq<ScreenOp>
    requires |c.screen| <= |r.screen|
  {
    r.screen[|c.screen|..]
  }

  /** One call cpprint(s, finish, reverse), with the handler catching the
      window's rejection of the write, as it evidently intends (the call as
      written is PrintAsWritten). */
  function Print(c: Console, s: string, finish: bool, reverse: bool, driver: Driver): (r: Console)
    requires WellFormed(c) && Lands(c, driver)
    ensures WellFormed(r)
    ensures r.useCurses == c.useCurses && r.height == c.height && r.width == c.width
    // Without curses the string is printed as a line and nothing else changes.
    ensures !c.useCurses ==> r == c.(output := c.output + [s])
    // With curses nothing is printed, and the window's log only grows.
    ensures c.useCurses ==> r.output == c.output && c.screen <= r.screen
    // After a write the cursor moves to the next line if there is one;
    // otherwise it stays on the last line, just past the text.
    ensures c.useCurses && driver.Healthy? && CanWrite(Opened(c)) ==>
      var at := Opened(c).row;
      if at + 1 < c.height then r.row == at + 1 && r.col == 0
      else r.row == at && r.col == |Truncate(s, c.width)|
    // A dropped row leaves the cursor where the frame had it.
    ensures c.useCurses && !CanWrite(Opened(c)) ==> r.row == Opened(c).row && r.col == Opened(c).col
    // A rejected write leaves the cursor at the start of the line where the
    // report, ended by a newline, left it.
    ensures c.useCurses && driver.Fault? && CanWrite(Opened(c)) ==>
      r.row == driver.landRow && r.col == 0
    // The next call opens a new frame iff this one finishes the frame and no
    // fault cut it short.
    ensures c.useCurses ==> (r.start <==> finish && !(driver.Fault? && CanWrite(Opened(c))))
  {
    if !c.useCurses then
      c.(output := c.output + [s])
    else
      var (row, col) := Cursor(c, s, driver);
      c.(start := finish && !(driver.Fault? && CanWrite(Opened(c))), row := row, col := col,
         screen := c.screen + Appended(c, s, finish, reverse, driver))
  }

  /** Where the cursor is left: past a dropped row, at the end of a failure's
      report, or after the written row. */
  function Cursor(c: Console, s: string, driver: Driver): (nat, nat)
    requires 1 <= c.width
  {
    var o := Opened(c);
    if !CanWrite(o) then (o.row, o.col)
    else if driver.Fault? then (driver.landRow, 0)
    else if o.row + 1 < c.height then (o.row + 1, 0)
    else (o.row, |Truncate(s, c.width)|)
  }

  /** The erase opening a frame, made by its first call. */
  function Erased(c: Console): seq<ScreenOp>
  {
    if c.start then [Erase] else []
  }

  /** The row's write at the cursor's line, or the report of its failure. */
  function Written(c: Console, s: string, reverse: bool, driver: Driver): seq<ScreenOp>
    requires 1 <= c.width
  {
    var o := Opened(c);
    if !CanWrite(o) then []
    else if driver.Fault? then [Diagnostic(Truncate(s, c.width), reverse)]
    else [Put(o.row, Truncate(s, c.width), reverse)]
  }

  /** The refresh closing a frame, unless a fault cut the call short. */
  function Refreshed(c: Console, finish: bool, driver: Driver): seq<ScreenOp>
  {
    if finish && !(driver.Fault? && CanWrite(Opened(c))) then [Refresh] else []
  }

  /** The calls one cpprint makes on the window. */
  function Appended(c: Console, s: string, finish: bool, reverse: bool, driver: Driver): seq<ScreenOp>
    requires WellFormed(c) && c.useCurses
  {
    Erased(c) + Written(c, s, reverse, driver) + Refreshed(c, finish, driver)
  }

  lemma {:induction false} AppendedByPrint(c: Console, s: string, finish: bool, reverse: bool, driver: Driver)
    requires WellFormed(c) && Lands(c, driver) && c.useCurses
    ensures NewOps(c, Print(c, s, finish, reverse, driver)) == Appended(c, s, finish, reverse, driver)
  {
    var a := Appended(c, s, finish, reverse, driver);
    assert Print(c, s, finish, reverse, driver).screen == c.screen + a;
    assert (c.screen + a)[|c.screen|..] == a;
  }

  /** Which frame calls one cpprint makes. */
  lemma {:induction false} PrintFrameOps(c: Console, s: string, finish: bool, reverse: bool, driver: Driver)
    requires WellFormed(c) && Lands(c, driver) && c.useCurses
    // The window is erased iff this is the first call of a frame.
    ensures Erase in NewOps(c, Print(c, s, finish, reverse, driver)) <==> c.start
    // A rejected write is reported from the top of the window.
    ensures Diagnostic(Truncate(s, c.width), reverse) in NewOps(c, Print(c, s, finish, reverse, driver))
      <==> driver.Fault? && CanWrite(Opened(c))
    // The terminal is refreshed iff the call finishes the frame unhindered.
    ensures Refresh in NewOps(c, Print(c, s, finish, reverse, driver))
      <==> Print(c, s, finish, reverse, driver).start
  {
    AppendedByPrint(c, s, finish, reverse, driver);
    var e, w, f := Erased(c), Written(c, s, reverse, driver), Refreshed(c, finish, driver);
    assert NewOps(c, Print(c, s, finish, reverse, driver)) == e + w + f;
    assert Erase !in w && Erase !in f;
    assert Refresh !in e && Refresh !in w;
    assert Diagnostic(Truncate(s, c.width), reverse) !in e + f;
  }

  /** Which row one cpprint writes. */
  lemma {:induction false} PrintWrites(c: Console, s: string, finish: bool, reverse: bool, driver: Driver)
    requires WellFormed(c) && Lands(c, driver) && c.useCurses
    // A row is written iff the cursor is at the start of a line inside the
    // window and the window accepts it; the text is s cut to width - 1.
    ensures (exists op :: op in NewOps(c, Print(c, s, finish, reverse, driver)) && op.Put?)
      <==> driver.Healthy? && CanWrite(Opened(c))
    ensures forall op :: op in NewOps(c, Print(c, s, finish, reverse, driver)) && op.Put? ==>
      op == Put(Opened(c).row, Truncate(s, c.width), reverse)
  {
    AppendedByPrint(c, s, finish, reverse, driver);
    var e, w, f := Erased(c), Written(c, s, reverse, driver), Refreshed(c, finish, driver);
    var ops := NewOps(c, Print(c, s, finish, reverse, driver));
    assert ops == e + w + f;
    forall op | op in ops && op.Put?
      ensures op in w
    {
      assert op in e || op in w || op in f;
    }
    if driver.Healthy? && CanWrite(Opened(c)) {
      assert ops[|e|] == Put(Opened(c).row, Truncate(s, c.width), reverse);
    }
  }

  /** What a call as written does: it returns, or an exception escapes it. */
  datatype Reply = Returned(state: Console) | Raised(state: Console)

  /** cpprint exactly as written. The handler names curses.CursesError, a name
      the curses module does not define (its exception is curses.error). So
      when the window rejects the write, evaluating the handler's class raises
      AttributeError, which escapes the call before the report or the refresh.
      The erase that opened the frame stays done. Whatever the rejected write
      itself left on the window is kept abstract. In every other case the call
      is the corrected Print. */
  function PrintAsWritten(c: Console, s: string, finish: bool, reverse: bool, driver: Driver): Reply
    requires WellFormed(c) && Lands(c, driver)
  {
    if c.useCurses && driver.Fault? && CanWrite(Opened(c)) then Raised(Opened(c))
    else Returned(Print(c, s, finish, reverse, driver))
  }

  /** As written, a rejected write never reaches the handler's report: the call
      raises with the frame opened, nothing reported, written or refreshed, and
      start left false. The corrected call reports the error instead. */
  lemma {:induction false} HandlerNeverRuns(c: Console, s: string, finish: bool, reverse: bool, landRow: nat)
    requires WellFormed(c) && c.useCurses && CanWrite(Opened(c)) && landRow < c.height
    ensures var r := PrintAsWritten(c, s, finish, reverse, Fault(landRow));
      r.Raised? && !r.state.start && r.state.output == c.output &&
      c.screen <= r.state.screen &&
      (forall op :: op in NewOps(c, r.state) ==> op == Erase) &&
      (Erase in NewOps(c, r.state) <==> c.start)
    ensures Diagnostic(Truncate(s, c.width), reverse) in NewOps(c, Print(c, s, finish, reverse, Fault(landRow)))
  {
    var o := Opened(c);
    assert o.screen == c.screen + Erased(c);
    assert NewOps(c, o) == Erased(c);
    PrintFrameOps(c, s, finish, reverse, Fault(landRow));
  }

  /** Off the rejected-write path the call as written is the corrected one. */
  lemma {:induction false} AsWrittenAgrees(c: Console, s: string, finish: bool, reverse: bool, driver: Driver)
    requires WellFormed(c) && Lands(c, driver)
    requires !(c.useCurses && driver.Fault? && CanWrite(Opened(c)))
    ensures PrintAsWritten(c, s, finish, reverse, driver) == Returned(Print(c, s, finish, reverse, driver))
  {
  }

  /** The first row of a frame on a three-line window is rejected: as written
      the call raises, leaving only the erase; corrected, it reports the error
      and leaves the cursor at the start of line 2. */
  lemma {:induction false} UnknownExceptionClass()
    ensures PrintAsWritten(Console(true, true, 3, 10, 0, 0, [], []), "abc", false, false, Fault(2))
      == Raised(Console(true, false, 3, 10, 0, 0, [Erase], []))
    ensures Print(Console(true, true, 3, 10, 0, 0, [], []), "abc", false, false, Fault(2))
      == Console(true, false, 3, 10, 2, 0, [Erase, Diagnostic("abc", false)], [])
  {
    var c := Console(true, true, 3, 10, 0, 0, [], []);
    assert Appended(c, "abc", false, false, Fault(2)) == [Erase, Diagnostic("abc", false)];
  }

  class ConsolePrint {
    const useCurses: bool
    var start: bool
    const height: nat
    const width: nat
    var row: nat
    var col: nat
    var screen: seq<ScreenOp>
    var output: seq<string>

    function State(): Console
      reads this
    {
      Console(useCurses, start, height, width, row, col, screen, output)
    }

    predicate Valid()
      reads this
    {
      WellFormed(State())
    }

    /** __init__: curses, when available, binds a window of the terminal's size. */
    constructor (useCurses: bool, height: nat, width: nat)
      requires useCurses ==> 1 <= height && 1 <= width
      ensures Valid()
      ensures this.useCurses == useCurses && this.height == height && this.width == width
      ensures start && row == 0 && col == 0 && screen == [] && output == []
    {
      this.useCurses := useCurses;
      this.height := height;
      this.width := width;
      start := true;
      row, col := 0, 0;
      screen, output := [], [];
    }

    /** cpprint(printString, finish, reverse), with the window's answer to the
        write passed in as `driver` and the handler catching a rejected write,
        as Print does. */
    method CpPrint(printString: string, driver: Driver, finish: bool := false, reverse: bool := false)
      requires Valid() && Lands(State(), driver)
      modifies this
      ensures State() == Print(old(State()), printString, finish, reverse, driver)
      ensures Valid()
    {
      if !useCurses {
        output := output + [printString];
        return;
      }
      ghost var c := State();
      ghost var r := Print(c, printString, finish, reverse, driver);
      assert r.screen == c.screen + Erased(c) + Written(c, printString, reverse, driver) + Refreshed(c, finish, driver);
      if start {
        screen, row, col, start := screen + [Erase], 0, 0, false;
      }
      assert State() == Opened(c);
      ghost var before := c.screen + Erased(c);
      assert screen == before;
      if row < height && col == 0 {
        var text := Truncate(printString, width);
        if driver.Fault? {
          screen, row, col := screen + [Diagnostic(text, reverse)], driver.landRow, 0;
          assert screen == before + Written(c, printString, reverse, driver) + Refreshed(c, finish, driver);
          assert (row, col) == Cursor(c, printString, driver) && !start;
          return;
        }
        screen := screen + [Put(row, text, reverse)];
        if row + 1 < height {
          row, col := row + 1, 0;
        } else {
          col := |text|;
        }
      }
      assert screen == before + Written(c, printString, reverse, driver);
      assert (row, col) == Cursor(c, printString, driver);
      if finish {
        screen, start := screen + [Refresh], true;
      }
      assert screen == before + Written(c, printString, reverse, driver) + Refreshed(c, finish, driver);
    }
  }

  /** One call's arguments. */
  datatype Row = Row(text: string, finish: bool, reverse: bool)

  /** A sequence of calls that the window all accepts. */
  function PrintAll(c: Console, rows: seq<Row>): (r: Console)
    requires WellFormed(c)
    ensures WellFormed(r)
    ensures r.useCurses == c.useCurses && r.height == c.height && r.width == c.width
    decreases |rows|
  {
    if rows == [] then c
    else PrintAll(Print(c, rows[0].text, rows[0].finish, rows[0].reverse, Healthy), rows[1..])
  }

  /** The rows as written from line `row` down, one per line. */
  function Puts(row: nat, rows: seq<Row>, width: nat): seq<ScreenOp>
    requires 1 <= width
    decreases |rows|
  {
    if rows == [] then []
    else [Put(row, Truncate(rows[0].text, width), rows[0].reverse)] + Puts(row + 1, rows[1..], width)
  }

  function Texts(rows: seq<Row>): seq<string>
    decreases |rows|
  {
    if rows == [] then [] else [rows[0].text] + Texts(rows[1..])
  }

  /** Rows that leave text on the screen and do not finish the frame. */
  predicate Body(rows: seq<Row>)
  {
    forall i :: 0 <= i < |rows| ==> rows[i].text != [] && !rows[i].finish
  }

  /** How many of `count` rows fit on `free` lines. */
  function Painted(count: int, free: int): int
  {
    if count <= free then count else free
  }

  /** Without curses every call prints its string as one line, in order: the
      fallback accepts the same call sequence. */
  lemma {:induction false} FallbackPrintsEveryRow(c: Console, rows: seq<Row>)
    requires WellFormed(c) && !c.useCurses
    ensures PrintAll(c, rows) == c.(output := c.output + Texts(rows))
    decreases |rows|
  {
    if rows != [] {
      var next := Print(c, rows[0].text, rows[0].finish, rows[0].reverse, Healthy);
      FallbackPrintsEveryRow(next, rows[1..]);
    }
  }

  /** Once the cursor is parked past the text on the last line, every further
      row of the frame is dropped. */
  lemma {:induction false} ParkedCursorDropsRows(c: Console, rows: seq<Row>)
    requires WellFormed(c) && c.useCurses && !c.start && c.col != 0
    requires forall i :: 0 <= i < |rows| ==> !rows[i].finish
    ensures PrintAll(c, rows) == c
    decreases |rows|
  {
    if rows != [] {
      var first := rows[0];
      assert c.screen + [] + [] + [] == c.screen;
      assert Print(c, first.text, first.finish, first.reverse, Healthy) == c;
      ParkedCursorDropsRows(c, rows[1..]);
    }
  }

  /** One body row inside an open frame, at the start of a line. */
  lemma {:induction false} PrintBodyRow(c: Console, x: Row)
    requires WellFormed(c) && c.useCurses && !c.start && c.col == 0 && 2 <= c.width
    requires x.text != [] && !x.finish
    ensures var r := Print(c, x.text, x.finish, x.reverse, Healthy);
      r.screen == c.screen + [Put(c.row, Truncate(x.text, c.width), x.reverse)] &&
      !r.start && r.output == c.output &&
      (c.row + 1 < c.height ==> r.row == c.row + 1 && r.col == 0) &&
      (c.row + 1 >= c.height ==> r.row == c.row && r.col == |Truncate(x.text, c.width)| && r.col != 0)
  {
  }

  /** Inside an open frame, rows that fit below the cursor are painted one per
      line from the cursor's line down. */
  lemma {:induction false} PaintFits(c: Console, rows: seq<Row>)
    requires WellFormed(c) && c.useCurses && !c.start && c.col == 0 && 2 <= c.width
    requires Body(rows) && c.row + |rows| <= c.height
    ensures var r := PrintAll(c, rows);
      r.screen == c.screen + Puts(c.row, rows, c.width) &&
      !r.start && r.output == c.output &&
      (c.row + |rows| < c.height ==> r.row == c.row + |rows| && r.col == 0) &&
      (c.row + |rows| == c.height ==>
        r.row == c.height - 1 && r.col == |Truncate(rows[|rows| - 1].text, c.width)| && r.col != 0)
    decreases |rows|
  {
    if rows != [] {
      var first, rest := rows[0], rows[1..];
      var next := Print(c, first.text, first.finish, first.reverse, Healthy);
      PrintBodyRow(c, first);
      var r := PrintAll(next, rest);
      assert PrintAll(c, rows) == r;
      var put := Put(c.row, Truncate(first.text, c.width), first.reverse);
      assert Puts(c.row, rows, c.width) == [put] + Puts(c.row + 1, rest, c.width);
      if c.row + 1 < c.height {
        assert Body(rest);
        PaintFits(next, rest);
        assert next.screen == c.screen + [put];
        if rest != [] {
          assert rows[|rows| - 1] == rest[|rest| - 1];
        }
      } else {
        assert rest == [];
        assert r == next;
      }
    }
  }

  /** Inside an open frame, rows are painted one per line from the cursor's
      line down until the window is full; the rest are dropped. */
  lemma {:induction false} PaintRows(c: Console, rows: seq<Row>)
    requires WellFormed(c) && c.useCurses && !c.start && c.col == 0 && 2 <= c.width
    requires Body(rows)
    ensures var r := PrintAll(c, rows);
      var painted := Painted(|rows|, c.height - c.row);
      r.screen == c.screen + Puts(c.row, rows[..painted], c.width) &&
      !r.start && r.output == c.output &&
      (c.row + |rows| < c.height ==> r.row == c.row + |rows| && r.col == 0) &&
      (c.row + |rows| >= c.height ==>
        0 < painted && r.row == c.height - 1 && r.col == |Truncate(rows[painted - 1].text, c.width)|)
  {
    var painted := Painted(|rows|, c.height - c.row);
    var shown, dropped := rows[..painted], rows[painted..];
    assert rows == shown + dropped;
    assert Body(shown);
    PaintFits(c, shown);
    var mid := PrintAll(c, shown);
    PrintAllAppend(c, shown, dropped);
    if |rows| <= c.height - c.row {
      assert dropped == [];
      assert PrintAll(mid, dropped) == mid;
    } else {
      assert shown[painted - 1] == rows[painted - 1];
      assert forall i :: 0 <= i < |dropped| ==> dropped[i] == rows[painted + i];
      ParkedCursorDropsRows(mid, dropped);
    }
  }

  /** The first call of a frame does what it would do on the erased window. */
  lemma {:induction false} OpenedFirst(c: Console, rows: seq<Row>)
    requires WellFormed(c) && c.useCurses && rows != []
    ensures WellFormed(Opened(c))
    ensures PrintAll(c, rows) == PrintAll(Opened(c), rows)
  {
    var first := rows[0];
    var o := Opened(c);
    assert Opened(o) == o;
    assert o.screen + [] == o.screen;
    assert Print(c, first.text, first.finish, first.reverse, Healthy)
        == Print(o, first.text, first.finish, first.reverse, Healthy);
  }

  /** Printing two runs of rows is printing their concatenation. */
  lemma {:induction false} PrintAllAppend(c: Console, a: seq<Row>, b: seq<Row>)
    requires WellFormed(c)
    ensures PrintAll(c, a + b) == PrintAll(PrintAll(c, a), b)
    decreases |a|
  {
    if a == [] {
      assert a + b == b;
    } else {
      var next := Print(c, a[0].text, a[0].finish, a[0].reverse, Healthy);
      assert (a + b)[0] == a[0];
      assert (a + b)[1..] == a[1..] + b;
      PrintAllAppend(next, a[1..], b);
    }
  }

  /** One dashboard frame: body rows followed by the empty finishing row. The
      window is erased once, the rows fill it from the top, the empty row lands
      on the next line if there is one, the terminal is refreshed once, and the
      next call opens a new frame. */
  lemma {:induction false} Frame(c: Console, rows: seq<Row>)
    requires WellFormed(c) && c.useCurses && c.start && 2 <= c.width
    requires rows != [] && Body(rows)
    ensures var r := PrintAll(c, rows + [Row("", true, false)]);
      var painted := Painted(|rows|, c.height);
      r.start && r.output == c.output &&
      r.screen == c.screen + [Erase] + Puts(0, rows[..painted], c.width)
                  + (if |rows| < c.height then [Put(|rows|, "", false)] else []) + [Refresh]
  {
    var finishing := [Row("", true, false)];
    OpenedFirst(c, rows);
    var o := Opened(c);
    PaintRows(o, rows);
    PrintAllAppend(c, rows, finishing);
    var mid := PrintAll(c, rows);
    if |rows| >= c.height {
      assert mid.col != 0;
    }
    FinishingRow(mid);
    assert PrintAll(mid, finishing) == Print(mid, "", true, false, Healthy);
  }

  /** The empty finishing row lands at the cursor if it is at the start of a
      line, and the terminal is refreshed. */
  lemma {:induction false} FinishingRow(c: Console)
    requires WellFormed(c) && c.useCurses && !c.start
    ensures var r := Print(c, "", true, false, Healthy);
      r.start && r.output == c.output &&
      r.screen == c.screen + (if CanWrite(c) then [Put(c.row, "", false)] else []) + [Refresh]
  {
    var tail := if CanWrite(c) then [Put(c.row, "", false)] else [];
    assert Written(c, "", false, Healthy) == tail;
    assert Appended(c, "", true, false, Healthy) == tail + [Refresh];
  }

  /** A frame of height + 1 body rows: the last one is dropped without error. */
  lemma {:induction false} OverfullFrameDropsLastRow(c: Console, rows: seq<Row>)
    requires WellFormed(c) && c.useCurses && c.start && 2 <= c.width
    requires |rows| == c.height + 1 && Body(rows)
    ensures PrintAll(c, rows).screen == c.screen + [Erase] + Puts(0, rows[..c.height], c.width)
  {
    OpenedFirst(c, rows);
    PaintRows(Opened(c), rows);
  }

  /** With either handler, a fault on the finishing call skips the refresh, so
      the next call does not erase: it continues the same frame. */
  lemma {:induction false} FaultOnFinishKeepsFrame(c: Console, s: string, reverse: bool, landRow: nat, t: string)
    requires WellFormed(c) && c.useCurses && CanWrite(Opened(c))
    requires landRow < c.height
    ensures var r := Print(c, s, true, reverse, Fault(landRow));
      !r.start && Refresh !in NewOps(c, r) &&
      Erase !in NewOps(r, Print(r, t, false, false, Healthy))
    ensures var w := PrintAsWritten(c, s, true, reverse, Fault(landRow)).state;
      !w.start && Refresh !in NewOps(c, w) &&
      Erase !in NewOps(w, Print(w, t, false, false, Healthy))
  {
  }

  /** After a rejected write the report leaves the cursor at the start of a
      line, so the frame's next row is written there, below the report. */
  lemma {:induction false} RowsContinueBelowReport(c: Console, s: string, finish: bool, reverse: bool, landRow: nat, x: Row)
    requires WellFormed(c) && c.useCurses && CanWrite(Opened(c)) && 2 <= c.width
    requires landRow < c.height
    requires x.text != [] && !x.finish
    ensures var r := Print(c, s, finish, reverse, Fault(landRow));
      !r.start && r.row == landRow && r.col == 0 &&
      Print(r, x.text, x.finish, x.reverse, Healthy).screen
        == r.screen + [Put(landRow, Truncate(x.text, c.width), x.reverse)]
  {
    var r := Print(c, s, finish, reverse, Fault(landRow));
    PrintBodyRow(r, x);
  }
}
