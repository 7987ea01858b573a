/** A model of CsvManager's row buffer: fields accumulate in a list until a
    header or data write prepends the row's leading field, hands the row to the
    CSV writer and empties the list. The writer is abstract: the sequence of
    rows it has been given. */
module CsvLog {

  /** One CSV field: a label, a counter or a measurement. */
  datatype Field = Text(s: string) | Integer(i: int) | Float(x: real)

  datatype Option<T> = None | Some(value: T)

  /** An optional list argument; None adds nothing. */
  function Fields(list: Option<seq<Field>>): seq<Field>
  {
    if list.Some? then list.value else []
  }

  /** One call on a CsvManager; WriteData carries the clock reading it stamps
      the row with. */
  datatype CsvOp =
    | Newline
    | Append(fields: seq<Field>)
    | WriteHeader(header: Option<seq<Field>>)
    | WriteData(data: Option<seq<Field>>, now: real)

  predicate Writes(op: CsvOp)
  {
    op.WriteHeader? || op.WriteData?
  }

  /** The row's leading field: the column title "time", or the timestamp. */
  function Lead(op: CsvOp): Field
    requires Writes(op)
  {
    if op.WriteHeader? then Text("time") else Float(op.now)
  }

  function Extra(op: CsvOp): seq<Field>
    requires Writes(op)
  {
    if op.WriteHeader? then Fields(op.header) else Fields(op.data)
  }

  /** The pending fields and the rows the writer has been given. */
  datatype CsvState = CsvState(buffer: seq<Field>, rows: seq<seq<Field>>)

  /** One call. */
  function Step(s: CsvState, op: CsvOp): (r: CsvState)
    // The writer's rows are never taken back, and one call gives it at most one.
    ensures s.rows <= r.rows && |r.rows| <= |s.rows| + 1
  {
    match op
    case Newline => s.(buffer := [])
    case Append(fields) => s.(buffer := s.buffer + fields)
    case WriteHeader(header) => CsvState([], s.rows + [[Text("time")] + s.buffer + Fields(header)])
    case WriteData(data, now) => CsvState([], s.rows + [[Float(now)] + s.buffer + Fields(data)])
  }

  function Run(s: CsvState, ops: seq<CsvOp>): CsvState
    decreases |ops|
  {
    if ops == [] then s else Run(Step(s, ops[0]), ops[1..])
  }

  function Concat(lists: seq<seq<Field>>): seq<Field>
    decreases |lists|
  {
    if lists == [] then [] else lists[0] + Concat(lists[1..])
  }

  function Appends(lists: seq<seq<Field>>): (ops: seq<CsvOp>)
    ensures |ops| == |lists|
    ensures forall i :: 0 <= i < |ops| ==> ops[i] == Append(lists[i])
    decreases |lists|
  {
    if lists == [] then [] else [Append(lists[0])] + Appends(lists[1..])
  }

  /** How many calls of the sequence hand a row to the writer. */
  function WriteCount(ops: seq<CsvOp>): nat
    decreases |ops|
  {
    if ops == [] then 0 else (if Writes(ops[0]) then 1 else 0) + WriteCount(ops[1..])
  }

  /** Appends only extend the buffer, in call order, and write nothing. */
  lemma {:induction false} AppendsExtendBuffer(s: CsvState, lists: seq<seq<Field>>)
    ensures Run(s, Appends(lists)) == CsvState(s.buffer + Concat(lists), s.rows)
    decreases |lists|
  {
    if lists == [] {
      assert s.buffer + [] == s.buffer;
    } else {
      var next := Step(s, Append(lists[0]));
      assert Appends(lists)[1..] == Appends(lists[1..]);
      AppendsExtendBuffer(next, lists[1..]);
      assert next.buffer + Concat(lists[1..]) == s.buffer + Concat(lists);
    }
  }

  /** A row begun with a newline and filled by appends is written as its
      leading field, every appended field in order, then the write's own
      fields; the buffer is left empty. */
  lemma {:induction false} RowCollectsAppends(s: CsvState, lists: seq<seq<Field>>, write: CsvOp)
    requires Writes(write)
    ensures Run(s, [Newline] + Appends(lists) + [write])
      == CsvState([], s.rows + [[Lead(write)] + Concat(lists) + Extra(write)])
  {
    var cleared := Step(s, Newline);
    RunAppend(s, [Newline] + Appends(lists), [write]);
    RunAppend(s, [Newline], Appends(lists));
    assert [Newline][1..] == [];
    assert Run(s, [Newline]) == cleared;
    AppendsExtendBuffer(cleared, lists);
    assert [] + Concat(lists) == Concat(lists);
    var filled := CsvState(Concat(lists), s.rows);
    assert Run(s, [Newline] + Appends(lists)) == filled;
    assert [write][1..] == [];
    assert Run(filled, [write]) == Step(filled, write);
  }

  lemma {:induction false} RunAppend(s: CsvState, a: seq<CsvOp>, b: seq<CsvOp>)
    ensures Run(s, a + b) == Run(Run(s, a), b)
    decreases |a|
  {
    if a == [] {
      assert a + b == b;
    } else {
      assert (a + b)[0] == a[0];
      assert (a + b)[1..] == a[1..] + b;
      RunAppend(Step(s, a[0]), a[1..], b);
    }
  }

  /** The writer's rows only grow, by exactly one per header or data write. */
  lemma {:induction false} RowsOnlyGrow(s: CsvState, ops: seq<CsvOp>)
    ensures s.rows <= Run(s, ops).rows
    ensures |Run(s, ops).rows| == |s.rows| + WriteCount(ops)
    decreases |ops|
  {
    if ops != [] {
      RowsOnlyGrow(Step(s, ops[0]), ops[1..]);
    }
  }

  class CsvManager {
    var csvdata: seq<Field>
    ghost var rows: seq<seq<Field>>

    ghost function State(): CsvState
      reads this
    {
      CsvState(csvdata, rows)
    }

    constructor ()
      ensures csvdata == [] && rows == []
    {
      csvdata := [];
      rows := [];
    }

    method CsvNewline()
      modifies this
      ensures State() == Step(old(State()), Newline)
    {
      csvdata := [];
    }

    method CsvAppend(datalist: seq<Field>)
      modifies this
      ensures State() == Step(old(State()), Append(datalist))
    {
      csvdata := csvdata + datalist;
    }

    method CsvWriteHeader(headerlist: Option<seq<Field>> := None)
      modifies this
      ensures State() == Step(old(State()), WriteHeader(headerlist))
    {
      ghost var pending := csvdata;
      if headerlist.Some? {
        csvdata := csvdata + headerlist.value;
      }
      assert csvdata == pending + Fields(headerlist);
      csvdata := [Text("time")] + csvdata;
      assert csvdata == [Text("time")] + pending + Fields(headerlist);
      CsvWrite();
    }

    /** csv_write_data, stamped with the clock reading `now`; the clock comes
        first so that `datalist` can keep the source's default. */
    method CsvWriteData(now: real, datalist: Option<seq<Field>> := None)
      modifies this
      ensures State() == Step(old(State()), WriteData(datalist, now))
    {
      ghost var pending := csvdata;
      if datalist.Some? {
        csvdata := csvdata + datalist.value;
      }
      assert csvdata == pending + Fields(datalist);
      csvdata := [Float(now)] + csvdata;
      assert csvdata == [Float(now)] + pending + Fields(datalist);
      CsvWrite();
    }

    /** _csv_write: hand the buffer to the writer as one row and empty it. */
    method CsvWrite()
      modifies this
      ensures rows == old(rows) + [old(csvdata)] && csvdata == []
    {
      rows := rows + [csvdata];
      csvdata := [];
    }
  }
}
