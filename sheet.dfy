/**
 * The compact timetable as the routine reads it: a table whose first four
 * columns are `Hat No` (line), `Ay` (month), `Gün Tipi` (day type) and `Yön`
 * (direction), followed by a declared number of hour columns. Cells are
 * missing, timestamps, or any other scalar.
 */
module Sheet {
  import opened Calendar

  /** A time of day, as `datetime.time` holds it. */
  datatype Time = Time(hour: int, minute: int, second: int, microsecond: int)

  /** A present cell value other than a timestamp. */
  datatype Atom = Int(i: int) | Text(s: string) | Clock(t: Time)

  /** A spreadsheet cell: empty (NaN/NaT), a date-and-time, or another value. */
  datatype Cell = Missing | DateTime(date: Date, time: Time) | Other(value: Atom)

  datatype SourceRow = SourceRow(line: Cell, month: Cell, dayType: Cell, direction: Cell, hours: seq<Cell>)

  /** `hourColumns` is the number of columns after the first four (`df.columns[4:]`). */
  datatype Table = Table(hourColumns: nat, rows: seq<SourceRow>)

  /** Every row of a table has one cell per column. */
  predicate WellFormed(t: Table) {
    forall i :: 0 <= i < |t.rows| ==> |t.rows[i].hours| == t.hourColumns
  }

  /** The `Hat No` column. */
  function Lines(t: Table): (col: seq<Cell>)
    ensures |col| == |t.rows| && forall i :: 0 <= i < |col| ==> col[i] == t.rows[i].line
  {
    seq(|t.rows|, i requires 0 <= i < |t.rows| => t.rows[i].line)
  }

  /** The `Ay` column. */
  function Months(t: Table): (col: seq<Cell>)
    ensures |col| == |t.rows| && forall i :: 0 <= i < |col| ==> col[i] == t.rows[i].month
  {
    seq(|t.rows|, i requires 0 <= i < |t.rows| => t.rows[i].month)
  }

  /** `len(col.unique())`: the number of distinct values in a column. */
  function DistinctCount(col: seq<Cell>): (n: nat)
    ensures n == 0 <==> col == []
  {
    var values := set i | 0 <= i < |col| :: col[i];
    assert col != [] ==> col[0] in values;
    |values|
  }

  /** A column has exactly one distinct value iff it is non-empty and constant. */
  lemma DistinctCountOne(col: seq<Cell>)
    ensures DistinctCount(col) == 1 <==> col != [] && forall i :: 0 <= i < |col| ==> col[i] == col[0]
  {
    var values := set i | 0 <= i < |col| :: col[i];
    if col != [] {
      if forall i :: 0 <= i < |col| ==> col[i] == col[0] {
        assert values == {col[0]};
      } else {
        var i :| 0 <= i < |col| && col[i] != col[0];
        assert {col[0], col[i]} <= values;
        SubsetCardinality({col[0], col[i]}, values);
      }
    }
  }

  lemma SubsetCardinality<T>(a: set<T>, b: set<T>)
    requires a <= b
    ensures |a| <= |b|
  {
    assert b == a + (b - a);
  }

  /** `.iloc[:, 4:].values.flatten()`: the hour cells of the rows, row after row. */
  function Flatten(rows: seq<SourceRow>): (cells: seq<Cell>)
    ensures (forall k :: 0 <= k < |rows| ==> rows[k].hours == []) <==> cells == []
  {
    if rows == [] then []
    else
      var rest := Flatten(rows[1..]);
      assert forall k :: 1 <= k < |rows| ==> rows[k] == rows[1..][k - 1];
      rows[0].hours + rest
  }

  /** With one cell per column, the flattened rows hold rows times columns cells. */
  lemma {:induction false} FlattenLength(rows: seq<SourceRow>, width: nat)
    requires forall i :: 0 <= i < |rows| ==> |rows[i].hours| == width
    ensures |Flatten(rows)| == |rows| * width
  {
    if rows != [] {
      var rest := rows[1..];
      assert forall i :: 0 <= i < |rest| ==> rest[i] == rows[i + 1];
      FlattenLength(rest, width);
      assert |Flatten(rows)| == width + |Flatten(rest)|;
      MulStep(|rest|, width);
    }
  }

  lemma MulStep(n: nat, width: nat)
    ensures (n + 1) * width == width + n * width
  {
  }

  /** A present cell as it enters the schedule: a timestamp is reduced to its time (`.time()`). */
  function TimeOfDay(c: Cell): (r: Cell)
    requires !c.Missing?
    ensures r.Other?
    ensures c.DateTime? ==> r == Other(Clock(c.time))
    ensures c.Other? ==> r == c
  {
    if c.DateTime? then Other(Clock(c.time)) else c
  }

  /**
   * `[s.time() if isinstance(s, datetime) else s for s in cells if pd.notna(s)]`:
   * the present cells in order, timestamps reduced to their time of day.
   */
  function Normalize(cells: seq<Cell>): (r: seq<Cell>)
    ensures |r| <= |cells|
    ensures forall i :: 0 <= i < |r| ==> r[i].Other?
    ensures (forall i :: 0 <= i < |cells| ==> cells[i].Missing?) <==> r == []
  {
    if cells == [] then []
    else (if cells[0].Missing? then [] else [TimeOfDay(cells[0])]) + Normalize(cells[1..])
  }

  /** Normalizing is done cell by cell, so it distributes over concatenation. */
  lemma {:induction false} NormalizeAppend(a: seq<Cell>, b: seq<Cell>)
    ensures Normalize(a + b) == Normalize(a) + Normalize(b)
  {
    if a == [] {
      assert a + b == b;
    } else {
      assert a + b == [a[0]] + (a[1..] + b);
      assert a == [a[0]] + a[1..];
      NormalizeCons(a[0], a[1..] + b);
      NormalizeCons(a[0], a[1..]);
      NormalizeAppend(a[1..], b);
    }
  }

  /** The first cell contributes its own normalized value, if any, ahead of the rest. */
  lemma NormalizeCons(c: Cell, rest: seq<Cell>)
    ensures Normalize([c] + rest) == (if c.Missing? then [] else [TimeOfDay(c)]) + Normalize(rest)
  {
    assert ([c] + rest)[0] == c && ([c] + rest)[1..] == rest;
  }

  /**
   * Every present cell keeps its place among the present cells: it lands at
   * the position given by the number of present cells before it.
   */
  lemma NormalizePosition(cells: seq<Cell>, i: int)
    requires 0 <= i < |cells| && !cells[i].Missing?
    ensures |Normalize(cells[..i])| < |Normalize(cells)|
    ensures Normalize(cells)[|Normalize(cells[..i])|] == TimeOfDay(cells[i])
  {
    assert cells == cells[..i] + ([cells[i]] + cells[i + 1..]);
    NormalizeAppend(cells[..i], [cells[i]] + cells[i + 1..]);
    NormalizeAppend([cells[i]], cells[i + 1..]);
    assert Normalize([cells[i]]) == [TimeOfDay(cells[i])];
  }
}
