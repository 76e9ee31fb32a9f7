/**
 * The table width of `generate_schedule`. The routine pads each row to the
 * larger of the declared hour-column count and that row's own hours, then
 * names the columns after the first row only. A later row with more hours
 * than the first therefore has no column to go in, and building the table
 * fails. The width meant for the whole run is the widest row of the run;
 * `GenerateRunWide` pads every row to it.
 */
module RunWidth {
  import opened Wrappers
  import opened Calendar
  import opened Sheet
  import opened Schedule

  /** Every row padded on the right with empty strings to width `w`. */
  function PadAll(rows: seq<seq<Cell>>, w: nat): (padded: seq<seq<Cell>>)
    requires forall k :: 0 <= k < |rows| ==> |rows[k]| <= w
    ensures |padded| == |rows|
    ensures forall k :: 0 <= k < |rows| ==>
      && |padded[k]| == w
      && padded[k][..|rows[k]|] == rows[k]
      && (forall i :: |rows[k]| <= i < w ==> padded[k][i] == Blank)
  {
    seq(|rows|, k requires 0 <= k < |rows| => rows[k] + Blanks(w - |rows[k]|))
  }

  /** The table of `rows`, all padded to the widest of them. */
  function RunWideTable(rows: seq<seq<Cell>>): Result<Schedule, Error>
    requires rows != [] && |rows[0]| >= 3
  {
    var w := MaxWidth(rows);
    Frame(ColumnNames(w - 3), PadAll(rows, w))
  }

  /** `generate_schedule` with one width for the whole run, fixed after all rows are built. */
  function GenerateRunWide(t: Table, year: int): Result<Schedule, Error> {
    match Validate(t, year)
    case Err(e) => Err(e)
    case Ok((line, month)) =>
      var rows := ScheduleRows(t, line, month, MonthDates(year, month).value);
      ScheduleRowsKeyed(t, line, month, MonthDates(year, month).value);
      RunWideTable(rows)
  }

  lemma RunWideOk(t: Table, year: int)
    requires Validate(t, year).Ok?
    ensures GenerateRunWide(t, year) == RunWideTable(RunRows(t, year))
    ensures |RunRows(t, year)| > 0 && |RunRows(t, year)[0]| >= 3 + t.hourColumns
  {
    FirstRowWidth(t, year);
  }

  /** The first row is at least as wide as the key cells and the declared hour columns. */
  lemma FirstRowWidth(t: Table, year: int)
    requires t.rows != [] && IsIntCell(t.rows[0].month)
    requires MonthDates(year, t.rows[0].month.value.i).Some?
    ensures |RunRows(t, year)| > 0 && |RunRows(t, year)[0]| >= 3 + t.hourColumns
  {
    RowWidth(t, year, 0);
  }

  /**
   * `s` holds `rows` under the header `Hat No, Tarih, Yön, Saat1 .. Saat<n>`:
   * `n` is at least the declared hour count, the header is as wide as the
   * widest row and covers every row, and each row keeps its cells, then empty
   * strings.
   */
  predicate FitsEveryRow(s: Schedule, rows: seq<seq<Cell>>, declared: nat) {
    && |s.columns| >= 3 + declared
    && s.columns == ColumnNames(|s.columns| - 3)
    && |s.rows| == |rows|
    && (rows != [] ==> exists k :: 0 <= k < |rows| && |rows[k]| == |s.columns|)
    && forall k :: 0 <= k < |rows| ==>
         && |rows[k]| <= |s.columns|
         && |s.rows[k]| == |s.columns|
         && s.rows[k][..|rows[k]|] == rows[k]
         && (forall i :: |rows[k]| <= i < |s.columns| ==> s.rows[k][i] == Blank)
  }

  /**
   * The run-wide table is built whenever the checks pass, and it fits every
   * row of the run.
   */
  lemma RunWideFitsEveryRow(t: Table, year: int)
    requires Validate(t, year).Ok?
    ensures GenerateRunWide(t, year).Ok?
    ensures FitsEveryRow(GenerateRunWide(t, year).value, RunRows(t, year), t.hourColumns)
  {
    RunWideOk(t, year);
    PaddedTable(RunRows(t, year), t.hourColumns);
  }

  /** Padding rows to the widest one and framing them under as many columns fits every row. */
  lemma PaddedTable(rows: seq<seq<Cell>>, declared: nat)
    requires rows != [] && |rows[0]| >= 3 + declared
    ensures RunWideTable(rows).Ok?
    ensures FitsEveryRow(RunWideTable(rows).value, rows, declared)
  {
    var w := MaxWidth(rows);
    PaddedFrame(rows, w);
  }

  /** Rows padded to a common width of at least three fill a header of that width exactly. */
  lemma PaddedFrame(rows: seq<seq<Cell>>, w: nat)
    requires w >= 3
    requires forall k :: 0 <= k < |rows| ==> |rows[k]| <= w
    ensures Frame(ColumnNames(w - 3), PadAll(rows, w)) == Ok(Schedule(ColumnNames(w - 3), PadAll(rows, w)))
  {
    FrameExact(ColumnNames(w - 3), PadAll(rows, w));
  }

  /** A compact timetable with two weekday rows for direction `G` of line 42 in June. */
  function TwoWeekdayRows(): Table {
    Table(1, [
      SourceRow(Other(Int(42)), Other(Int(6)), Other(Text("Hafta İçi")), Other(Text("G")), [Other(Clock(Time(8, 0, 0, 0)))]),
      SourceRow(Other(Int(42)), Other(Int(6)), Other(Text("Hafta İçi")), Other(Text("G")), [Other(Clock(Time(9, 0, 0, 0)))])
    ])
  }

  /** The table names one line and one month, June, and June 2025 exists. */
  lemma TwoWeekdayRowsValid()
    ensures Validate(TwoWeekdayRows(), 2025) == Ok((Other(Int(42)), 6))
    ensures SingleLineAndMonth(TwoWeekdayRows())
    ensures MonthDates(2025, 6).Some?
  {
    var t := TwoWeekdayRows();
    DistinctCountOne(Lines(t));
    DistinctCountOne(Months(t));
  }

  /** On Sunday 1 June no row matches, so the `G` row carries only the declared blank column. */
  lemma TwoWeekdayRowsFirst()
    ensures TwoWeekdayRows().rows != [] && IsIntCell(TwoWeekdayRows().rows[0].month)
    ensures MonthDates(2025, TwoWeekdayRows().rows[0].month.value.i).Some?
    ensures |RunRows(TwoWeekdayRows(), 2025)| > 2
    ensures |RunRows(TwoWeekdayRows(), 2025)[0]| == 4
  {
    var t := TwoWeekdayRows();
    var line := Other(Int(42));
    assert DayOfWeek(Date(2025, 6, 1)) == 6;
    assert Matching(t.rows, line, 6, Sunday, "G") == [] by {
      assert "Hafta İçi" != "Pazar";
      assert t.rows[1..][1..] == [];
    }
    assert Hours(t.rows, line, 6, Sunday, "G") == [];
    RunRowsAt(t, 2025);
    assert RunRows(t, 2025)[0] == DayRow(t, line, 6, Date(2025, 6, 1), Directions[0]);
  }

  /** On Monday 2 June both rows match, so the `G` row carries two hours. */
  lemma TwoWeekdayRowsThird()
    ensures TwoWeekdayRows().rows != [] && IsIntCell(TwoWeekdayRows().rows[0].month)
    ensures MonthDates(2025, TwoWeekdayRows().rows[0].month.value.i).Some?
    ensures |RunRows(TwoWeekdayRows(), 2025)| > 2
    ensures |RunRows(TwoWeekdayRows(), 2025)[2]| == 5
  {
    var t := TwoWeekdayRows();
    var line := Other(Int(42));
    assert DayOfWeek(Date(2025, 6, 2)) == 0;
    assert Matching(t.rows, line, 6, Weekday, "G") == t.rows by {
      assert t.rows[1..][1..] == [];
    }
    assert Flatten(t.rows) == t.rows[0].hours + t.rows[1].hours by {
      assert t.rows[1..][1..] == [];
    }
    assert |Hours(t.rows, line, 6, Weekday, "G")| == 2;
    RunRowsAt(t, 2025);
    assert RunRows(t, 2025)[2] == DayRow(t, line, 6, Date(2025, 6, 2), Directions[0]);
  }

  /**
   * June 2025 starts on a Sunday, so the first row has no hours and is four
   * cells wide; the Monday after it has both rows' hours and is five wide.
   * The routine as written fails on this table; the run-wide width does not.
   */
  lemma SecondMatchingRowBreaksTable()
    ensures Generate(TwoWeekdayRows(), 2025) == Err(ColumnCountMismatch)
    ensures GenerateRunWide(TwoWeekdayRows(), 2025).Ok?
  {
    var t := TwoWeekdayRows();
    TwoWeekdayRowsValid();
    TwoWeekdayRowsFirst();
    TwoWeekdayRowsThird();
    var rows := RunRows(t, 2025);
    assert |rows[2]| > |rows[0]|;
    FailsOnWiderLaterRow(t, 2025);
    RunWideFitsEveryRow(t, 2025);
  }
}
