/**
 * `generate_schedule`: expands a compact timetable (one row per day type and
 * direction, departure hours in columns) into one row per calendar day of the
 * table's month and per direction, for a given year.
 *
 * `Generate` is the specification, written stage by stage; the method
 * `GenerateSchedule` builds the rows with the routine's own nested loops and
 * is proved to compute the same result. The lemmas after it state what the
 * routine promises about that result.
 */
module Schedule {
  import opened Wrappers
  import opened Calendar
  import opened Format
  import opened Sheet

  /** The three day types, with the labels the timetable uses for them. */
  datatype DayType = Weekday | Saturday | Sunday {
    function Label(): string {
      match this
      case Weekday => "Hafta İçi"
      case Saturday => "Cumartesi"
      case Sunday => "Pazar"
    }
  }

  /** The two directions, in the order each date's rows are emitted. */
  const Directions: seq<string> := ["G", "D"]

  /** What the routine raises. */
  datatype Error =
    | AmbiguousLineOrMonth  // more or fewer than one distinct `Hat No` or `Ay`
    | MonthNotInteger       // `datetime(year, month, 1)` given a month that is not an integer
    | DateOutOfRange        // `datetime` given a month outside 1..12 or a year outside 1..9999
    | ColumnCountMismatch   // the widest built row is not exactly as wide as the header from the first row

  /** The expanded table: its column names and its rows. */
  datatype Schedule = Schedule(columns: seq<string>, rows: seq<seq<Cell>>)

  /** The empty-string cell used for padding. */
  const Blank: Cell := Other(Text(""))

  function Max(a: int, b: int): int {
    if a < b then b else a
  }

  // ---------------------------------------------------------------------
  // Day types

  /** Monday to Friday are weekdays, then Saturday, then Sunday. */
  function DayTypeOf(d: Date): (t: DayType)
    requires 1 <= d.month <= 12
    ensures t == Weekday <==> DayOfWeek(d) < 5
    ensures t == Saturday <==> DayOfWeek(d) == 5
    ensures t == Sunday <==> DayOfWeek(d) == 6
  {
    var w := DayOfWeek(d);
    if w < 5 then Weekday else if w == 5 then Saturday else Sunday
  }

  /** The labels are pairwise distinct, so a row's label names one day type only. */
  lemma LabelInjective(a: DayType, b: DayType)
    requires a.Label() == b.Label()
    ensures a == b
  {
  }

  // ---------------------------------------------------------------------
  // Selecting source rows and reading their hours

  /** pandas `==`: a missing value equals nothing, not even another missing value. */
  function KeyEquals(c: Cell, v: Cell): (eq: bool)
    ensures eq <==> c == v && !c.Missing?
    ensures c.Missing? || v.Missing? ==> !eq
  {
    c == v && !v.Missing?
  }

  /** The boolean mask on `Hat No`, `Ay`, `Gün Tipi` and `Yön`. */
  function Matches(r: SourceRow, line: Cell, month: int, dayType: DayType, dir: string): (m: bool)
    ensures m ==> !r.line.Missing? && r.month.Other? && r.dayType.Other? && r.direction.Other?
  {
    && KeyEquals(r.line, line)
    && r.month == Other(Int(month))
    && r.dayType == Other(Text(dayType.Label()))
    && r.direction == Other(Text(dir))
  }

  /** The source rows selected by the mask, in table order. */
  function Matching(rows: seq<SourceRow>, line: Cell, month: int, dayType: DayType, dir: string): (sel: seq<SourceRow>)
    ensures |sel| <= |rows|
    ensures forall i :: 0 <= i < |sel| ==> sel[i] in rows && Matches(sel[i], line, month, dayType, dir)
  {
    if rows == [] then []
    else
      (if Matches(rows[0], line, month, dayType, dir) then [rows[0]] else [])
      + Matching(rows[1..], line, month, dayType, dir)
  }

  /** Every row that passes the mask is selected. */
  lemma {:induction false} MatchingComplete(rows: seq<SourceRow>, line: Cell, month: int, dayType: DayType, dir: string)
    ensures forall r :: r in rows && Matches(r, line, month, dayType, dir) ==> r in Matching(rows, line, month, dayType, dir)
  {
    if rows != [] {
      MatchingComplete(rows[1..], line, month, dayType, dir);
      forall r | r in rows && Matches(r, line, month, dayType, dir)
        ensures r in Matching(rows, line, month, dayType, dir)
      {
        if r != rows[0] {
          assert r in rows[1..];
        }
      }
    }
  }

  /** Selecting from two blocks of rows selects from each block, in order, with repeats kept. */
  lemma {:induction false} MatchingAppend(a: seq<SourceRow>, b: seq<SourceRow>, line: Cell, month: int, dayType: DayType, dir: string)
    ensures Matching(a + b, line, month, dayType, dir) == Matching(a, line, month, dayType, dir) + Matching(b, line, month, dayType, dir)
  {
    if a == [] {
      assert a + b == b;
    } else {
      var head := if Matches(a[0], line, month, dayType, dir) then [a[0]] else [];
      calc {
        Matching(a + b, line, month, dayType, dir);
      == { assert (a + b)[0] == a[0] && (a + b)[1..] == a[1..] + b; }
        head + Matching(a[1..] + b, line, month, dayType, dir);
      == { MatchingAppend(a[1..], b, line, month, dayType, dir); }
        head + (Matching(a[1..], line, month, dayType, dir) + Matching(b, line, month, dayType, dir));
      ==
        Matching(a, line, month, dayType, dir) + Matching(b, line, month, dayType, dir);
      }
    }
  }

  /** A single row is selected exactly when it passes the mask. */
  lemma MatchingSingle(r: SourceRow, line: Cell, month: int, dayType: DayType, dir: string)
    ensures Matching([r], line, month, dayType, dir) == if Matches(r, line, month, dayType, dir) then [r] else []
  {
    assert [r][1..] == [];
  }

  /** The hour values for one date and direction (`saatler`). */
  function Hours(rows: seq<SourceRow>, line: Cell, month: int, dayType: DayType, dir: string): (h: seq<Cell>)
    ensures forall i :: 0 <= i < |h| ==> h[i].Other?
    ensures Matching(rows, line, month, dayType, dir) == [] ==> h == []
  {
    Normalize(Flatten(Matching(rows, line, month, dayType, dir)))
  }

  /** Each selected row's hours, normalized, one row after the other. */
  function RowByRowHours(rows: seq<SourceRow>): seq<Cell> {
    if rows == [] then [] else Normalize(rows[0].hours) + RowByRowHours(rows[1..])
  }

  lemma {:induction false} NormalizeFlatten(rows: seq<SourceRow>)
    ensures Normalize(Flatten(rows)) == RowByRowHours(rows)
  {
    if rows != [] {
      NormalizeAppend(rows[0].hours, Flatten(rows[1..]));
      NormalizeFlatten(rows[1..]);
    }
  }

  /**
   * A date's hours are the matching rows' hour cells in row-then-column
   * order, missing cells dropped and timestamps reduced to their time; no
   * matching row means no hours.
   */
  lemma HoursOfMatchingRows(rows: seq<SourceRow>, line: Cell, month: int, dayType: DayType, dir: string)
    ensures Hours(rows, line, month, dayType, dir) == RowByRowHours(Matching(rows, line, month, dayType, dir))
    ensures Matching(rows, line, month, dayType, dir) == [] ==> Hours(rows, line, month, dayType, dir) == []
  {
    NormalizeFlatten(Matching(rows, line, month, dayType, dir));
  }

  /** A selection of at most one row of the declared width yields at most that many hours. */
  lemma HoursWithinDeclared(t: Table, line: Cell, month: int, dayType: DayType, dir: string)
    requires WellFormed(t)
    requires |Matching(t.rows, line, month, dayType, dir)| <= 1
    ensures |Hours(t.rows, line, month, dayType, dir)| <= t.hourColumns
  {
    var sel := Matching(t.rows, line, month, dayType, dir);
    if sel != [] {
      assert sel[0] in sel;
      assert Flatten(sel) == sel[0].hours + Flatten(sel[1..]);
    }
  }

  // ---------------------------------------------------------------------
  // Output rows

  function Blanks(n: nat): (r: seq<Cell>)
    ensures |r| == n && forall i :: 0 <= i < n ==> r[i] == Blank
  {
    seq(n, _ => Blank)
  }

  /**
   * The hours padded on the right with empty strings up to the larger of the
   * declared hour-column count and the number of hours.
   */
  function PadHours(hours: seq<Cell>, declared: nat): (r: seq<Cell>)
    ensures |r| == Max(declared, |hours|)
    ensures r[..|hours|] == hours
    ensures forall i :: |hours| <= i < |r| ==> r[i] == Blank
  {
    hours + Blanks(Max(declared, |hours|) - |hours|)
  }

  /**
   * `row` is an output row for `date` and `dir`: the line, the date as
   * `YYYY-MM-DD` and the direction, then `max(declared, |hours|)` cells that
   * hold the hours unchanged followed only by empty strings.
   */
  predicate RowShape(row: seq<Cell>, line: Cell, date: Date, dir: string, hours: seq<Cell>, declared: nat)
    requires InRange(date)
  {
    && |row| == 3 + Max(declared, |hours|)
    && row[0] == line && row[1] == Other(Text(FormatDate(date))) && row[2] == Other(Text(dir))
    && row[3..3 + |hours|] == hours
    && (forall i :: 3 + |hours| <= i < |row| ==> row[i] == Blank)
  }

  /** One output row: line, `YYYY-MM-DD` date, direction, then the padded hours. */
  function Row(line: Cell, date: Date, dir: string, hours: seq<Cell>, declared: nat): (r: seq<Cell>)
    requires InRange(date)
    ensures RowShape(r, line, date, dir, hours, declared)
  {
    [line, Other(Text(FormatDate(date))), Other(Text(dir))] + PadHours(hours, declared)
  }

  /** The row the routine emits for one date and direction. */
  function DayRow(t: Table, line: Cell, month: int, date: Date, dir: string): seq<Cell>
    requires InRange(date)
  {
    Row(line, date, dir, Hours(t.rows, line, month, DayTypeOf(date), dir), t.hourColumns)
  }

  function DateRows(t: Table, line: Cell, month: int, date: Date): seq<seq<Cell>>
    requires InRange(date)
  {
    [DayRow(t, line, month, date, Directions[0]), DayRow(t, line, month, date, Directions[1])]
  }

  /** The pairs of rows of consecutive dates, one pair after another. */
  function Concat(pairs: seq<seq<seq<Cell>>>): seq<seq<Cell>> {
    if pairs == [] then [] else Concat(pairs[..|pairs| - 1]) + pairs[|pairs| - 1]
  }

  lemma ConcatSnoc(pairs: seq<seq<seq<Cell>>>, pair: seq<seq<Cell>>)
    ensures Concat(pairs + [pair]) == Concat(pairs) + pair
  {
    assert (pairs + [pair])[..|pairs|] == pairs;
  }

  /** Pairs of two rows concatenate to twice as many rows, row `k` coming from pair `k / 2`. */
  lemma {:induction false} ConcatAt(pairs: seq<seq<seq<Cell>>>, k: int)
    requires forall i :: 0 <= i < |pairs| ==> |pairs[i]| == 2
    ensures |Concat(pairs)| == 2 * |pairs|
    ensures 0 <= k < 2 * |pairs| ==> Concat(pairs)[k] == pairs[k / 2][k % 2]
    decreases |pairs|
  {
    if pairs != [] {
      var n := |pairs| - 1;
      ConcatAt(pairs[..n], k);
      if 2 * n <= k < 2 * n + 2 {
        assert k / 2 == n;
      }
    }
  }

  /** Each date's pair of rows, in date order. */
  function DatePairs(t: Table, line: Cell, month: int, dates: seq<Date>): seq<seq<seq<Cell>>>
    requires forall i :: 0 <= i < |dates| ==> InRange(dates[i])
  {
    MapSeq(dates, DateRowsOf(t, line, month))
  }

  /** `DateRows` as a function of the date alone. */
  function DateRowsOf(t: Table, line: Cell, month: int): Date --> seq<seq<Cell>> {
    date requires InRange(date) => DateRows(t, line, month, date)
  }

  /** `f` applied to every element of `xs`, in order. */
  function MapSeq<A, B>(xs: seq<A>, f: A --> B): (ys: seq<B>)
    requires forall i :: 0 <= i < |xs| ==> f.requires(xs[i])
    ensures |ys| == |xs| && forall i :: 0 <= i < |xs| ==> ys[i] == f(xs[i])
  {
    seq(|xs|, i requires 0 <= i < |xs| => f(xs[i]))
  }

  lemma MapSeqSnoc<A, B>(xs: seq<A>, f: A --> B, i: int)
    requires forall i :: 0 <= i < |xs| ==> f.requires(xs[i])
    requires 0 <= i < |xs|
    ensures MapSeq(xs[..i + 1], f) == MapSeq(xs[..i], f) + [f(xs[i])]
  {
  }

  /** `new_data`: the rows of all dates, each date giving its `G` row and then its `D` row. */
  function ScheduleRows(t: Table, line: Cell, month: int, dates: seq<Date>): (rows: seq<seq<Cell>>)
    requires forall i :: 0 <= i < |dates| ==> InRange(dates[i])
    ensures |rows| == 2 * |dates|
  {
    ConcatAt(DatePairs(t, line, month, dates), 0);
    Concat(DatePairs(t, line, month, dates))
  }

  /** Row `k` belongs to date `k / 2`, in direction `G` for even `k` and `D` for odd `k`. */
  lemma ScheduleRowsAt(t: Table, line: Cell, month: int, dates: seq<Date>)
    requires forall i :: 0 <= i < |dates| ==> InRange(dates[i])
    ensures forall k :: 0 <= k < 2 * |dates| ==>
      ScheduleRows(t, line, month, dates)[k] == DayRow(t, line, month, dates[k / 2], Directions[k % 2])
  {
    forall k | 0 <= k < 2 * |dates|
      ensures ScheduleRows(t, line, month, dates)[k] == DayRow(t, line, month, dates[k / 2], Directions[k % 2])
    {
      ScheduleRowAt(t, line, month, dates, k);
    }
  }

  /** Every row has at least its three key cells. */
  lemma ScheduleRowsKeyed(t: Table, line: Cell, month: int, dates: seq<Date>)
    requires forall i :: 0 <= i < |dates| ==> InRange(dates[i])
    ensures forall k :: 0 <= k < 2 * |dates| ==> |ScheduleRows(t, line, month, dates)[k]| >= 3
  {
    forall k | 0 <= k < 2 * |dates| ensures |ScheduleRows(t, line, month, dates)[k]| >= 3 {
      ScheduleRowAt(t, line, month, dates, k);
    }
  }

  lemma ScheduleRowAt(t: Table, line: Cell, month: int, dates: seq<Date>, k: int)
    requires forall i :: 0 <= i < |dates| ==> InRange(dates[i])
    requires 0 <= k < 2 * |dates|
    ensures ScheduleRows(t, line, month, dates)[k] == DayRow(t, line, month, dates[k / 2], Directions[k % 2])
  {
    var pairs := DatePairs(t, line, month, dates);
    ConcatAt(pairs, k);
    assert pairs[k / 2] == DateRows(t, line, month, dates[k / 2]);
    DateRowsAt(t, line, month, dates[k / 2], k % 2);
  }

  lemma DateRowsAt(t: Table, line: Cell, month: int, date: Date, j: int)
    requires InRange(date) && 0 <= j < 2
    ensures DateRows(t, line, month, date)[j] == DayRow(t, line, month, date, Directions[j])
  {
  }

  // ---------------------------------------------------------------------
  // Building the table

  /** The column names: the three key columns, then `Saat1` .. `Saat<n>`. */
  function ColumnNames(n: nat): (names: seq<string>)
    ensures |names| == 3 + n
    ensures names[0] == "Hat No" && names[1] == "Tarih" && names[2] == "Yön"
    ensures forall i :: 3 <= i < |names| ==> names[i] == "Saat" + Decimal(i - 2)
  {
    ["Hat No", "Tarih", "Yön"] + seq(n, i requires 0 <= i < n => "Saat" + Decimal(i + 1))
  }

  /** No two columns share a name. */
  lemma ColumnNamesDistinct(n: nat)
    ensures forall i, j :: 0 <= i < j < 3 + n ==> ColumnNames(n)[i] != ColumnNames(n)[j]
  {
    var names := ColumnNames(n);
    forall i, j | 0 <= i < j < 3 + n ensures names[i] != names[j] {
      if 3 <= i {
        if names[i] == names[j] {
          assert names[i][4..] == Decimal(i - 2);
          assert names[j][4..] == Decimal(j - 2);
          DecimalInjective(i - 2, j - 2);
        }
      } else if 3 <= j {
        assert names[j][0] == 'S';
        assert names[i][0] != 'S';
      }
    }
  }

  /** The width of the widest row, which is the width pandas gives a list of rows. */
  function MaxWidth(rows: seq<seq<Cell>>): (w: nat)
    ensures forall k :: 0 <= k < |rows| ==> |rows[k]| <= w
    ensures rows != [] ==> exists k :: 0 <= k < |rows| && |rows[k]| == w
  {
    if rows == [] then 0
    else
      var rest := MaxWidth(rows[1..]);
      assert forall k :: 1 <= k < |rows| ==> rows[k] == rows[1..][k - 1];
      if |rows[0]| < rest then rest else |rows[0]|
  }

  /**
   * `pd.DataFrame(new_data, columns=names)`: the data is as wide as its widest
   * row, and that width must be the header's. So a row longer than the header
   * is refused, and so is data whose rows are all shorter than the header. A
   * shorter row is filled with missing values up to the header.
   */
  function Frame(names: seq<string>, rows: seq<seq<Cell>>): (r: Result<Schedule, Error>)
    ensures r.Ok? <==> && (forall k :: 0 <= k < |rows| ==> |rows[k]| <= |names|)
                       && (rows == [] || exists k :: 0 <= k < |rows| && |rows[k]| == |names|)
    ensures r.Err? ==> r.error == ColumnCountMismatch
    ensures r.Ok? ==> r.value.columns == names && |r.value.rows| == |rows|
    ensures r.Ok? ==> forall k :: 0 <= k < |rows| ==>
      && |r.value.rows[k]| == |names|
      && r.value.rows[k][..|rows[k]|] == rows[k]
      && (forall i :: |rows[k]| <= i < |names| ==> r.value.rows[k][i] == Missing)
  {
    if rows != [] && MaxWidth(rows) != |names| then Err(ColumnCountMismatch)
    else
      Ok(Schedule(names, seq(|rows|, k requires 0 <= k < |rows| =>
        rows[k] + seq(|names| - |rows[k]|, _ => Missing))))
  }

  /** Rows exactly as wide as the header are framed unchanged. */
  lemma FrameExact(names: seq<string>, rows: seq<seq<Cell>>)
    requires forall k :: 0 <= k < |rows| ==> |rows[k]| == |names|
    ensures Frame(names, rows) == Ok(Schedule(names, rows))
  {
    if rows != [] {
      assert |rows[0]| == |names|;
    }
    var r := Frame(names, rows);
    forall k | 0 <= k < |rows|
      ensures r.value.rows[k] == rows[k]
    {
      assert r.value.rows[k][..|rows[k]|] == r.value.rows[k];
    }
    assert r.value.rows == rows;
  }

  // ---------------------------------------------------------------------
  // The whole routine

  /** The integer month of a month cell, if it holds one. */
  predicate IsIntCell(c: Cell) {
    c.Other? && c.value.Int?
  }

  /**
   * The checks before the loops: one distinct line and one distinct month,
   * then the month's first and last dates. Gives the line and the month.
   */
  function Validate(t: Table, year: int): (r: Result<(Cell, int), Error>)
    ensures r.Ok? ==> && t.rows != [] && IsIntCell(t.rows[0].month)
                      && r.value == (t.rows[0].line, t.rows[0].month.value.i)
                      && MonthDates(year, r.value.1).Some?
  {
    var lines := Lines(t);
    var months := Months(t);
    if DistinctCount(lines) != 1 || DistinctCount(months) != 1 then Err(AmbiguousLineOrMonth)
    else
      var monthCell := months[0];
      if !IsIntCell(monthCell) then Err(MonthNotInteger)
      else if MonthDates(year, monthCell.value.i).None? then Err(DateOutOfRange)
      else Ok((lines[0], monthCell.value.i))
  }

  /** The specification of `generate_schedule(table, year)`. */
  function Generate(t: Table, year: int): (r: Result<Schedule, Error>)
    ensures r.Ok? ==> Validate(t, year).Ok?
    ensures Validate(t, year).Err? ==> r == Err(Validate(t, year).error)
    ensures Validate(t, year).Ok? && r.Err? ==> r.error == ColumnCountMismatch
  {
    match Validate(t, year)
    case Err(e) => Err(e)
    case Ok((line, month)) =>
      var dates := MonthDates(year, month).value;
      var rows := ScheduleRows(t, line, month, dates);
      ScheduleRowsKeyed(t, line, month, dates);
      Frame(ColumnNames(|rows[0]| - 3), rows)
  }

  /** The row as the loop body assembles it is the row of that date and direction. */
  lemma EmittedRow(t: Table, line: Cell, month: int, date: Date, dir: string, hours: seq<Cell>)
    requires InRange(date)
    requires var selected := Matching(t.rows, line, month, DayTypeOf(date), dir);
      hours == if selected != [] then Normalize(Flatten(selected)) else []
    ensures [line, Other(Text(FormatDate(date))), Other(Text(dir))] + hours + Blanks(Max(t.hourColumns, |hours|) - |hours|)
        == DayRow(t, line, month, date, dir)
  {
    assert hours == Hours(t.rows, line, month, DayTypeOf(date), dir);
    assert DayRow(t, line, month, date, dir)
      == [line, Other(Text(FormatDate(date))), Other(Text(dir))] + PadHours(hours, t.hourColumns);
  }

  lemma DateRowsSnoc(t: Table, line: Cell, month: int, date: Date, j: int)
    requires InRange(date) && 0 <= j < |Directions|
    ensures DateRows(t, line, month, date)[..j + 1]
      == DateRows(t, line, month, date)[..j] + [DayRow(t, line, month, date, Directions[j])]
  {
  }

  lemma ScheduleRowsSnoc(t: Table, line: Cell, month: int, dates: seq<Date>, i: int)
    requires forall i :: 0 <= i < |dates| ==> InRange(dates[i])
    requires 0 <= i < |dates|
    ensures ScheduleRows(t, line, month, dates[..i + 1])
      == ScheduleRows(t, line, month, dates[..i]) + DateRows(t, line, month, dates[i])
  {
    DatePairsSnoc(t, line, month, dates, i);
    ConcatSnoc(DatePairs(t, line, month, dates[..i]), DateRows(t, line, month, dates[i]));
  }

  lemma DatePairsSnoc(t: Table, line: Cell, month: int, dates: seq<Date>, i: int)
    requires forall i :: 0 <= i < |dates| ==> InRange(dates[i])
    requires 0 <= i < |dates|
    ensures DatePairs(t, line, month, dates[..i + 1])
      == DatePairs(t, line, month, dates[..i]) + [DateRows(t, line, month, dates[i])]
  {
    MapSeqSnoc(dates, DateRowsOf(t, line, month), i);
  }

  /** `generate_schedule`: validation, date range, the nested loops, then the table build. */
  method GenerateSchedule(t: Table, year: int) returns (r: Result<Schedule, Error>)
    ensures r == Generate(t, year)
  {
    var lines := Lines(t);
    var months := Months(t);
    if DistinctCount(lines) != 1 || DistinctCount(months) != 1 {
      return Err(AmbiguousLineOrMonth);
    }
    var line := lines[0];
    var monthCell := months[0];
    if !IsIntCell(monthCell) {
      return Err(MonthNotInteger);
    }
    var month := monthCell.value.i;
    var found := MonthDates(year, month);
    if found.None? {
      return Err(DateOutOfRange);
    }
    var newData := ExpandRows(t, line, month, found.value);
    ScheduleRowsAt(t, line, month, found.value);
    r := Frame(ColumnNames(|newData[0]| - 3), newData);
  }

  /** The loop over the dates, appending each date's rows to `new_data`. */
  method ExpandRows(t: Table, line: Cell, month: int, dates: seq<Date>) returns (newData: seq<seq<Cell>>)
    requires forall i :: 0 <= i < |dates| ==> InRange(dates[i])
    ensures newData == ScheduleRows(t, line, month, dates)
  {
    newData := [];
    for i := 0 to |dates|
      invariant newData == ScheduleRows(t, line, month, dates[..i])
    {
      var date := dates[i];
      var dayType := DayTypeOf(date);
      var rows := DirectionRows(t, line, month, date, dayType);
      ScheduleRowsSnoc(t, line, month, dates, i);
      newData := newData + rows;
    }
    assert dates[..|dates|] == dates;
  }

  /** The loop over the two directions of one date: the rows it appends. */
  method DirectionRows(t: Table, line: Cell, month: int, date: Date, dayType: DayType) returns (rows: seq<seq<Cell>>)
    requires InRange(date) && dayType == DayTypeOf(date)
    ensures rows == DateRows(t, line, month, date)
  {
    rows := [];
    for j := 0 to |Directions|
      invariant rows == DateRows(t, line, month, date)[..j]
    {
      var row := DirectionRow(t, line, month, date, dayType, Directions[j]);
      DateRowsSnoc(t, line, month, date, j);
      rows := rows + [row];
    }
  }

  /** The body of the loop over directions: select, flatten, clean and pad one row. */
  method DirectionRow(t: Table, line: Cell, month: int, date: Date, dayType: DayType, dir: string) returns (row: seq<Cell>)
    requires InRange(date) && dayType == DayTypeOf(date)
    ensures row == DayRow(t, line, month, date, dir)
  {
    var selected := Matching(t.rows, line, month, dayType, dir);
    var hours := if selected != [] then Normalize(Flatten(selected)) else [];
    var width := Max(t.hourColumns, |hours|);
    row := [line, Other(Text(FormatDate(date))), Other(Text(dir))] + hours + Blanks(width - |hours|);
    EmittedRow(t, line, month, date, dir, hours);
  }

  // ---------------------------------------------------------------------
  // What the routine promises

  /** The routine fails unless the table has exactly one line and exactly one month. */
  lemma RejectsAmbiguousTable(t: Table, year: int)
    ensures Generate(t, year) == Err(AmbiguousLineOrMonth) <==>
      t.rows == [] || exists i :: 0 <= i < |t.rows| && (t.rows[i].line != t.rows[0].line || t.rows[i].month != t.rows[0].month)
  {
    DistinctCountOne(Lines(t));
    DistinctCountOne(Months(t));
    if t.rows != [] && exists i :: 0 <= i < |t.rows| && (t.rows[i].line != t.rows[0].line || t.rows[i].month != t.rows[0].month) {
      var i :| 0 <= i < |t.rows| && (t.rows[i].line != t.rows[0].line || t.rows[i].month != t.rows[0].month);
      assert Lines(t)[i] != Lines(t)[0] || Months(t)[i] != Months(t)[0];
    }
  }

  /** A table with one line and one month: every row shares the first row's line and month. */
  predicate SingleLineAndMonth(t: Table) {
    t.rows != [] && forall i :: 0 <= i < |t.rows| ==> t.rows[i].line == t.rows[0].line && t.rows[i].month == t.rows[0].month
  }

  /**
   * For a single-line, single-month table, constructing the month's dates
   * fails exactly when the month is not an integer in 1..12 or a date of the
   * month or of the next January is outside years 1..9999.
   */
  lemma RejectsInvalidMonth(t: Table, year: int)
    requires SingleLineAndMonth(t)
    ensures Generate(t, year) == Err(MonthNotInteger) <==> !IsIntCell(t.rows[0].month)
    ensures Generate(t, year) == Err(DateOutOfRange) <==>
      IsIntCell(t.rows[0].month) &&
      var m := t.rows[0].month.value.i;
      !(MinYear <= year <= MaxYear && 1 <= m <= 12 && !(m == 12 && year == MaxYear))
  {
    ValidateMonth(t, year);
  }

  /** The checks on a single-line, single-month table fail only on the month. */
  lemma ValidateMonth(t: Table, year: int)
    requires SingleLineAndMonth(t)
    ensures Validate(t, year) == Err(MonthNotInteger) <==> !IsIntCell(t.rows[0].month)
    ensures Validate(t, year) == Err(DateOutOfRange) <==>
      IsIntCell(t.rows[0].month) && MonthDates(year, t.rows[0].month.value.i).None?
  {
    DistinctCountOne(Lines(t));
    DistinctCountOne(Months(t));
  }

  /** The rows (`new_data`) of a run whose table and month are valid. */
  function RunRows(t: Table, year: int): (rows: seq<seq<Cell>>)
    requires t.rows != [] && IsIntCell(t.rows[0].month)
    requires MonthDates(year, t.rows[0].month.value.i).Some?
    ensures var m := t.rows[0].month.value.i;
      && |rows| == 2 * DaysInMonth(year, m)
      && forall k :: 0 <= k < |rows| ==> InRange(Date(year, m, k / 2 + 1)) && |rows[k]| >= 3
  {
    var m := t.rows[0].month.value.i;
    MonthRowsAt(t, t.rows[0].line, year, m);
    ScheduleRows(t, t.rows[0].line, m, MonthDates(year, m).value)
  }

  /** Row `k` of a valid run is the row of day `k / 2 + 1` in direction `k % 2`. */
  lemma RunRowsAt(t: Table, year: int)
    requires t.rows != [] && IsIntCell(t.rows[0].month)
    requires MonthDates(year, t.rows[0].month.value.i).Some?
    ensures var m := t.rows[0].month.value.i;
      var rows := RunRows(t, year);
      forall k :: 0 <= k < |rows| ==>
        rows[k] == DayRow(t, t.rows[0].line, m, Date(year, m, k / 2 + 1), Directions[k % 2])
  {
    MonthRowsAt(t, t.rows[0].line, year, t.rows[0].month.value.i);
  }

  /** Over the days of a month, row `k` belongs to day `k / 2 + 1`. */
  lemma MonthRowsAt(t: Table, line: Cell, year: int, m: int)
    requires MonthDates(year, m).Some?
    ensures var dates := MonthDates(year, m).value;
      var rows := ScheduleRows(t, line, m, dates);
      && 1 <= m <= 12
      && |rows| == 2 * DaysInMonth(year, m)
      && forall k :: 0 <= k < |rows| ==>
           && InRange(Date(year, m, k / 2 + 1))
           && rows[k] == DayRow(t, line, m, Date(year, m, k / 2 + 1), Directions[k % 2])
  {
    var dates := MonthDates(year, m).value;
    var rows := ScheduleRows(t, line, m, dates);
    ScheduleRowsAt(t, line, m, dates);
    forall k | 0 <= k < |rows|
      ensures InRange(Date(year, m, k / 2 + 1))
      ensures rows[k] == DayRow(t, line, m, Date(year, m, k / 2 + 1), Directions[k % 2])
    {
      assert 0 <= k / 2 < |dates|;
      assert dates[k / 2] == Date(year, m, k / 2 + 1);
    }
  }

  /** A successful run validated the table and built its table from `RunRows`. */
  lemma GenerateOk(t: Table, year: int)
    requires Generate(t, year).Ok?
    ensures SingleLineAndMonth(t)
    ensures Generate(t, year) == Frame(ColumnNames(|RunRows(t, year)[0]| - 3), RunRows(t, year))
  {
    ValidatedRun(t, year);
    ValidatedSingle(t, year);
  }

  /** Validation passes only on a table naming one line and one month. */
  lemma ValidatedSingle(t: Table, year: int)
    requires Validate(t, year).Ok?
    ensures SingleLineAndMonth(t)
  {
    DistinctCountOne(Lines(t));
    DistinctCountOne(Months(t));
  }

  /**
   * Row `k` of `rows` starts with `line`, the date of day `k / 2 + 1` of month
   * `m` as `YYYY-MM-DD`, and the direction: `G` for even `k`, `D` for odd `k`.
   */
  predicate DayHeads(rows: seq<seq<Cell>>, line: Cell, year: int, m: int) {
    forall k :: 0 <= k < |rows| ==>
      && |rows[k]| >= 3
      && InRange(Date(year, m, k / 2 + 1))
      && rows[k][0] == line
      && rows[k][1] == Other(Text(FormatDate(Date(year, m, k / 2 + 1))))
      && rows[k][2] == Other(Text(if k % 2 == 0 then "G" else "D"))
  }

  /**
   * The table has two rows per day of the month, in ascending date order, `G`
   * before `D` for each date; every row starts with the line, the date as
   * `YYYY-MM-DD` and the direction.
   */
  lemma RowsInDateOrder(t: Table, year: int)
    requires Generate(t, year).Ok?
    ensures var s := Generate(t, year).value;
      var m := t.rows[0].month.value.i;
      && 1 <= m <= 12
      && |s.rows| == 2 * DaysInMonth(year, m)
      && DayHeads(s.rows, t.rows[0].line, year, m)
  {
    GenerateOk(t, year);
    RunFramedHeads(t, year, ColumnNames(|RunRows(t, year)[0]| - 3));
  }

  /** The run's rows, framed under any header, keep their heads. */
  lemma RunFramedHeads(t: Table, year: int, names: seq<string>)
    requires t.rows != [] && IsIntCell(t.rows[0].month)
    requires MonthDates(year, t.rows[0].month.value.i).Some?
    requires Frame(names, RunRows(t, year)).Ok?
    ensures var s := Frame(names, RunRows(t, year)).value;
      var m := t.rows[0].month.value.i;
      && 1 <= m <= 12
      && |s.rows| == 2 * DaysInMonth(year, m)
      && DayHeads(s.rows, t.rows[0].line, year, m)
  {
    RunRowsHeads(t, year);
    FramedHeads(names, RunRows(t, year), t.rows[0].line, year, t.rows[0].month.value.i);
  }

  /** Rows headed by line, date and direction keep those heads once framed. */
  lemma FramedHeads(names: seq<string>, rows: seq<seq<Cell>>, line: Cell, year: int, m: int)
    requires Frame(names, rows).Ok?
    requires DayHeads(rows, line, year, m)
    ensures |Frame(names, rows).value.rows| == |rows|
    ensures DayHeads(Frame(names, rows).value.rows, line, year, m)
  {
    FrameKeepsHeads(names, rows);
  }

  /** Each row of the run starts with the line, the row's date and its direction. */
  lemma RunRowsHeads(t: Table, year: int)
    requires t.rows != [] && IsIntCell(t.rows[0].month)
    requires MonthDates(year, t.rows[0].month.value.i).Some?
    ensures 1 <= t.rows[0].month.value.i <= 12
    ensures DayHeads(RunRows(t, year), t.rows[0].line, year, t.rows[0].month.value.i)
  {
    var rows := RunRows(t, year);
    forall k | 0 <= k < |rows|
      ensures |rows[k]| >= 3
      ensures rows[k][0] == t.rows[0].line
      ensures rows[k][1] == Other(Text(FormatDate(Date(year, t.rows[0].month.value.i, k / 2 + 1))))
      ensures rows[k][2] == Other(Text(if k % 2 == 0 then "G" else "D"))
    {
      RowWidth(t, year, k);
    }
  }

  /** Framing keeps the first three cells of every row. */
  lemma FrameKeepsHeads(names: seq<string>, rows: seq<seq<Cell>>)
    requires Frame(names, rows).Ok?
    requires forall k :: 0 <= k < |rows| ==> |rows[k]| >= 3
    ensures var s := Frame(names, rows).value;
      forall k :: 0 <= k < |rows| ==>
        s.rows[k][0] == rows[k][0] && s.rows[k][1] == rows[k][1] && s.rows[k][2] == rows[k][2]
  {
    var s := Frame(names, rows).value;
    forall k | 0 <= k < |rows|
      ensures s.rows[k][0] == rows[k][0] && s.rows[k][1] == rows[k][1] && s.rows[k][2] == rows[k][2]
    {
      assert s.rows[k][..|rows[k]|] == rows[k];
    }
  }

  /** No two rows share the same date and direction. */
  lemma NoRepeatedDateDirection(t: Table, year: int)
    requires Generate(t, year).Ok?
    ensures var s := Generate(t, year).value;
      forall k, l :: 0 <= k < l < |s.rows| ==> s.rows[k][1] != s.rows[l][1] || s.rows[k][2] != s.rows[l][2]
  {
    RowsInDateOrder(t, year);
    DatedRowsDistinct(Generate(t, year).value.rows, t.rows[0].line, year, t.rows[0].month.value.i);
  }

  /** Rows headed by day `k / 2 + 1` and direction `k % 2` differ pairwise in date or direction. */
  lemma DatedRowsDistinct(rows: seq<seq<Cell>>, line: Cell, year: int, m: int)
    requires DayHeads(rows, line, year, m)
    ensures forall k, l :: 0 <= k < l < |rows| ==> rows[k][1] != rows[l][1] || rows[k][2] != rows[l][2]
  {
    forall k, l | 0 <= k < l < |rows|
      ensures rows[k][1] != rows[l][1] || rows[k][2] != rows[l][2]
    {
      DistinctDateDirection(year, m, k, l);
    }
  }

  /** Rows `k < l` name different dates or different directions. */
  lemma DistinctDateDirection(year: int, m: int, k: int, l: int)
    requires 0 <= k < l
    requires InRange(Date(year, m, k / 2 + 1)) && InRange(Date(year, m, l / 2 + 1))
    ensures || Other(Text(FormatDate(Date(year, m, k / 2 + 1)))) != Other(Text(FormatDate(Date(year, m, l / 2 + 1))))
            || Other(Text(if k % 2 == 0 then "G" else "D")) != Other(Text(if l % 2 == 0 then "G" else "D"))
  {
    var a, b := Date(year, m, k / 2 + 1), Date(year, m, l / 2 + 1);
    if FormatDate(a) == FormatDate(b) {
      FormatDateInjective(a, b);
      assert k % 2 == 0 && l % 2 == 1;
      assert "G"[0] != "D"[0];
    }
  }

  /**
   * Each row of `new_data`: three key cells and then as many cells as the
   * larger of the declared hour columns and its own hours, its hours kept in
   * place, followed only by empty strings.
   */
  lemma RowWidth(t: Table, year: int, k: int)
    requires t.rows != [] && IsIntCell(t.rows[0].month)
    requires MonthDates(year, t.rows[0].month.value.i).Some?
    requires 0 <= k < 2 * DaysInMonth(year, t.rows[0].month.value.i)
    ensures var m := t.rows[0].month.value.i;
      var date := Date(year, m, k / 2 + 1);
      var dir := if k % 2 == 0 then "G" else "D";
      && InRange(date)
      && RowShape(RunRows(t, year)[k], t.rows[0].line, date, dir,
                  Hours(t.rows, t.rows[0].line, m, DayTypeOf(date), dir), t.hourColumns)
  {
    var m := t.rows[0].month.value.i;
    var date := Date(year, m, k / 2 + 1);
    var dir := if k % 2 == 0 then "G" else "D";
    assert dir == Directions[k % 2];
    var hours := Hours(t.rows, t.rows[0].line, m, DayTypeOf(date), dir);
    var row := RunRows(t, year)[k];
    RunRowsAt(t, year);
    assert row == DayRow(t, t.rows[0].line, m, date, dir);
    assert row == Row(t.rows[0].line, date, dir, hours, t.hourColumns);
  }


  /**
   * When the table passes validation and at most one source row matches each
   * day type and direction, the build succeeds: every row has the declared
   * width, three key columns plus the declared hour columns, the header has
   * as many names, and nothing is filled in.
   */
  lemma UniformWidth(t: Table, year: int)
    requires WellFormed(t)
    requires Validate(t, year).Ok?
    requires forall dt: DayType, dir: string :: dir in Directions ==>
      |Matching(t.rows, t.rows[0].line, t.rows[0].month.value.i, dt, dir)| <= 1
    ensures Generate(t, year) == Ok(Schedule(ColumnNames(t.hourColumns), RunRows(t, year)))
    ensures forall k :: 0 <= k < |RunRows(t, year)| ==> |RunRows(t, year)[k]| == 3 + t.hourColumns
  {
    ValidatedSingle(t, year);
    ValidatedRun(t, year);
    RunDeclaredTable(t, year);
  }

  /** Under the same conditions, framing the run's rows under the first row's width keeps them whole. */
  lemma RunDeclaredTable(t: Table, year: int)
    requires WellFormed(t)
    requires SingleLineAndMonth(t) && IsIntCell(t.rows[0].month)
    requires MonthDates(year, t.rows[0].month.value.i).Some?
    requires forall dt: DayType, dir: string :: dir in Directions ==>
      |Matching(t.rows, t.rows[0].line, t.rows[0].month.value.i, dt, dir)| <= 1
    ensures Frame(ColumnNames(|RunRows(t, year)[0]| - 3), RunRows(t, year))
      == Ok(Schedule(ColumnNames(t.hourColumns), RunRows(t, year)))
    ensures forall k :: 0 <= k < |RunRows(t, year)| ==> |RunRows(t, year)[k]| == 3 + t.hourColumns
  {
    RunRowsDeclaredWidth(t, year);
    FrameDeclared(RunRows(t, year), t.hourColumns);
  }

  /** Rows all of the declared width are framed unchanged under the declared header. */
  lemma FrameDeclared(rows: seq<seq<Cell>>, declared: nat)
    requires rows != [] && AllOfWidth(rows, 3 + declared)
    ensures Frame(ColumnNames(|rows[0]| - 3), rows) == Ok(Schedule(ColumnNames(declared), rows))
  {
    FrameExact(ColumnNames(declared), rows);
  }

  /** Every row has `width` cells. */
  predicate AllOfWidth(rows: seq<seq<Cell>>, width: int) {
    forall k :: 0 <= k < |rows| ==> |rows[k]| == width
  }

  /** With at most one source row per key, every row is exactly as wide as the declared columns. */
  lemma RunRowsDeclaredWidth(t: Table, year: int)
    requires WellFormed(t)
    requires SingleLineAndMonth(t) && IsIntCell(t.rows[0].month)
    requires MonthDates(year, t.rows[0].month.value.i).Some?
    requires forall dt: DayType, dir: string :: dir in Directions ==>
      |Matching(t.rows, t.rows[0].line, t.rows[0].month.value.i, dt, dir)| <= 1
    ensures RunRows(t, year) != [] && AllOfWidth(RunRows(t, year), 3 + t.hourColumns)
  {
    forall k | 0 <= k < |RunRows(t, year)| ensures |RunRows(t, year)[k]| == 3 + t.hourColumns {
      DeclaredWidthAt(t, year, k);
    }
  }

  /** Row `k` has the declared width when at most one source row matches its day type and direction. */
  lemma DeclaredWidthAt(t: Table, year: int, k: int)
    requires WellFormed(t)
    requires t.rows != [] && IsIntCell(t.rows[0].month)
    requires MonthDates(year, t.rows[0].month.value.i).Some?
    requires 0 <= k < 2 * DaysInMonth(year, t.rows[0].month.value.i)
    requires var m := t.rows[0].month.value.i;
      var dir := if k % 2 == 0 then "G" else "D";
      |Matching(t.rows, t.rows[0].line, m, DayTypeOf(Date(year, m, k / 2 + 1)), dir)| <= 1
    ensures |RunRows(t, year)[k]| == 3 + t.hourColumns
  {
    var m := t.rows[0].month.value.i;
    var dir := if k % 2 == 0 then "G" else "D";
    RowWidth(t, year, k);
    HoursWithinDeclared(t, t.rows[0].line, m, DayTypeOf(Date(year, m, k / 2 + 1)), dir);
  }


  /**
   * The table build fails exactly when some row is wider than the first row,
   * whose width names the columns.
   */
  lemma FailsOnWiderLaterRow(t: Table, year: int)
    requires SingleLineAndMonth(t) && IsIntCell(t.rows[0].month)
    requires MonthDates(year, t.rows[0].month.value.i).Some?
    ensures var rows := RunRows(t, year);
      && (Generate(t, year) == Err(ColumnCountMismatch) <==> exists k :: 0 <= k < |rows| && |rows[k]| > |rows[0]|)
      && (Generate(t, year).Ok? ==> Generate(t, year).value.columns == ColumnNames(|rows[0]| - 3))
  {
    ValidateSingle(t, year);
    ValidatedRun(t, year);
    var rows := RunRows(t, year);
    assert |rows[0]| == |ColumnNames(|rows[0]| - 3)|;
  }

  /** A single-line table with an integer month whose dates exist passes validation. */
  lemma ValidateSingle(t: Table, year: int)
    requires SingleLineAndMonth(t) && IsIntCell(t.rows[0].month)
    requires MonthDates(year, t.rows[0].month.value.i).Some?
    ensures Validate(t, year).Ok?
  {
    DistinctCountOne(Lines(t));
    DistinctCountOne(Months(t));
  }

  /** Once validation passes, the routine frames `RunRows` under the first row's width. */
  lemma ValidatedRun(t: Table, year: int)
    requires Validate(t, year).Ok?
    ensures Generate(t, year) == Frame(ColumnNames(|RunRows(t, year)[0]| - 3), RunRows(t, year))
  {
  }
}
