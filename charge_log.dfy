/** The charge log (`Base` in battery_cycle_count/main.py): the table of
    charge events, the optional drop of the last row and the two derived
    columns `percent` and `days`. */
module ChargeLog {
  import opened Wrappers

  /** One charge event. `date` is the day number of the calendar date
      (0001-01-01 is day 1, as Python's `date.toordinal()` counts), so the
      difference of two dates is their distance in days. `batterySaver` is
      recorded but no computation reads it. */
  datatype ChargeEvent = ChargeEvent(date: int, batterySaver: bool, startPercent: int, endPercent: int)

  /** The data frame: the rows in file order, and the derived columns,
      one entry per row. An absent `days` entry stands for `nan`. */
  datatype Table = Table(rows: seq<ChargeEvent>, percent: seq<int>, days: seq<Option<int>>)

  /** Percentage points added by one charge (negative if misrecorded). */
  function Delta(e: ChargeEvent): int {
    e.endPercent - e.startPercent
  }

  predicate Ascending(rows: seq<ChargeEvent>) {
    forall i, j :: 0 <= i < j < |rows| ==> rows[i].date <= rows[j].date
  }

  predicate StrictlyAscending(rows: seq<ChargeEvent>) {
    forall i, j :: 0 <= i < j < |rows| ==> rows[i].date < rows[j].date
  }

  /** Number of rows labelled with `date`. */
  function CountDate(rows: seq<ChargeEvent>, date: int): nat {
    if rows == [] then 0
    else (if rows[0].date == date then 1 else 0) + CountDate(rows[1..], date)
  }

  /** Dropping an index label from the frame: every row labelled `date`
      goes, the others stay in their order. */
  function WithoutDate(rows: seq<ChargeEvent>, date: int): (r: seq<ChargeEvent>)
    ensures |r| == |rows| - CountDate(rows, date)
    ensures forall e :: e in r <==> e in rows && e.date != date
    ensures forall e {:trigger multiset(r)[e]} :: multiset(r)[e] == if e.date == date then 0 else multiset(rows)[e]
    ensures |rows| == 1 ==> r == if rows[0].date == date then [] else rows
  {
    if rows == [] then []
    else
      assert rows == [rows[0]] + rows[1..];
      assert multiset(rows) == multiset{rows[0]} + multiset(rows[1..]);
      if rows[0].date == date then WithoutDate(rows[1..], date)
      else [rows[0]] + WithoutDate(rows[1..], date)
  }

  /** `drop(tail(1).index)`: removes the rows that carry the last row's date;
      an empty table stays empty. */
  function DropLastRow(rows: seq<ChargeEvent>): (r: seq<ChargeEvent>)
    ensures rows == [] ==> r == []
    ensures rows != [] ==> |r| == |rows| - CountDate(rows, rows[|rows| - 1].date)
    ensures rows != [] ==> forall e :: e in r <==> e in rows && e.date != rows[|rows| - 1].date
    ensures rows != [] ==> forall e {:trigger multiset(r)[e]} :: multiset(r)[e] == if e.date == rows[|rows| - 1].date then 0 else multiset(rows)[e]
  {
    if rows == [] then [] else WithoutDate(rows, rows[|rows| - 1].date)
  }

  /** Every row carries `date`: all of them are counted. */
  lemma {:induction false} CountDateAll(rows: seq<ChargeEvent>, date: int)
    requires forall i :: 0 <= i < |rows| ==> rows[i].date == date
    ensures CountDate(rows, date) == |rows|
  {
    if rows != [] {
      CountDateAll(rows[1..], date);
    }
  }

  lemma {:induction false} WithoutAbsentDate(rows: seq<ChargeEvent>, date: int)
    requires forall i :: 0 <= i < |rows| ==> rows[i].date != date
    ensures WithoutDate(rows, date) == rows
  {
    if rows != [] {
      WithoutAbsentDate(rows[1..], date);
      assert [rows[0]] + rows[1..] == rows;
    }
  }

  lemma {:induction false} WithoutDateAppend(a: seq<ChargeEvent>, b: seq<ChargeEvent>, date: int)
    ensures WithoutDate(a + b, date) == WithoutDate(a, date) + WithoutDate(b, date)
  {
    if a != [] {
      var head := if a[0].date == date then [] else [a[0]];
      assert (a + b)[0] == a[0] && (a + b)[1..] == a[1..] + b;
      assert WithoutDate(a + b, date) == head + WithoutDate(a[1..] + b, date);
      assert WithoutDate(a, date) == head + WithoutDate(a[1..], date);
      WithoutDateAppend(a[1..], b, date);
    } else {
      assert a + b == b;
    }
  }

  /** When no other row shares the last row's date, the drop removes exactly
      the last row and keeps the others in order. */
  lemma DropLastRowUnique(rows: seq<ChargeEvent>)
    requires rows != []
    requires forall i :: 0 <= i < |rows| - 1 ==> rows[i].date != rows[|rows| - 1].date
    ensures DropLastRow(rows) == rows[..|rows| - 1]
    ensures |DropLastRow(rows)| == |rows| - 1
  {
    var n, last := |rows|, rows[|rows| - 1];
    assert rows == rows[..n - 1] + [last];
    WithoutDateAppend(rows[..n - 1], [last], last.date);
    WithoutAbsentDate(rows[..n - 1], last.date);
    assert WithoutDate([last], last.date) == WithoutDate([], last.date);
  }

  /** A chronological log (dates strictly increasing) loses exactly its
      last row. */
  lemma DropLastRowAscending(rows: seq<ChargeEvent>)
    requires rows != [] && StrictlyAscending(rows)
    ensures DropLastRow(rows) == rows[..|rows| - 1]
    ensures |DropLastRow(rows)| == |rows| - 1
  {
    DropLastRowUnique(rows);
  }

  /** A repeated last date makes the drop remove more than one row. */
  lemma DropLastRowRepeatedDate(rows: seq<ChargeEvent>)
    requires |rows| >= 2 && rows[|rows| - 2].date == rows[|rows| - 1].date
    ensures |DropLastRow(rows)| <= |rows| - 2
  {
    var n, last := |rows|, rows[|rows| - 1];
    assert rows == rows[..n - 2] + [rows[n - 2], last];
    WithoutDateAppend(rows[..n - 2], [rows[n - 2], last], last.date);
    assert [rows[n - 2], last][1..] == [last];
    assert WithoutDate([rows[n - 2], last], last.date) == [];
  }

  /** The `percent` column. */
  function PercentColumn(rows: seq<ChargeEvent>): (p: seq<int>) {
    seq(|rows|, i requires 0 <= i < |rows| => Delta(rows[i]))
  }

  /** The `days` column: the gap to the next row, absent on the last row. */
  function DaysColumn(rows: seq<ChargeEvent>): (d: seq<Option<int>>) {
    seq(|rows|, i requires 0 <= i < |rows| =>
      if i + 1 < |rows| then Some(rows[i + 1].date - rows[i].date) else None)
  }

  /** The frame after the derived columns are added to `rows`. */
  function Derive(rows: seq<ChargeEvent>): Table {
    Table(rows, PercentColumn(rows), DaysColumn(rows))
  }

  /** Column sum. */
  function Sum(s: seq<int>): int {
    if s == [] then 0 else s[0] + Sum(s[1..])
  }

  /** Column sum that skips absent entries, as a sum over `nan` does. */
  function SumPresent(s: seq<Option<int>>): int {
    if s == [] then 0
    else (if s[0].Some? then s[0].value else 0) + SumPresent(s[1..])
  }

  /** Percentage points added over the rows, counted row by row. */
  function TotalCharge(rows: seq<ChargeEvent>): int {
    if rows == [] then 0 else Delta(rows[0]) + TotalCharge(rows[1..])
  }

  /** The `percent` column sums to the charge added over the rows. */
  lemma {:induction false} PercentColumnSum(rows: seq<ChargeEvent>)
    ensures Sum(PercentColumn(rows)) == TotalCharge(rows)
  {
    if rows != [] {
      assert PercentColumn(rows)[1..] == PercentColumn(rows[1..]);
      PercentColumnSum(rows[1..]);
    }
  }

  /** Charge accumulates: the charge of two consecutive stretches of the log
      is the sum of their charges. */
  lemma {:induction false} TotalChargeAppend(a: seq<ChargeEvent>, b: seq<ChargeEvent>)
    ensures TotalCharge(a + b) == TotalCharge(a) + TotalCharge(b)
  {
    if a == [] {
      assert a + b == b;
    } else {
      assert (a + b)[1..] == a[1..] + b;
      TotalChargeAppend(a[1..], b);
    }
  }

  /** The present `days` entries telescope to last date minus first date. */
  lemma {:induction false} DaysColumnTelescopes(rows: seq<ChargeEvent>)
    requires rows != []
    ensures SumPresent(DaysColumn(rows)) == rows[|rows| - 1].date - rows[0].date
  {
    if |rows| > 1 {
      assert DaysColumn(rows)[1..] == DaysColumn(rows[1..]);
      DaysColumnTelescopes(rows[1..]);
    }
  }

  /** In an ascending log no gap is negative; in a strictly ascending one
      every gap is positive. */
  lemma DaysColumnSigns(rows: seq<ChargeEvent>, i: int)
    requires 0 <= i < |rows| && DaysColumn(rows)[i].Some?
    ensures Ascending(rows) ==> DaysColumn(rows)[i].value >= 0
    ensures StrictlyAscending(rows) ==> DaysColumn(rows)[i].value > 0
  {
  }

  /** The row dropped first; the gap therefore goes missing on the last row
      kept, not on the dropped one. */
  lemma LastKeptRowHasNoGap(input: seq<ChargeEvent>)
    requires |input| >= 2
    requires forall i :: 0 <= i < |input| - 1 ==> input[i].date != input[|input| - 1].date
    ensures |Derive(DropLastRow(input)).days| == |input| - 1
    ensures Derive(DropLastRow(input)).days[|input| - 2] == None
  {
    DropLastRowUnique(input);
  }

  /** The charge log object: the path it was loaded from and the frame. */
  class Base {
    var file: string
    var df: Table

    /** `Base(file, delete_last_row)` over the rows already read from `file`:
        the drop first, then the `percent` and `days` columns. */
    constructor (file: string, input: seq<ChargeEvent>, deleteLastRow: bool)
      ensures this.file == file
      ensures df.rows == if deleteLastRow then DropLastRow(input) else input
      ensures |df.percent| == |df.rows|
      ensures forall i :: 0 <= i < |df.rows| ==> df.percent[i] == df.rows[i].endPercent - df.rows[i].startPercent
      ensures |df.days| == |df.rows|
      ensures forall i :: 0 <= i < |df.rows| - 1 ==> df.days[i] == Some(df.rows[i + 1].date - df.rows[i].date)
      ensures |df.rows| > 0 ==> df.days[|df.rows| - 1] == None
      ensures df == Derive(df.rows)
    {
      this.file := file;
      var rows := input;
      if deleteLastRow {
        rows := DropLastRow(rows);
      }
      df := Table(rows, [], []);
      new;
      df := df.(percent := PercentColumn(df.rows));
      var days := CreateColumnDays();
      df := df.(days := days);
      assert days == DaysColumn(df.rows);
    }

    function GetDf(): Table
      reads this
    {
      df
    }

    function GetFile(): string
      reads this
    {
      file
    }

    /** Re-points the path; the frame is not reloaded. */
    method SetFile(file: string)
      modifies this`file
      ensures this.file == file && GetFile() == file
      ensures df == old(df)
    {
      this.file := file;
    }

    /** Builds the `days` column one row at a time. */
    method CreateColumnDays() returns (days: seq<Option<int>>)
      ensures |days| == |df.rows|
      ensures forall i :: 0 <= i < |df.rows| - 1 ==> days[i] == Some(df.rows[i + 1].date - df.rows[i].date)
      ensures |df.rows| > 0 ==> days[|df.rows| - 1] == None
    {
      var index := df.rows;
      days := [];
      for ix := 0 to |index|
        invariant |days| == ix
        invariant forall i :: 0 <= i < ix - 1 ==> days[i] == Some(index[i + 1].date - index[i].date)
        invariant 0 < ix < |index| ==> days[ix - 1] == Some(index[ix].date - index[ix - 1].date)
        invariant ix == |index| > 0 ==> days[ix - 1] == None
      {
        if ix + 1 < |index| {
          days := days + [Some(index[ix + 1].date - index[ix].date)];
        } else {
          // indexing past the last row: `nan`
          days := days + [None];
        }
      }
    }
  }
}
