/** The cycle statistics (`Cycles` in battery_cycle_count/main.py). Each
    getter is a function of the frame. Every cycle figure is kept in
    hundredths of a cycle, that is in percentage points, so a count of 1.36
    cycles is 136 here; dates are day numbers as in ChargeLog. */
module Cycles {
  import opened Wrappers
  import opened Numeric
  import opened ChargeLog

  /** IndexError on an empty frame, ZeroDivisionError, and the
      OverflowError of a date outside 0001-01-01 .. 9999-12-31. */
  datatype Error = EmptyTable | DivisionByZero | DateOutOfRange

  /** The cycle figure the projections aim at, in hundredths (300 cycles). */
  const Threshold: int := 30000

  /** Day number of 9999-12-31, the last calendar date. */
  const MaxDate: int := 3652059

  /** `Cycles(file)`: a charge log loaded with its last row dropped. */
  method Open(file: string, input: seq<ChargeEvent>) returns (log: Base)
    ensures fresh(log) && log.file == file
    ensures log.df == Derive(DropLastRow(input))
  {
    log := new Base(file, input, true);
  }

  /** `get_cycle_count`, in hundredths: the sum of the `percent` column. */
  function CycleCount(df: Table): int {
    Sum(df.percent)
  }

  /** `get_days`: days from the first row's date to the last row's date. */
  function Days(df: Table): (r: Result<int, Error>)
    ensures r.Err? <==> df.rows == []
    ensures r.Err? ==> r.error == EmptyTable
  {
    if df.rows == [] then Err(EmptyTable)
    else Ok(df.rows[|df.rows| - 1].date - df.rows[0].date)
  }

  /** `get_daily_cycle`, in hundredths per day: the cycle count over the
      days, rounded to two decimals. */
  function DailyCycle(df: Table): (r: Result<int, Error>)
    ensures r.Ok? <==> Days(df).Ok? && Days(df).value != 0
    ensures r.Ok? ==> 2 * Abs(r.value * Days(df).value - CycleCount(df)) <= Abs(Days(df).value)
    ensures Days(df).Ok? && Days(df).value == 0 ==> r == Err(DivisionByZero)
    ensures Days(df).Err? ==> r == Err(Days(df).error)
  {
    var days :- Days(df);
    if days == 0 then Err(DivisionByZero) else Ok(Round(CycleCount(df), days))
  }

  /** `get_300_cycles_remaining`, in hundredths; negative once the
      threshold is passed. */
  function Remaining300(df: Table): (r: int)
    ensures r + CycleCount(df) == Threshold
    ensures r < 0 <==> CycleCount(df) > Threshold
  {
    Round(Threshold - CycleCount(df), 1)
  }

  /** `get_300_cycles_days`: remaining cycles over the daily rate, truncated
      toward zero; dividing by a rate that rounded to zero fails. */
  function Days300(df: Table): (r: Result<int, Error>)
    ensures r.Ok? <==> DailyCycle(df).Ok? && DailyCycle(df).value != 0
    ensures DailyCycle(df).Ok? && DailyCycle(df).value == 0 ==> r == Err(DivisionByZero)
    ensures DailyCycle(df).Err? ==> r == Err(DailyCycle(df).error)
    ensures r.Ok? ==> var rate, rem := DailyCycle(df).value, Remaining300(df);
      Abs(r.value) * Abs(rate) <= Abs(rem) < (Abs(r.value) + 1) * Abs(rate) &&
      ((rem < 0) == (rate < 0) ==> r.value >= 0) &&
      ((rem < 0) != (rate < 0) ==> r.value <= 0)
  {
    var rate :- DailyCycle(df);
    if rate == 0 then Err(DivisionByZero) else Ok(TruncDiv(Remaining300(df), rate))
  }

  /** `get_300_cycles_date`: `today` moved by the days to 300 cycles, which
      may lie in the past. */
  function Date300(df: Table, today: int): (r: Result<int, Error>)
    requires 1 <= today <= MaxDate
    ensures r.Ok? <==> Days300(df).Ok? && 1 <= today + Days300(df).value <= MaxDate
    ensures r.Ok? ==> r.value - today == Days300(df).value
    ensures Days300(df).Err? ==> r == Err(Days300(df).error)
    ensures Days300(df).Ok? && !(1 <= today + Days300(df).value <= MaxDate) ==> r == Err(DateOutOfRange)
  {
    var days :- Days300(df);
    var date := today + days;
    if 1 <= date <= MaxDate then Ok(date) else Err(DateOutOfRange)
  }

  /** `get_cycle_prediction`, in hundredths, for a horizon of `horizonDays`
      calendar days: (horizon days - cycle count) * daily rate, rounded to
      two decimals. */
  function Prediction(df: Table, horizonDays: int): (r: Result<int, Error>)
    ensures r.Ok? <==> DailyCycle(df).Ok?
    ensures DailyCycle(df).Err? ==> r == Err(DailyCycle(df).error)
    ensures r.Ok? ==>
      2 * Abs(100 * r.value - (100 * horizonDays - CycleCount(df)) * DailyCycle(df).value) <= 100
  {
    var rate :- DailyCycle(df);
    Ok(Round((100 * horizonDays - CycleCount(df)) * rate, 100))
  }

  /** The cycle count, in hundredths, is the charge added over the kept
      rows. */
  lemma CycleCountIsCharge(rows: seq<ChargeEvent>)
    ensures CycleCount(Derive(rows)) == TotalCharge(rows)
    ensures Remaining300(Derive(rows)) == Threshold - TotalCharge(rows)
  {
    PercentColumnSum(rows);
  }

  /** Partial charges add up: the count over two stretches of the log is the
      sum of their counts. */
  lemma CycleCountAccumulates(a: seq<ChargeEvent>, b: seq<ChargeEvent>)
    ensures CycleCount(Derive(a + b)) == CycleCount(Derive(a)) + CycleCount(Derive(b))
  {
    PercentColumnSum(a);
    PercentColumnSum(b);
    PercentColumnSum(a + b);
    TotalChargeAppend(a, b);
  }

  /** The days elapsed are the sum of the present `days` entries, and are
      not negative for an ascending log. */
  lemma DaysIsSumOfGaps(rows: seq<ChargeEvent>)
    requires rows != []
    ensures Days(Derive(rows)) == Ok(SumPresent(Derive(rows).days))
    ensures Ascending(rows) ==> Days(Derive(rows)).value >= 0
  {
    DaysColumnTelescopes(rows);
  }

  /** The daily rate exists exactly when the frame has a row and its first
      and last dates differ; a strictly ascending frame with two rows or
      more always has one. */
  lemma DailyCycleDefined(rows: seq<ChargeEvent>)
    ensures DailyCycle(Derive(rows)).Ok? <==> rows != [] && rows[0].date != rows[|rows| - 1].date
    ensures StrictlyAscending(rows) && |rows| >= 2 ==> DailyCycle(Derive(rows)).Ok?
  {
  }

  /** An input of n rows whose last date is unique (as in any chronological
      log), opened as `Cycles` opens it, keeps its first n - 1 rows; the
      count is their charge and the days run from the first date to the
      last kept date. */
  lemma OpenedLog(input: seq<ChargeEvent>)
    requires |input| >= 2
    requires forall i :: 0 <= i < |input| - 1 ==> input[i].date != input[|input| - 1].date
    ensures Derive(DropLastRow(input)).rows == input[..|input| - 1]
    ensures CycleCount(Derive(DropLastRow(input))) == TotalCharge(input[..|input| - 1])
    ensures Days(Derive(DropLastRow(input))) == Ok(input[|input| - 2].date - input[0].date)
  {
    var rows := input[..|input| - 1];
    DropLastRowUnique(input);
    assert Derive(DropLastRow(input)) == Derive(rows);
    assert rows[0] == input[0] && rows[|rows| - 1] == input[|input| - 2];
    CycleCountIsCharge(rows);
  }

  /** Such an input has a daily rate exactly when it has three rows or
      more. */
  lemma OpenedLogRate(input: seq<ChargeEvent>)
    requires |input| >= 2 && StrictlyAscending(input)
    ensures |input| >= 3 <==> DailyCycle(Derive(DropLastRow(input))).Ok?
  {
    var n := |input|;
    var rows := input[..n - 1];
    DropLastRowAscending(input);
    assert DropLastRow(input) == rows;
    assert rows[0] == input[0] && rows[|rows| - 1] == input[n - 2];
    DailyCycleDefined(rows);
    if n >= 3 {
      assert input[0].date < input[n - 2].date;
    }
  }

  /** An input whose rows all carry the last row's date loses every row when
      `Cycles` opens it, so every getter that reads a date fails with the
      IndexError of the empty frame, not with a division by zero. */
  lemma OpenedSingleDateLog(input: seq<ChargeEvent>)
    requires input != []
    requires forall i :: 0 <= i < |input| ==> input[i].date == input[|input| - 1].date
    ensures DropLastRow(input) == []
    ensures var df := Derive(DropLastRow(input));
      Days(df) == Err(EmptyTable) && DailyCycle(df) == Err(EmptyTable) &&
      Days300(df) == Err(EmptyTable) && Prediction(df, 365) == Err(EmptyTable)
  {
    CountDateAll(input, input[|input| - 1].date);
  }

  /** With a positive rate the days to 300 cycles keep the sign of the
      remaining cycles: negative exactly when at least one day's worth of
      cycles beyond 300 has been used, positive exactly when at least one
      day's worth remains. */
  lemma Days300Sign(df: Table)
    requires DailyCycle(df).Ok? && DailyCycle(df).value > 0
    ensures Days300(df).Ok?
    ensures Days300(df).value < 0 <==> Remaining300(df) <= -DailyCycle(df).value
    ensures Days300(df).value > 0 <==> Remaining300(df) >= DailyCycle(df).value
  {
    TruncDivSign(Remaining300(df), DailyCycle(df).value);
  }

  /** Once the count exceeds 300 cycles by a day's worth or more, the
      projected date lies before today. */
  lemma Date300InPast(df: Table, today: int)
    requires 1 <= today <= MaxDate
    requires DailyCycle(df).Ok? && DailyCycle(df).value > 0
    requires CycleCount(df) >= Threshold + DailyCycle(df).value
    ensures Date300(df, today).Ok? ==> Date300(df, today).value < today
  {
    Days300Sign(df);
  }

  /** The five-row log of the program's documentation (2022-03-29 to
      2022-04-12). */
  const DocumentedLog: seq<ChargeEvent> := [
    ChargeEvent(738243, false, 0, 70),
    ChargeEvent(738247, true, 25, 50),
    ChargeEvent(738251, true, 29, 50),
    ChargeEvent(738254, true, 30, 50),
    ChargeEvent(738257, true, 34, 60)]

  /** Loading the documented log drops exactly its last row. */
  lemma DocumentedLogDrop()
    ensures DropLastRow(DocumentedLog) == DocumentedLog[..4]
  {
    var log := DocumentedLog;
    assert forall i :: 0 <= i < 4 ==> log[i].date < log[4].date;
    DropLastRowUnique(log);
  }

  /** The four kept rows hold 136 hundredths of a cycle (70 + 25 + 21 + 20
      percentage points). */
  lemma DocumentedLogCharge()
    ensures CycleCount(Derive(DocumentedLog[..4])) == 136
  {
    var log := DocumentedLog;
    var rows := log[..4];
    CycleCountIsCharge(rows);
    assert rows == [log[0], log[1], log[2], log[3]];
    ChargeOfFour(log[0], log[1], log[2], log[3]);
  }

  lemma ChargeOfFour(a: ChargeEvent, b: ChargeEvent, c: ChargeEvent, d: ChargeEvent)
    ensures TotalCharge([a, b, c, d]) == Delta(a) + Delta(b) + Delta(c) + Delta(d)
  {
    assert [d][1..] == [];
    assert TotalCharge([d]) == Delta(d);
    assert [c, d][1..] == [d];
    assert TotalCharge([c, d]) == Delta(c) + Delta(d);
    assert [b, c, d][1..] == [c, d];
    assert TotalCharge([b, c, d]) == Delta(b) + Delta(c) + Delta(d);
    assert [a, b, c, d][1..] == [b, c, d];
  }

  /** Any frame holding 136 hundredths of a cycle over 11 days, as the
      documented log does, gives 0.12 cycles a day, 298.64 cycles and 2488
      days to go, and 43.64 cycles over a 365-day horizon, where the daily
      rate alone would give 43.80. */
  lemma FiguresFor136Over11(df: Table, today: int)
    requires CycleCount(df) == 136 && Days(df) == Ok(11)
    requires 1 <= today <= MaxDate - 2488
    ensures DailyCycle(df) == Ok(12) && Remaining300(df) == 29864
    ensures Days300(df) == Ok(2488) && Date300(df, today) == Ok(today + 2488)
    ensures Prediction(df, 365) == Ok(4364) && Prediction(df, 365) != Ok(DailyCycle(df).value * 365)
  {
  }

  /** The figures above, for the documented log as loaded. */
  lemma DocumentedLogFigures(today: int)
    requires 1 <= today <= MaxDate - 2488
    ensures var df := Derive(DropLastRow(DocumentedLog));
      DailyCycle(df) == Ok(12) && Days300(df) == Ok(2488) &&
      Date300(df, today) == Ok(today + 2488) && Prediction(df, 365) == Ok(4364)
  {
    DocumentedLogDrop();
    DocumentedLogCharge();
    assert Days(Derive(DocumentedLog[..4])) == Ok(11);
    FiguresFor136Over11(Derive(DocumentedLog[..4]), today);
  }
}
