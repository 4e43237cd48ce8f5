# Battery cycle count, modelled in Dafny

A model of the battery-cycle calculator in `battery_cycle_count/main.py`. The program reads a
chronological log of charge events. Each row holds a date, a battery-saver flag, a start percent
and an end percent. By default it drops the last row. It then adds two columns:

- `percent`: the percentage points each charge added;
- `days`: the gap in days to the next row, missing on the last row.

From that table, `Cycles` computes:

- the number of full-equivalent charge cycles (100 percentage points make one cycle);
- the days covered by the log and the average cycles per day;
- the cycles remaining to 300, the days until 300 are reached and the date on which that happens;
- a horizon prediction, taken literally from the source as (horizon days − cycle count) × daily rate.

The model has four modules:

- `Wrappers` (`wrappers.dfy`): `Option` stands for a missing (`nan`) value. `Result` stands for
  the exceptions the getters raise.
- `Numeric` (`numeric.dfy`): Python's `round(…, 2)` and `int()`, applied to exact quotients.
- `ChargeLog` (`charge_log.dfy`): the `Base` class. The `ChargeEvent` and `Table` datatypes are
  a row and the data frame. The class `Base` holds the path and the frame, and its constructor does
  the drop and then builds the two columns. `CreateColumnDays` builds the `days` column with a
  loop, as the source does. `SetFile` changes only the path. Around these sit the functions that
  specify them (`DropLastRow`, `PercentColumn`, `DaysColumn`, `Derive`) and lemmas about them.
- `Cycles` (`cycles.dfy`): the `Cycles` getters, as pure functions of the frame, with lemmas
  relating them to the rows. `Open` is `Cycles(file)`: a `Base` with `delete_last_row = true`.
  Python's inheritance is flattened here: the getters take the frame value and do not read an
  object.

Representation choices:

- A date is its day number, as `date.toordinal()` counts it (0001-01-01 is 1, 9999-12-31 is
  3652059). The difference of two dates is then `(b - a).days`.
- Every cycle figure is an integer number of hundredths of a cycle, i.e. percentage points. A
  cycle count of 1.36 is 136, a daily rate of 0.12 is 12. So `get_cycle_count() * 100` is an
  exact integer sum.
- `round(x, 2)` rounds the exact value to the nearest hundredth, with halves going to the even
  neighbour (`Numeric.Round`).
- `int(x)` truncates the exact quotient toward zero (`Numeric.TruncDiv`).
- `today` and the day count of the horizon are parameters. `today` must be a valid date.

Errors are modelled as `Cycles.Error`:

- `EmptyTable`: the `IndexError` of `iloc[-1]` on an empty frame. This happens with an empty
  file, or once the last row is dropped from a file whose rows all carry the same date (a
  one-row file among them). Every getter that needs the rate passes this error on.
- `DivisionByZero`: two cases.
  - `get_days()` is 0, for example one kept row, or equal first and last dates.
  - The daily rate rounds to 0.00, which makes `get_300_cycles_days` divide by zero.
- `DateOutOfRange`: the `OverflowError` of a projected date outside 0001-01-01 .. 9999-12-31.

A remaining count can be negative, and so can a day count. A projected date can lie in the past.
None of these is an error, and nothing is clamped.

### Consequences of the code as written

- **The last row is dropped before the columns are built** (main.py:88-93). The docstring at
  main.py:80 gives the incomplete `days` entry of the last row as the reason for the drop, but
  the `days` column is built only afterwards.
  - So the last row *kept* is the one whose `days` entry is missing
    (`ChargeLog.LastKeptRowHasNoGap`).
  - The gap between the last kept row and the dropped row appears nowhere.
- **The drop removes rows by date label.** `drop(df.tail(1).index)` (main.py:89) removes every
  row whose index, the date, equals the last row's date, and keeps the other rows in order.
  - For a chronological log, where dates are unique, that is exactly the last row
    (`ChargeLog.DropLastRowAscending`).
  - If the last date is repeated, two rows or more are dropped
    (`ChargeLog.DropLastRowRepeatedDate`); if every row has the same date, none is left
    (`Cycles.OpenedSingleDateLog`).
- **The documented log.** The five rows shown in the docstring (main.py:44-50) lose their last
  row when opened. The four kept rows add 70 + 25 + 21 + 20 = 136 percentage points, i.e. 1.36
  cycles over 11 days, a rate of 0.12 a day, 2488 days to 300 cycles and 43.64 cycles over a
  365-day horizon (`Cycles.DocumentedLogCharge`, `Cycles.DocumentedLogFigures`).

## Model

| member | source | states |
|---|---|---|
| `Numeric.Round` | battery_cycle_count/main.py:147 | `round` to hundredths: the result is within half a unit of n / d, and it is even on a tie |
| `Numeric.TruncDiv` | battery_cycle_count/main.py:162 | `int()` of a quotient: the magnitude is the floor of abs(n) / abs(d), and the sign is the sign of the quotient (zero allowed) |
| `Numeric.TruncDivSign` | battery_cycle_count/main.py:162 | for a positive divisor, the truncated quotient is negative iff n <= -d, and positive iff n >= d |
| `ChargeLog.WithoutDate` | battery_cycle_count/main.py:89 | dropping a label removes as many rows as carry that date; each row of another date is kept as often as it occurs (multiset), and none of that date; a single row is kept or removed as a whole, and with `WithoutDateAppend` this fixes the order of the kept rows |
| `ChargeLog.DropLastRow` | battery_cycle_count/main.py:88-89 | an empty frame stays empty; otherwise the rows dated like the last row are removed, and every other row is kept as often as it occurs (multiset) |
| `ChargeLog.CountDateAll` | battery_cycle_count/main.py:89 | when every row carries the date, every row is counted as carrying it |
| `ChargeLog.WithoutDateAppend` | battery_cycle_count/main.py:89 | dropping a label from two consecutive stretches of rows is dropping it from each, in order |
| `ChargeLog.DropLastRowUnique` | battery_cycle_count/main.py:88-89 | if no other row has the last row's date, the result is the input minus its last row, in order, one row shorter |
| `ChargeLog.DropLastRowAscending` | battery_cycle_count/main.py:88-89 | a strictly ascending log loses exactly its last row, and order is kept |
| `ChargeLog.DropLastRowRepeatedDate` | battery_cycle_count/main.py:89 | if the last two rows share a date, at least two rows are dropped |
| `ChargeLog.PercentColumnSum` | battery_cycle_count/main.py:92 | the `percent` column sums to the end-minus-start charge, counted row by row |
| `ChargeLog.TotalChargeAppend` | battery_cycle_count/main.py:92 | the charge of two consecutive stretches of rows is the sum of their charges |
| `ChargeLog.DaysColumnTelescopes` | battery_cycle_count/main.py:116-124 | the present `days` entries sum to the last date minus the first date |
| `ChargeLog.DaysColumnSigns` | battery_cycle_count/main.py:118-120 | every present gap is >= 0 in an ascending log, and > 0 in a strictly ascending one |
| `ChargeLog.LastKeptRowHasNoGap` | battery_cycle_count/main.py:88-93 | for an input of n rows whose last date is unique, the drop happens before the columns are built: the frame has n - 1 gaps, and the last kept row's gap is missing |
| `ChargeLog.Base.constructor` | battery_cycle_count/main.py:74-93 | keeps the path; the rows are the input, minus the last row when asked; `percent[i]` = end - start; `days[i]` = next date - date; the last `days` entry is missing |
| `ChargeLog.Base.CreateColumnDays` | battery_cycle_count/main.py:110-124 | the loop gives one entry per row: the gap to the next row, or missing on the last row |
| `ChargeLog.Base.GetDf` | battery_cycle_count/main.py:95-98 | returns the frame field; the constructor's contract says what it holds |
| `ChargeLog.Base.GetFile` | battery_cycle_count/main.py:100-103 | returns the path field; `SetFile` states that it returns the new path |
| `ChargeLog.Base.SetFile` | battery_cycle_count/main.py:105-108 | the path is replaced and `GetFile` returns it; the frame is unchanged |
| `Cycles.Open` | battery_cycle_count/main.py:130-131 | `Cycles(file)` is a `Base` with the last row dropped |
| `Cycles.CycleCount` | battery_cycle_count/main.py:133-136 | the sum of the `percent` column in hundredths; `CycleCountIsCharge` and `CycleCountAccumulates` state what it equals |
| `Cycles.Days` | battery_cycle_count/main.py:149-152 | fails exactly on an empty frame (`EmptyTable`); otherwise last date minus first date |
| `Cycles.DailyCycle` | battery_cycle_count/main.py:144-147 | defined iff the days are defined and nonzero, and then within 0.005 of count / days; zero days give `DivisionByZero`; the `EmptyTable` error of the days passes through |
| `Cycles.Remaining300` | battery_cycle_count/main.py:164-167 | remaining plus count is exactly 300 cycles; it is negative iff the count exceeds 300 (not clamped) |
| `Cycles.Days300` | battery_cycle_count/main.py:159-162 | defined iff the rate is defined and nonzero; a zero rate gives `DivisionByZero`; an error of the rate passes through; the result is remaining / rate truncated toward zero, with that quotient's sign |
| `Cycles.Date300` | battery_cycle_count/main.py:154-157 | today plus the days to 300 cycles; errors pass through; a date outside the calendar gives `DateOutOfRange` |
| `Cycles.Prediction` | battery_cycle_count/main.py:138-142 | defined iff the daily rate is, and then within 0.005 of (horizon days - count) × rate |
| `Cycles.CycleCountIsCharge` | battery_cycle_count/main.py:133-136 | the count in hundredths equals the charge in percentage points over the kept rows |
| `Cycles.CycleCountAccumulates` | battery_cycle_count/main.py:136 | partial charges add up: the count of two stretches of the log is the sum of their counts |
| `Cycles.DaysIsSumOfGaps` | battery_cycle_count/main.py:149-152 | the days elapsed equal the sum of the present `days` entries, and are not negative for an ascending log |
| `Cycles.DailyCycleDefined` | battery_cycle_count/main.py:147 | the rate exists iff there is a row and the first and last dates differ; so it exists for a strictly ascending frame of two rows or more |
| `Cycles.OpenedLog` | battery_cycle_count/main.py:130-152 | an input of n rows with a unique last date, opened by `Cycles`, keeps its first n - 1 rows; count and days are those of the kept rows |
| `Cycles.OpenedLogRate` | battery_cycle_count/main.py:130-147 | a strictly ascending input opened by `Cycles` has a daily rate iff it has at least three rows |
| `Cycles.OpenedSingleDateLog` | battery_cycle_count/main.py:88-162 | an input whose rows all share the last date is emptied by the drop, so days, rate, days to 300 and prediction all fail with `EmptyTable` |
| `Cycles.Days300Sign` | battery_cycle_count/main.py:159-167 | with a positive rate, the days are negative iff remaining <= -rate, and positive iff remaining >= rate |
| `Cycles.Date300InPast` | battery_cycle_count/main.py:154-162 | once the count is past 300 cycles by a day's worth, a projected date inside the calendar is before today |
| `Cycles.DocumentedLogDrop` | battery_cycle_count/main.py:44-50 | the documented five-row log loses only its last row |
| `Cycles.DocumentedLogCharge` | battery_cycle_count/main.py:44-50 | its four kept rows hold 136 hundredths of a cycle |
| `Cycles.FiguresFor136Over11` | battery_cycle_count/main.py:138-167 | 136 hundredths over 11 days give a rate of 12, remaining 29864, 2488 days, a date of today + 2488, and a prediction of 4364, which differs from rate × 365 |
| `Cycles.DocumentedLogFigures` | battery_cycle_count/main.py:44-50 | the documented log, opened, gives those figures |

## Left out

- Reading the CSV (`pd.read_csv` with `parse_dates`, main.py:85) is not modelled. The constructor
  takes the rows already parsed, with dates as day numbers. Parse errors are therefore out of the
  model.
- `datetime.date.today()` (main.py:141, 157) is not modelled: `today` is a parameter.
- `relativedelta(years=years)` (main.py:141) is not modelled: the horizon's day count is a
  parameter. The `ValueError` it raises past year 9999 is not modelled either.
- Binary floating point is not modelled. The rounding and the truncation act on the exact
  rational value. Cases where IEEE rounding of the binary value gives a different hundredth
  (such as a decimal tie that is not exact in binary) are not captured.
- `numpy.nan` is not modelled: `Option.None` stands for it.
- `battery_saver` is a field of `ChargeEvent`, and no computation reads it, just as in the source.
- The 64-bit range of pandas integer columns and sums is not modelled: sums are
  unbounded.
- `main()` (main.py:170-175) is empty, and `setup.py` is packaging metadata. Neither is modelled.
