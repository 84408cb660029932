/**
 * The row-writing loop of `save_processed_data`: the result of `process_data` becomes one
 * CSV row per hourly record, days in the order of the result and hours in their own order.
 * Rows are kept as values; their text rendering by the CSV writer is not modelled.
 */
module Report {
  import opened Calendar
  import opened Stamps
  import opened Reconcile

  /** One row under the header `Date, Hour, Consumption (kW), Price (snt/kWh), Cost (EUR)`. */
  datatype ReportRow = ReportRow(date: Date, hour: string, consumption: real, price: real, cost: real)

  /** The row written for one hourly record of the day `date`. */
  function RowOf(date: Date, r: HourRecord): ReportRow {
    ReportRow(date, r.hour, r.consumption, r.price, r.cost)
  }

  /** A row's cost in euros is its price in cents per kWh times its consumption in kWh, over 100. */
  predicate CostMatches(row: ReportRow) {
    100.0 * row.cost == row.price * row.consumption
  }

  /** The rows of one day: its records in order. */
  function DayRows(date: Date, hours: seq<HourRecord>): (rows: seq<ReportRow>)
    ensures |rows| == |hours|
  {
    if hours == [] then [] else DayRows(date, hours[..|hours| - 1]) + [RowOf(date, hours[|hours| - 1])]
  }

  /** The rows of a whole result: the rows of each day, one day after the other. */
  function Flattened(report: seq<DayReport>): seq<ReportRow> {
    if report == [] then [] else Flattened(report[..|report| - 1]) + DayRows(report[|report| - 1].date, report[|report| - 1].hours)
  }

  lemma DayRowsAppend(date: Date, hours: seq<HourRecord>, r: HourRecord)
    ensures DayRows(date, hours + [r]) == DayRows(date, hours) + [RowOf(date, r)]
  {
    assert (hours + [r])[..|hours|] == hours;
  }

  lemma FlattenedAppend(report: seq<DayReport>, day: DayReport)
    ensures Flattened(report + [day]) == Flattened(report) + DayRows(day.date, day.hours)
  {
    assert (report + [day])[..|report|] == report;
  }

  /** The two nested `for` loops that hand each record to `writer.writerow`. */
  method FlattenReport(report: seq<DayReport>) returns (rows: seq<ReportRow>)
    ensures rows == Flattened(report)
  {
    rows := [];
    for i := 0 to |report|
      invariant rows == Flattened(report[..i])
    {
      var day := report[i];
      ghost var before := rows;
      for j := 0 to |day.hours|
        invariant rows == before + DayRows(day.date, day.hours[..j])
      {
        var record := day.hours[j];
        DayRowsAppend(day.date, day.hours[..j], record);
        assert day.hours[..j + 1] == day.hours[..j] + [record];
        rows := rows + [ReportRow(day.date, record.hour, record.consumption, record.price, record.cost)];
      }
      assert day.hours[..|day.hours|] == day.hours;
      assert report[..i + 1] == report[..i] + [day];
      FlattenedAppend(report[..i], day);
    }
    assert report[..|report|] == report;
  }

  /** Entry `h` of a day's rows is the row of its record `h`. */
  lemma {:induction false} DayRowsAt(date: Date, hours: seq<HourRecord>, h: nat)
    requires h < |hours|
    ensures DayRows(date, hours)[h] == RowOf(date, hours[h])
    decreases |hours|
  {
    if h < |hours| - 1 {
      DayRowsAt(date, hours[..|hours| - 1], h);
    }
  }

  /** Every day has 24 records. */
  predicate FullDays(report: seq<DayReport>) {
    forall i :: 0 <= i < |report| ==> |report[i].hours| == 24
  }

  /** With 24 records a day, the output has 24 rows per day and row `24 * i + h` is hour `h` of day `i`. */
  lemma {:induction false} FlattenedAt(report: seq<DayReport>, i: nat, h: nat)
    requires FullDays(report) && i < |report| && h < 24
    ensures |Flattened(report)| == 24 * |report|
    ensures Flattened(report)[24 * i + h] == RowOf(report[i].date, report[i].hours[h])
    decreases |report|
  {
    var init := report[..|report| - 1];
    assert FullDays(init) by {
      forall k | 0 <= k < |init| ensures |init[k].hours| == 24 {
        assert init[k] == report[k];
      }
    }
    FlattenedLength(init);
    if i < |report| - 1 {
      assert init[i] == report[i];
      FlattenedAt(init, i, h);
    } else {
      DayRowsAt(report[i].date, report[i].hours, h);
    }
  }

  lemma {:induction false} FlattenedLength(report: seq<DayReport>)
    requires FullDays(report)
    ensures |Flattened(report)| == 24 * |report|
    decreases |report|
  {
    if report != [] {
      var init := report[..|report| - 1];
      assert FullDays(init) by {
        forall k | 0 <= k < |init| ensures |init[k].hours| == 24 {
          assert init[k] == report[k];
        }
      }
      FlattenedLength(init);
    }
  }

  /**
   * Row `24 * i + h` of the saved file holds the date `i` days after 2024-01-01, the label
   * of hour `h`, that hour's consumption and price from the loaded dictionaries, and a cost
   * that is their product over 100.
   */
  lemma SavedRow(prices: map<Timestamp, real>, consumption: map<Timestamp, real>, report: seq<DayReport>, i: nat, h: nat)
    requires ReportUpTo(prices, consumption, report) && i < |report| && h < 24
    ensures 24 * i + h < |Flattened(report)|
    ensures var row := Flattened(report)[24 * i + h];
      row.date == DateAt(i) && row.hour == HourLabel(h)
      && row.price == Get(prices, AtHour(DateAt(i), h))
      && row.consumption == Get(consumption, AtHour(DateAt(i), h))
      && CostMatches(row)
  {
    SavedRowIs(prices, consumption, report, i, h);
    RowOfHour(prices, consumption, DateAt(i), h, Flattened(report)[24 * i + h]);
  }

  /** Row `24 * i + h` is written from the record of hour `h` on the `i`-th date. */
  lemma SavedRowIs(prices: map<Timestamp, real>, consumption: map<Timestamp, real>, report: seq<DayReport>, i: nat, h: nat)
    requires ReportUpTo(prices, consumption, report) && i < |report| && h < 24
    ensures 24 * i + h < |Flattened(report)|
    ensures Flattened(report)[24 * i + h] == RowOf(DateAt(i), HourAt(prices, consumption, DateAt(i), h))
  {
    assert FullDays(report) by {
      forall k | 0 <= k < |report| ensures |report[k].hours| == 24 {
        assert IsDayReport(prices, consumption, report[k]);
      }
    }
    FlattenedAt(report, i, h);
    HoursUpToAt(prices, consumption, report[i].date, 24, h);
  }

  /**
   * A row written from the record of hour `h` on date `d` carries that date, the hour's label,
   * the stored-or-zero price and consumption, and a cost that is their product over 100.
   */
  lemma RowOfHour(prices: map<Timestamp, real>, consumption: map<Timestamp, real>, d: Date, h: nat, row: ReportRow)
    requires h < 24 && row == RowOf(d, HourAt(prices, consumption, d, h))
    ensures row.date == d && row.hour == HourLabel(h)
    ensures row.price == Get(prices, AtHour(d, h)) && row.consumption == Get(consumption, AtHour(d, h))
    ensures CostMatches(row)
  {
  }
}
