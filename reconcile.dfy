/**
 * `process_data`: for every day of 2024 up to, and not including, today, the 24 hourly
 * records pairing the spot price with the consumption, their cost, and the day's totals.
 * Today's date is a parameter here rather than a clock reading.
 */
module Reconcile {
  import opened Wrappers
  import opened Calendar
  import opened Stamps

  /** One entry of `hourly_data`. */
  datatype HourRecord = HourRecord(hour: string, consumption: real, price: real, cost: real)

  /** The value stored under one date of the result: its hourly records and their totals. */
  datatype DayReport = DayReport(date: Date, hours: seq<HourRecord>, totalCost: real, totalConsumption: real)

  /** The first day of the window, `datetime(2024, 1, 1)`. */
  const WindowStart := Date(ProcessingYear, 1, 1)

  /** The cap on the window's end, `datetime(2025, 1, 1)`. */
  const YearEnd := Date(ProcessingYear + 1, 1, 1)

  // ---------------------------------------------------------------------------------------
  // One hour.

  /** `d.get(timestamp, 0)`: a missing reading counts as zero. */
  function Get(m: map<Timestamp, real>, k: Timestamp): real {
    if k in m then m[k] else 0.0
  }

  /** `f'{hour:02d}:00'`. */
  function HourLabel(h: nat): (s: string)
    requires h < 24
    ensures |s| == 5
  {
    [Digit(h, 10), Digit(h, 1), ':', '0', '0']
  }

  /** The record of hour `h` of day `d`: price in cents per kWh, consumption in kWh, cost in euros. */
  function HourAt(prices: map<Timestamp, real>, consumption: map<Timestamp, real>, d: Date, h: nat): (r: HourRecord)
    requires h < 24
    ensures r.hour == HourLabel(h)
    ensures AtHour(d, h) in prices ==> r.price == prices[AtHour(d, h)]
    ensures AtHour(d, h) !in prices ==> r.price == 0.0 && r.cost == 0.0
    ensures AtHour(d, h) in consumption ==> r.consumption == consumption[AtHour(d, h)]
    ensures AtHour(d, h) !in consumption ==> r.consumption == 0.0 && r.cost == 0.0
    ensures 100.0 * r.cost == r.price * r.consumption
  {
    var price := Get(prices, AtHour(d, h));
    var cons := Get(consumption, AtHour(d, h));
    HourRecord(HourLabel(h), cons, price, price * cons / 100.0)
  }

  /** `daily_total_cost` after the records `hs`. */
  function SumCost(hs: seq<HourRecord>): real {
    if hs == [] then 0.0 else SumCost(hs[..|hs| - 1]) + hs[|hs| - 1].cost
  }

  /** `daily_total_consumption` after the records `hs`. */
  function SumConsumption(hs: seq<HourRecord>): real {
    if hs == [] then 0.0 else SumConsumption(hs[..|hs| - 1]) + hs[|hs| - 1].consumption
  }

  lemma SumsAppend(hs: seq<HourRecord>, r: HourRecord)
    ensures SumCost(hs + [r]) == SumCost(hs) + r.cost
    ensures SumConsumption(hs + [r]) == SumConsumption(hs) + r.consumption
  {
    assert (hs + [r])[..|hs|] == hs;
  }

  /** The records of hours `0` to `n - 1` of day `d`, in order. */
  function HoursUpTo(prices: map<Timestamp, real>, consumption: map<Timestamp, real>, d: Date, n: nat): (hs: seq<HourRecord>)
    requires n <= 24
    ensures |hs| == n
  {
    if n == 0 then [] else HoursUpTo(prices, consumption, d, n - 1) + [HourAt(prices, consumption, d, n - 1)]
  }

  /** Entry `h` of the records up to `n` is the record of hour `h`. */
  lemma {:induction false} HoursUpToAt(prices: map<Timestamp, real>, consumption: map<Timestamp, real>, d: Date, n: nat, h: nat)
    requires h < n <= 24
    ensures HoursUpTo(prices, consumption, d, n)[h] == HourAt(prices, consumption, d, h)
  {
    if h < n - 1 {
      HoursUpToAt(prices, consumption, d, n - 1, h);
    }
  }

  /** What the result holds for one date: hours 0 to 23 in order, and totals that are their sums. */
  predicate IsDayReport(prices: map<Timestamp, real>, consumption: map<Timestamp, real>, day: DayReport) {
    day.hours == HoursUpTo(prices, consumption, day.date, 24)
    && day.totalCost == SumCost(day.hours)
    && day.totalConsumption == SumConsumption(day.hours)
  }

  /** The body of the `while` loop: the inner `for hour in range(24)` for the day `d`. */
  method ReconcileDay(prices: map<Timestamp, real>, consumption: map<Timestamp, real>, d: Date)
    returns (day: DayReport)
    ensures day.date == d && IsDayReport(prices, consumption, day)
  {
    var hours: seq<HourRecord> := [];
    var totalCost := 0.0;
    var totalConsumption := 0.0;
    for hour := 0 to 24
      invariant hours == HoursUpTo(prices, consumption, d, hour)
      invariant totalCost == SumCost(hours) && totalConsumption == SumConsumption(hours)
    {
      var timestamp := AtHour(d, hour);
      var price := Get(prices, timestamp);
      var cons := Get(consumption, timestamp);
      var cost := price * cons / 100.0;
      var record := HourRecord(HourLabel(hour), cons, price, cost);
      HourStep(prices, consumption, d, hour, price, cons);
      SumsAppend(hours, record);
      hours := hours + [record];
      totalCost := totalCost + cost;
      totalConsumption := totalConsumption + cons;
    }
    day := DayReport(d, hours, totalCost, totalConsumption);
  }

  /** One turn of the hour loop appends the record of that hour. */
  lemma HourStep(prices: map<Timestamp, real>, consumption: map<Timestamp, real>, d: Date, h: nat, price: real, cons: real)
    requires h < 24 && price == Get(prices, AtHour(d, h)) && cons == Get(consumption, AtHour(d, h))
    ensures HourRecord(HourLabel(h), cons, price, price * cons / 100.0) == HourAt(prices, consumption, d, h)
    ensures HoursUpTo(prices, consumption, d, h + 1) == HoursUpTo(prices, consumption, d, h) + [HourAt(prices, consumption, d, h)]
  {
  }

  /** The label of hour `h` reads back as `h` and ends in `:00`. */
  lemma HourLabelReadsBack(h: nat)
    requires h < 24
    ensures Pair(HourLabel(h), 0) == Some(h)
    ensures HourLabel(h)[2..] == ":00"
  {
    PairOfDigits(HourLabel(h), 0, h);
  }

  /** Python's string order: a proper prefix is smaller, otherwise the first differing character decides. */
  predicate LexLess(a: string, b: string) {
    b != [] && (a == [] || a[0] < b[0] || (a[0] == b[0] && LexLess(a[1..], b[1..])))
  }

  /** The hour labels sort in the order of their hours. */
  lemma HourLabelsAscending(g: nat, h: nat)
    requires g < h < 24
    ensures LexLess(HourLabel(g), HourLabel(h))
  {
    var a := HourLabel(g);
    var b := HourLabel(h);
    if g / 10 == h / 10 {
      assert a[0] == b[0] && a[1] < b[1];
      assert LexLess(a[1..], b[1..]);
    } else {
      assert a[0] < b[0];
    }
  }

  /** Hours with no consumption reading add nothing to either total. */
  lemma {:induction false} IdleHoursSumToZero(hs: seq<HourRecord>)
    requires forall i :: 0 <= i < |hs| ==> hs[i].consumption == 0.0 && hs[i].cost == 0.0
    ensures SumCost(hs) == 0.0 && SumConsumption(hs) == 0.0
  {
    if hs != [] {
      IdleHoursSumToZero(hs[..|hs| - 1]);
    }
  }

  /** A day without any consumption reading has zero totals, whatever its prices. */
  lemma IdleDay(prices: map<Timestamp, real>, consumption: map<Timestamp, real>, day: DayReport)
    requires IsDayReport(prices, consumption, day)
    requires forall h :: 0 <= h < 24 ==> AtHour(day.date, h) !in consumption
    ensures day.totalCost == 0.0 && day.totalConsumption == 0.0
  {
    forall i | 0 <= i < |day.hours| ensures day.hours[i].consumption == 0.0 && day.hours[i].cost == 0.0 {
      HoursUpToAt(prices, consumption, day.date, 24, i);
    }
    IdleHoursSumToZero(day.hours);
  }

  // ---------------------------------------------------------------------------------------
  // The days.

  /** 2024 has 366 days. */
  lemma YearSpan()
    ensures ValidDate(WindowStart) && ValidDate(YearEnd)
    ensures Ordinal(YearEnd) == Ordinal(WindowStart) + 366
  {
    YearLength(ProcessingYear);
  }

  /** The `i`-th date of the window: 2024-01-01 advanced `i` days. */
  function DateAt(i: nat): (d: Date)
    requires i <= 366
    ensures ValidDate(d) && Ordinal(d) == Ordinal(WindowStart) + i
  {
    YearSpan();
    if i == 0 then WindowStart
    else
      var p := DateAt(i - 1);
      BeforeIffOrdinalLess(p, YearEnd);
      NextDay(p)
  }

  /** Every date of the window but the last lies in 2024, so it has a next day. */
  lemma DateBeforeYearEnd(i: nat)
    requires i < 366
    ensures Before(DateAt(i), YearEnd) && DateAt(i) != LastDate
    ensures NextDay(DateAt(i)) == DateAt(i + 1)
  {
    YearSpan();
    BeforeIffOrdinalLess(DateAt(i), YearEnd);
  }

  /** `end_date`: the earlier of 2025-01-01 and today. */
  function WindowEnd(today: Date): Date {
    Earlier(YearEnd, today)
  }

  /** The number of dates the loop visits. */
  function WindowLength(today: Date): (n: nat)
    requires ValidDate(today)
    ensures n <= 366
  {
    YearSpan();
    var end := WindowEnd(today);
    if Before(WindowStart, end) then
      BeforeIffOrdinalLess(WindowStart, end);
      BeforeIffOrdinalLess(end, YearEnd);
      Ordinal(end) - Ordinal(WindowStart)
    else 0
  }

  /** The loop runs while the current date is before the end: exactly for the first `WindowLength` dates. */
  lemma BeforeEndIff(today: Date, k: nat)
    requires ValidDate(today) && k <= WindowLength(today)
    ensures Before(DateAt(k), WindowEnd(today)) <==> k < WindowLength(today)
  {
    YearSpan();
    BeforeIffOrdinalLess(DateAt(k), WindowEnd(today));
    BeforeIffOrdinalLess(WindowStart, WindowEnd(today));
  }

  /** The dates of the window are strictly increasing. */
  lemma DatesIncrease(i: nat, j: nat)
    requires i < j <= 366
    ensures Before(DateAt(i), DateAt(j))
  {
    BeforeIffOrdinalLess(DateAt(i), DateAt(j));
  }

  /** Nothing is visited when today is not after 2024-01-01. */
  lemma WindowEmpty(today: Date)
    requires ValidDate(today)
    ensures WindowLength(today) == 0 <==> !Before(WindowStart, today)
  {
    YearSpan();
    BeforeIffOrdinalLess(WindowStart, YearEnd);
  }

  /** From 2025-01-01 on, the whole year 2024 is visited. */
  lemma WindowFullYear(today: Date)
    requires ValidDate(today) && !Before(today, YearEnd)
    ensures WindowLength(today) == 366
  {
    YearSpan();
  }

  /**
   * The dates visited are exactly the dates from 2024-01-01 that are before both today
   * and 2025-01-01.
   */
  lemma WindowCovers(today: Date, e: Date)
    requires ValidDate(today) && ValidDate(e)
    ensures (exists i :: 0 <= i < WindowLength(today) && DateAt(i) == e)
        <==> !Before(e, WindowStart) && Before(e, today) && Before(e, YearEnd)
  {
    if !Before(e, WindowStart) && Before(e, today) && Before(e, YearEnd) {
      var i := WindowIndex(today, e);
    }
    if exists i :: 0 <= i < WindowLength(today) && DateAt(i) == e {
      var i :| 0 <= i < WindowLength(today) && DateAt(i) == e;
      WindowDate(today, i);
    }
  }

  /** A date of 2024 before today is visited, as the date at its distance from 2024-01-01. */
  lemma WindowIndex(today: Date, e: Date) returns (i: nat)
    requires ValidDate(today) && ValidDate(e)
    requires !Before(e, WindowStart) && Before(e, today) && Before(e, YearEnd)
    ensures i < WindowLength(today) && DateAt(i) == e
  {
    YearSpan();
    BeforeIffOrdinalLess(e, WindowStart);
    BeforeIffOrdinalLess(e, today);
    BeforeIffOrdinalLess(e, YearEnd);
    BeforeIffOrdinalLess(WindowStart, WindowEnd(today));
    i := Ordinal(e) - Ordinal(WindowStart);
    BeforeIffOrdinalLess(DateAt(i), e);
  }

  /** Every visited date lies in 2024, from 2024-01-01 on, and before today. */
  lemma WindowDate(today: Date, i: nat)
    requires ValidDate(today) && i < WindowLength(today)
    ensures !Before(DateAt(i), WindowStart) && Before(DateAt(i), today) && Before(DateAt(i), YearEnd)
  {
    YearSpan();
    var e := DateAt(i);
    BeforeIffOrdinalLess(WindowStart, WindowEnd(today));
    BeforeIffOrdinalLess(e, WindowStart);
    BeforeIffOrdinalLess(e, today);
    BeforeIffOrdinalLess(e, YearEnd);
  }

  /** The entries so far are those of the first dates of the window, in order. */
  predicate ReportUpTo(prices: map<Timestamp, real>, consumption: map<Timestamp, real>, report: seq<DayReport>) {
    |report| <= 366
    && forall i :: 0 <= i < |report| ==> report[i].date == DateAt(i) && IsDayReport(prices, consumption, report[i])
  }

  lemma ReportGrows(prices: map<Timestamp, real>, consumption: map<Timestamp, real>, report: seq<DayReport>, n: nat, day: DayReport)
    requires ReportUpTo(prices, consumption, report) && n == |report| < 366
    requires day.date == DateAt(n) && IsDayReport(prices, consumption, day)
    ensures ReportUpTo(prices, consumption, report + [day])
  {
    var grown := report + [day];
    forall i | 0 <= i < |grown| ensures grown[i].date == DateAt(i) && IsDayReport(prices, consumption, grown[i]) {
      if i < |report| {
        assert grown[i] == report[i];
      }
    }
  }

  /**
   * `process_data`: one entry per date of the window, in order, each holding that date's
   * 24 hourly records and their totals. The result dictionary is kept in its insertion order.
   */
  method ProcessData(prices: map<Timestamp, real>, consumption: map<Timestamp, real>, today: Date)
    returns (report: seq<DayReport>)
    requires ValidDate(today)
    ensures |report| == WindowLength(today)
    ensures ReportUpTo(prices, consumption, report)
  {
    report := [];
    var n := 0;
    var current := WindowStart;
    var end := WindowEnd(today);
    BeforeEndIff(today, 0);
    while Before(current, end)
      invariant n == |report| <= WindowLength(today)
      invariant current == DateAt(n)
      invariant Before(current, end) <==> n < WindowLength(today)
      invariant ReportUpTo(prices, consumption, report)
      decreases WindowLength(today) - n
    {
      var day := ReconcileDay(prices, consumption, current);
      ReportGrows(prices, consumption, report, n, day);
      report := report + [day];
      DateBeforeYearEnd(n);
      current := NextDay(current);
      n := n + 1;
      BeforeEndIff(today, n);
    }
  }
}
