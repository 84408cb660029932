/**
 * One hour followed from the two input files to the saved report: the price row
 * `2024-01-01T00:00:00;zone;x;5,5` and the consumption row `01.01. 00:00:00;2,0;`
 * give the record of 00:00 on 2024-01-01, with consumption 2.0, price 5.5 and cost 0.11.
 */
module Sample {
  import opened Wrappers
  import opened Locale
  import opened Calendar
  import opened Stamps
  import opened Loaders
  import opened Reconcile
  import opened Report

  const Midnight := Timestamp(2024, 1, 1, 0, 0, 0)
  const PriceLine: Row := ["2024-01-01T00:00:00", "zone", "x", "5,5"]
  const ConsumptionLine: Row := ["01.01. 00:00:00", "2,0", ""]

  /** `a,b` with one digit on each side reads as `a + b / 10`. */
  lemma OneDecimal(a: nat, b: nat)
    requires a < 10 && b < 10
    ensures ParseFinnishFloat([DigitChar(a), ',', DigitChar(b)]) == Some(a as real + b as real / 10.0)
  {
    var w, f := [DigitChar(a)], [DigitChar(b)];
    SingleDigit(a);
    SingleDigit(b);
    TenthsReading(a, b, w, f);
    ParseFinnishDigits(w, f);
    assert w + "," + f == [DigitChar(a), ',', DigitChar(b)];
  }

  /**
   * One fraction digit is a tenth. Stated as an equality of readings, so that the caller
   * matches it against `ParseFinnishDigits` without arithmetic.
   */
  lemma TenthsReading(a: nat, b: nat, w: string, f: string)
    requires AllDigits(w) && AllDigits(f) && |f| == 1 && DigitsValue(w) == a && DigitsValue(f) == b
    ensures Some(DigitsValue(w) as real + DigitsValue(f) as real / Pow10(|f|) as real)
      == Some(a as real + b as real / 10.0)
  {
    assert Pow10(|f|) == 10 by { assert Pow10(0) == 1; }
  }

  lemma SingleDigit(a: nat)
    requires a < 10
    ensures DigitsValue([DigitChar(a)]) == a
  {
    assert [DigitChar(a)][..0] == [];
  }

  lemma PriceStampReads()
    ensures ParsePriceStamp("2024-01-01T00:00:00") == Some(Midnight)
  {
    var s := "2024-01-01T00:00:00";
    assert Quad(s, 0) == Some(2024);
    assert Pair(s, 5) == Some(1) && Pair(s, 8) == Some(1);
    assert Pair(s, 11) == Some(0) && Pair(s, 14) == Some(0) && Pair(s, 17) == Some(0);
  }

  lemma ConsumptionStampReads()
    ensures ConsumptionStamp("01.01. 00:00:00") == Some(Midnight)
    ensures ConsumptionStampAsWritten("01.01. 00:00:00") == Some(Midnight)
  {
    var s := "01.01. 00:00:00";
    assert Pair(s, 0) == Some(1) && Pair(s, 3) == Some(1);
    assert Pair(s, 7) == Some(0) && Pair(s, 10) == Some(0) && Pair(s, 13) == Some(0);
    AsWrittenDropsLeapDay(s);
  }

  lemma NumbersRead()
    ensures ParseFinnishFloat("5,5") == Some(5.5) && ParseFinnishFloat("2,0") == Some(2.0)
  {
    OneDecimal(5, 5);
    assert [DigitChar(5), ',', DigitChar(5)] == "5,5";
    OneDecimal(2, 0);
    assert [DigitChar(2), ',', DigitChar(0)] == "2,0";
  }

  /** The price row yields 5.5 cents per kWh at midnight of 2024-01-01. */
  lemma PriceLineReads()
    ensures PriceRow(PriceLine) == Some((Midnight, 5.5))
  {
    PriceStampReads();
    NumbersRead();
  }

  lemma DayColumnStripped()
    ensures Strip("2,0") == "2,0" && !HasSeparator("2,0")
  {
    var s := "2,0";
    assert !IsSpace(s[0]) && !IsSpace(s[|s| - 1]);
    assert forall i :: 0 <= i < |s| ==> s[i] in {'2', ',', '0'};
  }

  /** The consumption row, whose night-rate column is empty, yields its day-rate 2.0 kWh. */
  lemma ConsumptionLineReads()
    ensures ConsumptionRow(ConsumptionLine) == Some((Midnight, 2.0))
  {
    ConsumptionStampReads();
    NumbersRead();
    DayColumnStripped();
    DayRateFirst(ConsumptionLine, "");
  }

  /** The loaders' dictionaries for a file holding a header and the sample row. */
  lemma PriceDictionary()
    ensures Collect([PriceLine], PriceRow) == map[Midnight := 5.5]
  {
    PriceLineReads();
    assert [PriceLine][..0] == [];
  }

  lemma ConsumptionDictionary()
    ensures Collect([ConsumptionLine], ConsumptionRow) == map[Midnight := 2.0]
  {
    ConsumptionLineReads();
    assert [ConsumptionLine][..0] == [];
  }

  /**
   * With those two files loaded, the first row of the saved report, whatever today is
   * after 2024-01-01, is `2024-01-01, 00:00, 2.0, 5.5, 0.11`.
   */
  lemma FirstSavedRow(report: seq<DayReport>)
    requires ReportUpTo(Collect([PriceLine], PriceRow), Collect([ConsumptionLine], ConsumptionRow), report)
    requires |report| >= 1
    ensures |Flattened(report)| >= 1
    ensures Flattened(report)[0] == ReportRow(Date(2024, 1, 1), "00:00", 2.0, 5.5, 0.11)
  {
    PriceDictionary();
    ConsumptionDictionary();
    HourAtMidnight(report, map[Midnight := 5.5], map[Midnight := 2.0]);
  }

  /** The record of 00:00 on 2024-01-01: 5.5 cents times 2.0 kWh is 0.11 euros. */
  lemma SampleHour()
    ensures HourAt(map[Midnight := 5.5], map[Midnight := 2.0], Date(2024, 1, 1), 0)
      == HourRecord("00:00", 2.0, 5.5, 0.11)
  {
  }

  lemma HourAtMidnight(report: seq<DayReport>, prices: map<Timestamp, real>, consumption: map<Timestamp, real>)
    requires |report| >= 1 && ReportUpTo(prices, consumption, report)
    requires prices == map[Midnight := 5.5] && consumption == map[Midnight := 2.0]
    ensures |Flattened(report)| >= 1
    ensures Flattened(report)[0] == ReportRow(Date(2024, 1, 1), "00:00", 2.0, 5.5, 0.11)
  {
    var day := report[0];
    assert day.date == Date(2024, 1, 1) && IsDayReport(prices, consumption, day);
    FlattenedAt(report, 0, 0);
    HoursUpToAt(prices, consumption, day.date, 24, 0);
    SampleHour();
  }
}
