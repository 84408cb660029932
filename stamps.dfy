/**
 * The two timestamp layouts of the input files, read the way `datetime.strptime`
 * reads zero-padded fields: `YYYY-MM-DDTHH:MM:SS` in the price file and
 * `DD.MM. HH:MM:SS` (no year) in the consumption file.
 */
module Stamps {
  import opened Wrappers
  import opened Locale
  import opened Calendar

  /** A naive `datetime` as the loaders build it; its microseconds are always zero. */
  datatype Timestamp = Timestamp(year: int, month: int, day: int, hour: int, minute: int, second: int)

  function DateOf(t: Timestamp): Date {
    Date(t.year, t.month, t.day)
  }

  /** A value the `datetime` constructor accepts. */
  predicate ValidTimestamp(t: Timestamp) {
    ValidDate(DateOf(t)) && 0 <= t.hour < 24 && 0 <= t.minute < 60 && 0 <= t.second < 60
  }

  /** `datetime(d) + timedelta(hours=h)` for `0 <= h < 24`: the start of hour `h` of day `d`. */
  function AtHour(d: Date, h: int): Timestamp {
    Timestamp(d.year, d.month, d.day, h, 0, 0)
  }

  /** The two characters at `i` read as a zero-padded decimal field `%d`, `%m`, `%H`, `%M` or `%S`. */
  function Pair(s: string, i: nat): (r: Option<nat>)
    requires i + 2 <= |s|
    ensures r.Some? ==> r.value < 100
  {
    if IsDigit(s[i]) && IsDigit(s[i + 1]) then Some(10 * DigitValue(s[i]) + DigitValue(s[i + 1])) else None
  }

  /** The four characters at `i` read as the year field `%Y`. */
  function Quad(s: string, i: nat): (r: Option<nat>)
    requires i + 4 <= |s|
    ensures r.Some? ==> r.value < 10000
  {
    match (Pair(s, i), Pair(s, i + 2))
    case (Some(hi), Some(lo)) => Some(100 * hi + lo)
    case _ => None
  }

  /** The decimal digit of `n` at place value `p`. */
  function Digit(n: nat, p: nat): char
    requires p >= 1
  {
    DigitChar((n / p) % 10)
  }

  // ---------------------------------------------------------------------------------------
  // Price file: `%Y-%m-%dT%H:%M:%S`.

  function ParsePriceStamp(s: string): (r: Option<Timestamp>)
    ensures r.Some? ==> ValidTimestamp(r.value)
  {
    if |s| != 19 || s[4] != '-' || s[7] != '-' || s[10] != 'T' || s[13] != ':' || s[16] != ':' then None
    else
      match (Quad(s, 0), Pair(s, 5), Pair(s, 8), Pair(s, 11), Pair(s, 14), Pair(s, 17))
      case (Some(y), Some(mo), Some(d), Some(h), Some(mi), Some(se)) =>
        // strptime's final range check: the fields must form a real date and time.
        var t := Timestamp(y, mo, d, h, mi, se);
        if ValidTimestamp(t) then Some(t) else None
      case _ => None
  }

  function FormatPriceStamp(t: Timestamp): string
    requires ValidTimestamp(t)
  {
    [Digit(t.year / 100, 10), Digit(t.year / 100, 1), Digit(t.year % 100, 10), Digit(t.year % 100, 1), '-',
     Digit(t.month, 10), Digit(t.month, 1), '-', Digit(t.day, 10), Digit(t.day, 1), 'T',
     Digit(t.hour, 10), Digit(t.hour, 1), ':', Digit(t.minute, 10), Digit(t.minute, 1), ':',
     Digit(t.second, 10), Digit(t.second, 1)]
  }

  // ---------------------------------------------------------------------------------------
  // Consumption file: `%d.%m. %H:%M:%S`, then `.replace(year=2024)`.

  /** `strptime` of the yearless layout, with `year` standing in for the missing field. */
  function ParseDayMonthStamp(s: string, year: int): (r: Option<Timestamp>)
    ensures r.Some? ==> ValidTimestamp(r.value) && r.value.year == year
  {
    if |s| != 15 || s[2] != '.' || s[5] != '.' || s[6] != ' ' || s[9] != ':' || s[12] != ':' then None
    else
      match (Pair(s, 0), Pair(s, 3), Pair(s, 7), Pair(s, 10), Pair(s, 13))
      case (Some(d), Some(mo), Some(h), Some(mi), Some(se)) =>
        var t := Timestamp(year, mo, d, h, mi, se);
        if ValidTimestamp(t) then Some(t) else None
      case _ => None
  }

  /** 29 February, the day 1900 lacks. */
  predicate IsLeapDay(t: Timestamp) {
    t.month == 2 && t.day == 29
  }

  /** The year `strptime` fills in when the layout has none. */
  const StrptimeDefaultYear := 1900

  /** `datetime.replace(year=y)`: fails when the day does not exist in year `y`. */
  function ReplaceYear(t: Timestamp, y: int): Option<Timestamp> {
    var u := t.(year := y);
    if ValidTimestamp(u) then Some(u) else None
  }

  /**
   * The consumption timestamp as the loader computes it: parsed against the default
   * year 1900, which has no 29 February, and only then moved to 2024.
   */
  function ConsumptionStampAsWritten(s: string): (r: Option<Timestamp>)
    ensures r.Some? ==> ValidTimestamp(r.value) && r.value.year == ProcessingYear && !IsLeapDay(r.value)
  {
    match ParseDayMonthStamp(s, StrptimeDefaultYear)
    case Some(t) => ReplaceYear(t, ProcessingYear)
    case None => None
  }

  /** Moving a valid 1900 timestamp to 2024 never fails: every day of 1900 exists in 2024. */
  lemma MoveFromDefaultYear(t: Timestamp)
    requires ValidTimestamp(t) && t.year == StrptimeDefaultYear
    ensures ReplaceYear(t, ProcessingYear) == Some(t.(year := ProcessingYear))
  {
  }

  /** The consumption timestamp as intended: the fields checked against 2024 itself. */
  function ConsumptionStamp(s: string): (r: Option<Timestamp>)
    ensures r.Some? ==> ValidTimestamp(r.value) && r.value.year == ProcessingYear
  {
    ParseDayMonthStamp(s, ProcessingYear)
  }

  function FormatConsumptionStamp(t: Timestamp): string
    requires ValidTimestamp(t)
  {
    [Digit(t.day, 10), Digit(t.day, 1), '.', Digit(t.month, 10), Digit(t.month, 1), '.', ' ',
     Digit(t.hour, 10), Digit(t.hour, 1), ':', Digit(t.minute, 10), Digit(t.minute, 1), ':',
     Digit(t.second, 10), Digit(t.second, 1)]
  }

  // ---------------------------------------------------------------------------------------
  // Round trips: each layout and its parser are inverse to each other.

  lemma PairOfDigits(s: string, i: nat, n: nat)
    requires n < 100 && i + 2 <= |s| && s[i] == Digit(n, 10) && s[i + 1] == Digit(n, 1)
    ensures Pair(s, i) == Some(n)
  {
  }

  lemma DigitsOfPair(s: string, i: nat) returns (n: nat)
    requires i + 2 <= |s| && Pair(s, i).Some?
    ensures n == Pair(s, i).value && s[i] == Digit(n, 10) && s[i + 1] == Digit(n, 1)
  {
    n := Pair(s, i).value;
    assert DigitChar(DigitValue(s[i])) == s[i] && DigitChar(DigitValue(s[i + 1])) == s[i + 1];
  }

  lemma QuadOfDigits(s: string, i: nat, n: nat)
    requires n < 10000 && i + 4 <= |s|
    requires s[i] == Digit(n / 100, 10) && s[i + 1] == Digit(n / 100, 1)
    requires s[i + 2] == Digit(n % 100, 10) && s[i + 3] == Digit(n % 100, 1)
    ensures Quad(s, i) == Some(n)
  {
    PairOfDigits(s, i, n / 100);
    PairOfDigits(s, i + 2, n % 100);
  }

  lemma DigitsOfQuad(s: string, i: nat) returns (n: nat)
    requires i + 4 <= |s| && Quad(s, i).Some?
    ensures n == Quad(s, i).value
    ensures s[i] == Digit(n / 100, 10) && s[i + 1] == Digit(n / 100, 1)
    ensures s[i + 2] == Digit(n % 100, 10) && s[i + 3] == Digit(n % 100, 1)
  {
    var hi := DigitsOfPair(s, i);
    var lo := DigitsOfPair(s, i + 2);
    n := 100 * hi + lo;
    assert n / 100 == hi && n % 100 == lo;
  }

  /** Every valid timestamp, written in the price layout, reads back as itself. */
  lemma PriceStampRoundTrip(t: Timestamp)
    requires ValidTimestamp(t)
    ensures ParsePriceStamp(FormatPriceStamp(t)) == Some(t)
  {
    var s := FormatPriceStamp(t);
    QuadOfDigits(s, 0, t.year);
    PairOfDigits(s, 5, t.month);
    PairOfDigits(s, 8, t.day);
    PairOfDigits(s, 11, t.hour);
    PairOfDigits(s, 14, t.minute);
    PairOfDigits(s, 17, t.second);
  }

  /** Every string the price layout accepts is the canonical rendering of what it parses to. */
  lemma PriceStampCanonical(s: string)
    requires ParsePriceStamp(s).Some?
    ensures FormatPriceStamp(ParsePriceStamp(s).value) == s
  {
    var y := DigitsOfQuad(s, 0);
    var mo := DigitsOfPair(s, 5);
    var d := DigitsOfPair(s, 8);
    var h := DigitsOfPair(s, 11);
    var mi := DigitsOfPair(s, 14);
    var se := DigitsOfPair(s, 17);
    assert ParsePriceStamp(s).value == Timestamp(y, mo, d, h, mi, se);
  }

  /** Every valid 2024 timestamp, written in the consumption layout, reads back as itself. */
  lemma ConsumptionStampRoundTrip(t: Timestamp)
    requires ValidTimestamp(t) && t.year == ProcessingYear
    ensures ConsumptionStamp(FormatConsumptionStamp(t)) == Some(t)
  {
    var s := FormatConsumptionStamp(t);
    PairOfDigits(s, 0, t.day);
    PairOfDigits(s, 3, t.month);
    PairOfDigits(s, 7, t.hour);
    PairOfDigits(s, 10, t.minute);
    PairOfDigits(s, 13, t.second);
  }

  /** Every string the consumption layout accepts is the canonical rendering of what it parses to. */
  lemma ConsumptionStampCanonical(s: string)
    requires ConsumptionStamp(s).Some?
    ensures FormatConsumptionStamp(ConsumptionStamp(s).value) == s
  {
    var d := DigitsOfPair(s, 0);
    var mo := DigitsOfPair(s, 3);
    var h := DigitsOfPair(s, 7);
    var mi := DigitsOfPair(s, 10);
    var se := DigitsOfPair(s, 13);
    assert ConsumptionStamp(s).value == Timestamp(ProcessingYear, mo, d, h, mi, se);
  }

  // ---------------------------------------------------------------------------------------
  // The default year: what parsing against 1900 does to the consumption file.

  /** The consumption timestamp the loader keeps, given the one the fields describe in 2024. */
  function WithoutLeapDay(r: Option<Timestamp>): Option<Timestamp> {
    match r
    case Some(t) => if IsLeapDay(t) then None else Some(t)
    case None => None
  }

  /**
   * Reading the fields against 1900 and then moving them to 2024 loses exactly the rows
   * dated 29 February and changes no other row.
   */
  lemma AsWrittenDropsLeapDay(s: string)
    ensures ConsumptionStampAsWritten(s) == WithoutLeapDay(ConsumptionStamp(s))
  {
    if |s| == 15 && s[2] == '.' && s[5] == '.' && s[6] == ' ' && s[9] == ':' && s[12] == ':' {
      match (Pair(s, 0), Pair(s, 3), Pair(s, 7), Pair(s, 10), Pair(s, 13))
      case (Some(d), Some(mo), Some(h), Some(mi), Some(se)) =>
        if 1 <= mo <= 12 {
          assert DaysInMonth(StrptimeDefaultYear, mo) == if mo == 2 then 28 else DaysInMonth(ProcessingYear, mo);
        }
      case _ =>
    }
  }

  /** A row stamped 29 February: the intended reading keeps it, the one as written rejects it. */
  lemma LeapDayRowRejected()
    ensures ConsumptionStamp("29.02. 13:00:00") == Some(Timestamp(2024, 2, 29, 13, 0, 0))
    ensures ConsumptionStampAsWritten("29.02. 13:00:00") == None
  {
    AsWrittenDropsLeapDay("29.02. 13:00:00");
  }
}
