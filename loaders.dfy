/**
 * The two CSV loaders. A file is given as the rows the `;`-separated reader yields; the
 * first row is the header. Each later row either yields one reading, which is stored
 * under its timestamp (a later row with the same timestamp replaces an earlier one), or
 * is skipped, after which loading goes on with the next row.
 */
module Loaders {
  import opened Wrappers
  import opened Locale
  import opened Calendar
  import opened Stamps

  /** One row of a `;`-separated file: its cells, in order. */
  type Row = seq<string>

  /** A value read from one row, under the timestamp it belongs to. */
  type Reading = (Timestamp, real)

  /** How a loader turns one row into a reading, or skips the row. */
  type RowReader = Row -> Option<Reading>

  /** `next(reader)` on a file with no rows raises instead of skipping a header. */
  datatype LoadError = MissingHeader

  /** `r` is a reading stored under `k`. */
  predicate ReadsKey(r: Option<Reading>, k: Timestamp) {
    r.Some? && r.value.0 == k
  }

  // ---------------------------------------------------------------------------------------
  // The dictionary a loader builds.

  /** The dictionary after the rows `rows`, in order: every reading is stored, a later one over an earlier one. */
  function Collect(rows: seq<Row>, read: RowReader): map<Timestamp, real>
    decreases |rows|
  {
    if rows == [] then map[] else Store(Collect(rows[..|rows| - 1], read), read(rows[|rows| - 1]))
  }

  /** `data[timestamp] = value` for a row with a reading; nothing for a skipped row. */
  function Store(m: map<Timestamp, real>, r: Option<Reading>): map<Timestamp, real> {
    match r
    case Some((k, v)) => m[k := v]
    case None => m
  }

  /** Loading one more row stores its reading over the dictionary so far. */
  lemma CollectAppend(rows: seq<Row>, row: Row, read: RowReader)
    ensures Collect(rows + [row], read) == Store(Collect(rows, read), read(row))
  {
    assert (rows + [row])[..|rows|] == rows;
  }

  /** The loop step of a loader: row `i` of the file is stored over the rows before it, header excluded. */
  lemma CollectNext(file: seq<Row>, i: nat, read: RowReader)
    requires 1 <= i < |file|
    ensures Collect(file[1..i + 1], read) == Store(Collect(file[1..i], read), read(file[i]))
  {
    assert file[1..i + 1] == file[1..i] + [file[i]];
    CollectAppend(file[1..i], file[i], read);
  }

  /** A timestamp is a key exactly when some row yields a reading under it. */
  lemma {:induction false} CollectKeys(rows: seq<Row>, read: RowReader, k: Timestamp)
    ensures k in Collect(rows, read) <==> exists i :: 0 <= i < |rows| && ReadsKey(read(rows[i]), k)
    decreases |rows|
  {
    if rows != [] {
      var init := rows[..|rows| - 1];
      CollectKeys(init, read, k);
      if k in Collect(init, read) {
        var i :| 0 <= i < |init| && ReadsKey(read(init[i]), k);
        assert init[i] == rows[i];
      }
      if exists i :: 0 <= i < |rows| && ReadsKey(read(rows[i]), k) {
        var i :| 0 <= i < |rows| && ReadsKey(read(rows[i]), k);
        if i < |init| {
          assert init[i] == rows[i];
        }
      }
    }
  }

  /** The value stored under a key is the one from the last row that yields a reading under it. */
  lemma {:induction false} CollectLastWins(rows: seq<Row>, read: RowReader, i: nat)
    requires i < |rows| && read(rows[i]).Some?
    requires forall j :: i < j < |rows| ==> !ReadsKey(read(rows[j]), read(rows[i]).value.0)
    ensures read(rows[i]).value.0 in Collect(rows, read)
    ensures Collect(rows, read)[read(rows[i]).value.0] == read(rows[i]).value.1
    decreases |rows|
  {
    if i < |rows| - 1 {
      var init := rows[..|rows| - 1];
      assert init[i] == rows[i];
      forall j | i < j < |init| ensures !ReadsKey(read(init[j]), read(init[i]).value.0) {
        assert init[j] == rows[j];
      }
      CollectLastWins(init, read, i);
      assert !ReadsKey(read(rows[|rows| - 1]), read(rows[i]).value.0);
    }
  }

  /** A row that yields no reading changes nothing: dropping it gives the same dictionary. */
  lemma {:induction false} CollectSkips(before: seq<Row>, row: Row, after: seq<Row>, read: RowReader)
    requires read(row).None?
    ensures Collect(before + [row] + after, read) == Collect(before + after, read)
    decreases |after|
  {
    if after == [] {
      assert (before + [row] + after)[..|before| + 1 - 1] == before;
      assert before + after == before;
    } else {
      var last := after[|after| - 1];
      var init := after[..|after| - 1];
      assert (before + [row] + after)[..|before + [row] + after| - 1] == before + [row] + init;
      assert (before + after)[..|before + after| - 1] == before + init;
      CollectSkips(before, row, init, read);
    }
  }

  // ---------------------------------------------------------------------------------------
  // The price file: timestamp in column 0, price in cents per kWh in column 3.

  /** The body of the price loader's `try`: any `ValueError` or `IndexError` skips the row. */
  function PriceRow(row: Row): (r: Option<Reading>)
    ensures r.Some? ==> |row| >= 4 && ParsePriceStamp(row[0]) == Some(r.value.0)
    ensures r.Some? ==> ParseFinnishFloat(row[3]) == Some(r.value.1)
    ensures |row| >= 4 && ParsePriceStamp(row[0]).Some? && ParseFinnishFloat(row[3]).Some? ==> r.Some?
  {
    if |row| == 0 then None
    else
      match ParsePriceStamp(row[0])
      case None => None
      case Some(t) =>
        if |row| < 4 then None
        else
          match ParseFinnishFloat(row[3])
          case Some(v) => Some((t, v))
          case None => None
  }

  /**
   * A row with a timestamp in the price layout in column 0 and a Finnish decimal in
   * column 3 yields that timestamp and that number, whatever the other columns hold.
   */
  lemma PriceRowReads(row: Row, t: Timestamp, n: int, k: nat)
    requires ValidTimestamp(t) && |row| >= 4
    requires row[0] == FormatPriceStamp(t) && row[3] == FormatFinnish(n, k)
    ensures PriceRow(row) == Some((t, n as real / Pow10(k) as real))
  {
    PriceStampRoundTrip(t);
    FormatFinnishRoundTrip(n, k);
  }

  /** Conversely, a row that yields a reading holds the canonical rendering of its key in column 0. */
  lemma PriceRowSource(row: Row)
    requires PriceRow(row).Some?
    ensures row[0] == FormatPriceStamp(PriceRow(row).value.0)
  {
    PriceStampCanonical(row[0]);
  }

  /** `read_csv`: skip the header, then keep the reading of every row that has one. */
  method ReadPrices(file: seq<Row>) returns (r: Result<map<Timestamp, real>, LoadError>)
    ensures file == [] ==> r == Failure(MissingHeader)
    ensures file != [] ==> r == Success(Collect(file[1..], PriceRow))
  {
    if |file| == 0 {
      return Failure(MissingHeader);
    }
    var data: map<Timestamp, real> := map[];
    for i := 1 to |file|
      invariant data == Collect(file[1..i], PriceRow)
    {
      var row := file[i];
      ghost var before := data;
      if |row| >= 1 {
        var stamp := ParsePriceStamp(row[0]);
        if stamp.Some? && |row| >= 4 {
          var price := ParseFinnishFloat(row[3]);
          if price.Some? {
            data := data[stamp.value := price.value];
          }
        }
      }
      assert data == Store(before, PriceRow(row));
      CollectNext(file, i, PriceRow);
    }
    assert file[1..|file|] == file[1..];
    return Success(data);
  }

  // ---------------------------------------------------------------------------------------
  // The consumption file: timestamp in column 0, day-rate kWh in column 1, night-rate in column 2.

  /** A value read under the timestamp `t`, or nothing. */
  function Under(t: Timestamp, v: Option<real>): Option<Reading> {
    match v
    case Some(x) => Some((t, x))
    case None => None
  }

  /**
   * The rate columns of a consumption row once its timestamp `t` is read: the day-rate
   * column if it is not blank, else the night-rate column if it is not blank, else skip.
   */
  function RateReading(row: Row, t: Timestamp): Option<Reading>
    requires |row| >= 3
  {
    var day := Strip(row[1]);
    var night := Strip(row[2]);
    Under(t, if day != [] then ParseFinnishFloat(day) else if night != [] then ParseFinnishFloat(night) else None)
  }

  /**
   * The body of the consumption loader's `try`: the timestamp, read against `strptime`'s
   * default year and moved to 2024, then the rate columns. Both rate columns are read
   * before the choice, so a row needs at least three cells.
   */
  function ConsumptionRow(row: Row): (r: Option<Reading>)
    ensures r.Some? ==> |row| >= 3 && ConsumptionStampAsWritten(row[0]) == Some(r.value.0)
    ensures r.Some? ==> r.value.0.year == ProcessingYear && ValidTimestamp(r.value.0) && !IsLeapDay(r.value.0)
  {
    if |row| < 3 then None
    else
      match ConsumptionStampAsWritten(row[0])
      case None => None
      case Some(t) => RateReading(row, t)
  }

  /** The same row read with its timestamp validated in 2024 itself, as evidently intended. */
  function IntendedConsumptionRow(row: Row): (r: Option<Reading>)
    ensures r.Some? ==> |row| >= 3 && ConsumptionStamp(row[0]) == Some(r.value.0)
    ensures r.Some? ==> r.value.0.year == ProcessingYear && ValidTimestamp(r.value.0)
  {
    if |row| < 3 then None
    else
      match ConsumptionStamp(row[0])
      case None => None
      case Some(t) => RateReading(row, t)
  }

  /** A row yields as written what it yields as intended, except a reading dated 29 February. */
  lemma ConsumptionRowDropsLeapDay(row: Row)
    ensures var r := IntendedConsumptionRow(row);
      ConsumptionRow(row) == if r.Some? && IsLeapDay(r.value.0) then None else r
  {
    if |row| >= 3 {
      AsWrittenDropsLeapDay(row[0]);
    }
  }

  /** A dictionary without its 29 February keys. */
  function WithoutLeapDays(m: map<Timestamp, real>): (w: map<Timestamp, real>)
    ensures forall k :: k in w <==> k in m && !IsLeapDay(k)
    ensures forall k :: k in w ==> w[k] == m[k]
  {
    map k | k in m && !IsLeapDay(k) :: m[k]
  }

  /**
   * The consumption dictionary as written is the intended one without its 29 February
   * keys: every other key keeps the value the intended reading gives it.
   */
  lemma {:induction false} CollectDropsLeapDays(rows: seq<Row>)
    ensures Collect(rows, ConsumptionRow) == WithoutLeapDays(Collect(rows, IntendedConsumptionRow))
    decreases |rows|
  {
    if rows != [] {
      var init := rows[..|rows| - 1];
      var row := rows[|rows| - 1];
      CollectDropsLeapDays(init);
      ConsumptionRowDropsLeapDay(row);
      StoreWithoutLeapDays(Collect(init, IntendedConsumptionRow), IntendedConsumptionRow(row));
    }
  }

  /** Storing a reading and then dropping 29 February is dropping it and storing any other reading. */
  lemma StoreWithoutLeapDays(m: map<Timestamp, real>, r: Option<Reading>)
    ensures WithoutLeapDays(Store(m, r)) == Store(WithoutLeapDays(m), if r.Some? && IsLeapDay(r.value.0) then None else r)
  {
    match r
    case None =>
    case Some((k, v)) =>
      if IsLeapDay(k) {
        assert WithoutLeapDays(m[k := v]) == WithoutLeapDays(m);
      } else {
        assert WithoutLeapDays(m[k := v]) == WithoutLeapDays(m)[k := v];
      }
  }

  /**
   * A non-blank day-rate column decides the reading: the night-rate column can hold
   * anything, and without an information separator the column reads as it stands.
   */
  lemma DayRateFirst(row: Row, night: string)
    requires |row| >= 3 && ConsumptionStampAsWritten(row[0]).Some? && Strip(row[1]) != []
    ensures ConsumptionRow(row[2 := night]) == ConsumptionRow(row)
    ensures ConsumptionRow(row) == Under(ConsumptionStampAsWritten(row[0]).value, ParseFinnishFloat(Strip(row[1])))
    ensures !HasSeparator(row[1]) ==> ConsumptionRow(row) == Under(ConsumptionStampAsWritten(row[0]).value, ParseFinnishFloat(row[1]))
  {
    ParseStripped(row[1]);
  }

  /** With the day-rate column blank, the night-rate column decides the reading. */
  lemma NightRateSecond(row: Row)
    requires |row| >= 3 && ConsumptionStampAsWritten(row[0]).Some?
    requires forall i :: 0 <= i < |row[1]| ==> IsSpace(row[1][i])
    ensures ConsumptionRow(row) == Under(ConsumptionStampAsWritten(row[0]).value, ParseFinnishFloat(Strip(row[2])))
    ensures !HasSeparator(row[2]) ==> ConsumptionRow(row) == Under(ConsumptionStampAsWritten(row[0]).value, ParseFinnishFloat(row[2]))
  {
    StripEmptyIffBlank(row[1]);
    ParseStripped(row[2]);
    ParseStripped(Strip(row[2]));
    StripIdempotent(row[2]);
  }

  /** A row whose two consumption columns are both blank is skipped. */
  lemma BothRatesBlank(row: Row)
    requires |row| >= 3
    requires forall i :: 0 <= i < |row[1]| ==> IsSpace(row[1][i])
    requires forall i :: 0 <= i < |row[2]| ==> IsSpace(row[2][i])
    ensures ConsumptionRow(row) == None && IntendedConsumptionRow(row) == None
  {
    StripEmptyIffBlank(row[1]);
    StripEmptyIffBlank(row[2]);
  }

  /** `read_consumption_csv`: skip the header, then keep the reading of every row that has one. */
  method ReadConsumption(file: seq<Row>) returns (r: Result<map<Timestamp, real>, LoadError>)
    ensures file == [] ==> r == Failure(MissingHeader)
    ensures file != [] ==> r == Success(Collect(file[1..], ConsumptionRow))
  {
    if |file| == 0 {
      return Failure(MissingHeader);
    }
    var data: map<Timestamp, real> := map[];
    for i := 1 to |file|
      invariant data == Collect(file[1..i], ConsumptionRow)
    {
      var row := file[i];
      ghost var before := data;
      if |row| >= 3 {
        var parsed := ParseDayMonthStamp(row[0], StrptimeDefaultYear);
        if parsed.Some? {
          var stamp := ReplaceYear(parsed.value, ProcessingYear);
          if stamp.Some? {
            var day := Strip(row[1]);
            var night := Strip(row[2]);
            var reading: Option<real> := None;
            if day != [] {
              reading := ParseFinnishFloat(day);
            } else if night != [] {
              reading := ParseFinnishFloat(night);
            }
            assert ConsumptionRow(row) == Under(stamp.value, reading);
            if reading.Some? {
              data := data[stamp.value := reading.value];
            }
          }
        }
      }
      assert data == Store(before, ConsumptionRow(row));
      CollectNext(file, i, ConsumptionRow);
    }
    assert file[1..|file|] == file[1..];
    return Success(data);
  }

  /** Every timestamp the consumption loader stores lies in 2024 and is not 29 February. */
  lemma ConsumptionKeysInYear(rows: seq<Row>, k: Timestamp)
    requires k in Collect(rows, ConsumptionRow)
    ensures k.year == ProcessingYear && ValidTimestamp(k) && !IsLeapDay(k)
  {
    CollectKeys(rows, ConsumptionRow, k);
  }
}
