/**
 * The dashboard's read side: the `weather` node fetched from the store, turned
 * into the table the charts draw from (its values, display column names, parsed
 * timestamps, newest first).
 */
module Dashboard {
  import opened Wrappers
  import opened DateTime
  import opened Backend

  /**
   * The `weather` node as `get()` returns it: push keys with the record pushed
   * under each, in the order the store lists them.
   */
  type Snapshot = seq<(string, WeatherRecord)>

  /** A data frame: column labels and rows. */
  datatype Table<T> = Table(columns: seq<string>, rows: seq<T>)

  /** A row once its `timestamp` column holds a parsed date and time. */
  datatype Reading = Reading(
    timestamp: Instant,
    tempForecast: real, tempActual: real,
    windForecast: real, windActual: real,
    tempMse: real, windMse: real)

  /**
   * `pd.to_datetime` raised: a timestamp does not match the format, or names an
   * instant outside the nanosecond timestamp range (`OutOfBoundsDatetime`).
   */
  datatype LoadError = UnparsableTimestamp(text: string) | OutOfBoundsTimestamp(text: string)

  // ---------------------------------------------------------------------------
  // list(data.values())

  /** The records of a snapshot, in its order, keys dropped. */
  function Values(data: Snapshot): (rs: seq<WeatherRecord>)
    ensures |rs| == |data|
    ensures forall i :: 0 <= i < |data| ==> rs[i] == data[i].1
  {
    if data == [] then [] else [data[0].1] + Values(data[1..])
  }

  /** `pd.DataFrame(records)`: one column per record key, one row per record. */
  function FromRecords(data: Snapshot): (t: Table<WeatherRecord>)
    ensures t.columns == RecordFields
    ensures |t.rows| == |data|
    ensures forall i :: 0 <= i < |data| ==> t.rows[i] == data[i].1
  {
    Table(RecordFields, Values(data))
  }

  /** The frame's columns are exactly the keys each of its records holds a value under. */
  lemma ColumnsAreRecordKeys(data: Snapshot, i: nat, key: string)
    requires i < |data|
    ensures FieldNamed(FromRecords(data).rows[i], key).Some? <==> key in FromRecords(data).columns
  {
    RecordKeys(data[i].1, key);
  }

  // ---------------------------------------------------------------------------
  // df.rename(columns=...)

  /** The display name of a column; columns the rename does not list keep their name. */
  function DisplayName(column: string): string {
    if column == "temp_actual" then "Actual Temp (°C)"
    else if column == "temp_forecast" then "Forecast Temp (°C)"
    else if column == "temp_mse" then "Temp MSE"
    else if column == "wind_actual" then "Actual Wind (km/h)"
    else if column == "wind_forecast" then "Forecast Wind (km/h)"
    else if column == "wind_mse" then "Wind MSE"
    else column
  }

  /** The six numeric columns of a record, the ones the rename lists. */
  function NumericFields(): seq<string> {
    RecordFields[1..]
  }

  /**
   * The rename touches exactly the six numeric columns: any other name (such as
   * `timestamp`) is kept, and a numeric column's new name is none of the record keys.
   */
  lemma RenameTouchesOnlyNumericFields(column: string)
    ensures column !in NumericFields() ==> DisplayName(column) == column
    ensures column in NumericFields() ==> DisplayName(column) !in RecordFields
  {
    assert NumericFields() == ["temp_forecast", "temp_actual", "wind_forecast", "wind_actual", "temp_mse", "wind_mse"];
  }

  /** Each label mapped to its display name, in place. */
  function RenameAll(columns: seq<string>): (r: seq<string>)
    ensures |r| == |columns|
    ensures forall i :: 0 <= i < |columns| ==> r[i] == DisplayName(columns[i])
  {
    seq(|columns|, i requires 0 <= i < |columns| => DisplayName(columns[i]))
  }

  /** `df.rename(columns=...)`: relabels the columns and leaves every row as it was. */
  function RenameColumns<T>(t: Table<T>): (r: Table<T>)
    ensures r.rows == t.rows
    ensures |r.columns| == |t.columns|
    ensures forall i :: 0 <= i < |t.columns| ==> r.columns[i] == DisplayName(t.columns[i])
  {
    Table(RenameAll(t.columns), t.rows)
  }

  /** The columns of a loaded frame. */
  function DisplayColumns(): seq<string> {
    ["timestamp", "Forecast Temp (°C)", "Actual Temp (°C)", "Forecast Wind (km/h)",
     "Actual Wind (km/h)", "Temp MSE", "Wind MSE"]
  }

  /** Renaming the record keys gives the display columns: seven labels, no two alike. */
  lemma RenamedRecordColumns()
    ensures RenameAll(RecordFields) == DisplayColumns()
    ensures forall i, j :: 0 <= i < j < |RecordFields| ==> DisplayName(RecordFields[i]) != DisplayName(RecordFields[j])
  {
    var r := RenameAll(RecordFields);
    assert r[0] == DisplayName("timestamp");
    assert r[1] == DisplayName("temp_forecast");
    assert r[2] == DisplayName("temp_actual");
    assert r[3] == DisplayName("wind_forecast");
    assert r[4] == DisplayName("wind_actual");
    assert r[5] == DisplayName("temp_mse");
    assert r[6] == DisplayName("wind_mse");
    assert forall i, j :: 0 <= i < j < |DisplayColumns()| ==> DisplayColumns()[i] != DisplayColumns()[j];
  }

  // ---------------------------------------------------------------------------
  // pd.to_datetime(df['timestamp'], format="%Y-%m-%d %H:%M:%S")

  /** The dashboard's `format=` argument: the layout the backend writes. */
  const ParseFormat: seq<Directive> := TimestampFormat()

  /**
   * The span of pandas' nanosecond timestamps (1677-09-21 00:12:43.145224193 to
   * 2262-04-11 23:47:16.854775807), here for instants whole to the second.
   */
  const EarliestTimestamp: Instant := Instant(1677, 9, 21, 0, 12, 44, 0)
  const LatestTimestamp: Instant := Instant(2262, 4, 11, 23, 47, 16, 0)

  /** An instant a nanosecond timestamp can hold: every year from 1678 to 2261, and parts of 1677 and 2262. */
  predicate InTimestampRange(t: Instant)
    ensures InTimestampRange(t) ==> 1677 <= t.year <= 2262
    ensures 1678 <= t.year <= 2261 ==> InTimestampRange(t)
  {
    AtOrBefore(EarliestTimestamp, t) && AtOrBefore(t, LatestTimestamp)
  }

  /** The range ends on whole seconds: 00:12:43 on its first day is out, 00:12:44 in; 23:47:16 on its last day is in, 23:47:17 out. */
  lemma TimestampRangeEnds()
    ensures !InTimestampRange(Instant(1677, 9, 21, 0, 12, 43, 0))
    ensures InTimestampRange(Instant(1677, 9, 21, 0, 12, 44, 0))
    ensures InTimestampRange(Instant(2262, 4, 11, 23, 47, 16, 0))
    ensures !InTimestampRange(Instant(2262, 4, 11, 23, 47, 17, 0))
  {
  }

  /** A timestamp that matches the format. */
  predicate Matches(text: string) {
    Strptime(text, ParseFormat).Some?
  }

  /** A timestamp the conversion accepts: it matches and its instant is in range. */
  predicate Parses(text: string) {
    Matches(text) && InTimestampRange(Strptime(text, ParseFormat).value)
  }

  /** A row whose timestamp came out of the parse: a valid instant to the second, in range. */
  predicate Parsed(row: Reading) {
    Valid(row.timestamp) && row.timestamp.microsecond == 0 && InTimestampRange(row.timestamp)
  }

  /**
   * One row's timestamp parsed; the numeric columns carried over. A text that
   * does not match fails as unparsable, one whose instant is out of range as
   * out of bounds.
   */
  function ParseRecord(rec: WeatherRecord): (p: Result<Reading, LoadError>)
    ensures p.Success? <==> Parses(rec.timestamp)
    ensures p.Failure? ==> p.error.text == rec.timestamp
    ensures p.Failure? ==> (p.error.OutOfBoundsTimestamp? <==> Matches(rec.timestamp))
    ensures p.Success? ==>
      && Valid(p.value.timestamp) && p.value.timestamp.microsecond == 0
      && InTimestampRange(p.value.timestamp)
      && Strftime(p.value.timestamp, TimestampFormat()) == rec.timestamp
    ensures p.Success? ==>
      && p.value.tempForecast == rec.tempForecast && p.value.tempActual == rec.tempActual
      && p.value.windForecast == rec.windForecast && p.value.windActual == rec.windActual
      && p.value.tempMse == rec.tempMse && p.value.windMse == rec.windMse
  {
    match Strptime(rec.timestamp, ParseFormat)
    case None => Failure(UnparsableTimestamp(rec.timestamp))
    case Some(t) =>
      if !InTimestampRange(t) then Failure(OutOfBoundsTimestamp(rec.timestamp))
      else
        TimestampParseIsExact(rec.timestamp);
        Success(Reading(t, rec.tempForecast, rec.tempActual, rec.windForecast, rec.windActual,
                        rec.tempMse, rec.windMse))
  }

  /**
   * `f` applied to every element, in order, stopping at the first failure:
   * a vectorised conversion that raises on the first bad element.
   */
  function MapOrFail<A, B, E>(f: A -> Result<B, E>, xs: seq<A>): (r: Result<seq<B>, E>)
    ensures r.Success? <==> forall i :: 0 <= i < |xs| ==> f(xs[i]).Success?
    ensures r.Success? ==> |r.value| == |xs| && forall i :: 0 <= i < |xs| ==> f(xs[i]) == Success(r.value[i])
  {
    if xs == [] then Success([])
    else
      match f(xs[0])
      case Failure(e) => Failure(e)
      case Success(y) =>
        match MapOrFail(f, xs[1..])
        case Failure(e) => Failure(e)
        case Success(ys) => Success([y] + ys)
  }

  /** A failed map reports the failure of one of the elements. */
  lemma {:induction false} MapOrFailReportsAnElement<A, B, E>(f: A -> Result<B, E>, xs: seq<A>)
    requires MapOrFail(f, xs).Failure?
    ensures exists i :: 0 <= i < |xs| && f(xs[i]) == Failure(MapOrFail(f, xs).error)
  {
    if f(xs[0]).Success? {
      MapOrFailReportsAnElement(f, xs[1..]);
      var i :| 0 <= i < |xs[1..]| && f(xs[1..][i]) == Failure(MapOrFail(f, xs[1..]).error);
      assert xs[i + 1] == xs[1..][i];
    }
  }

  /**
   * `pd.to_datetime` on the column: every row parsed, in order, or a timestamp
   * that is not accepted (it does not match the format, or its instant is
   * outside the nanosecond timestamp range).
   */
  function ParseTimestamps(rs: seq<WeatherRecord>): (p: Result<seq<Reading>, LoadError>)
    ensures p.Success? <==> forall i :: 0 <= i < |rs| ==> Parses(rs[i].timestamp)
    ensures p.Success? ==> |p.value| == |rs|
    ensures p.Success? ==> forall i :: 0 <= i < |rs| ==> ParseRecord(rs[i]) == Success(p.value[i])
    ensures p.Failure? ==> !Parses(p.error.text)
  {
    var p := MapOrFail(ParseRecord, rs);
    if p.Failure? then MapOrFailReportsAnElement(ParseRecord, rs); p else p
  }

  /** `df['timestamp'] = ...`: the same columns, each row with its timestamp parsed. */
  function ParseColumn(t: Table<WeatherRecord>): (r: Result<Table<Reading>, LoadError>)
    ensures r.Success? <==> forall i :: 0 <= i < |t.rows| ==> Parses(t.rows[i].timestamp)
    ensures r.Success? ==> r.value.columns == t.columns && |r.value.rows| == |t.rows|
    ensures r.Success? ==> forall i :: 0 <= i < |t.rows| ==> ParseRecord(t.rows[i]) == Success(r.value.rows[i])
  {
    match ParseTimestamps(t.rows)
    case Failure(e) => Failure(e)
    case Success(rows) => Success(Table(t.columns, rows))
  }

  // ---------------------------------------------------------------------------
  // df.sort_values("timestamp", ascending=False)

  /** Newest first: no row is earlier than a row after it. */
  predicate Descending(rs: seq<Reading>) {
    forall i, j :: 0 <= i < j < |rs| ==> AtOrBefore(rs[j].timestamp, rs[i].timestamp)
  }

  /** `x` placed into rows already newest first. */
  function Insert(x: Reading, rs: seq<Reading>): (r: seq<Reading>)
    requires Descending(rs)
    ensures Descending(r)
    ensures multiset(r) == multiset(rs) + multiset{x}
    ensures forall k :: 0 <= k < |r| ==> r[k] == x || r[k] in rs
  {
    if rs == [] then [x]
    else if AtOrBefore(rs[0].timestamp, x.timestamp) then
      assert forall k :: 0 <= k < |rs| ==> AtOrBefore(rs[k].timestamp, rs[0].timestamp);
      [x] + rs
    else
      var tail := Insert(x, rs[1..]);
      assert rs == [rs[0]] + rs[1..];
      assert forall k :: 0 <= k < |tail| ==> AtOrBefore(tail[k].timestamp, rs[0].timestamp) by {
        forall k | 0 <= k < |tail| ensures AtOrBefore(tail[k].timestamp, rs[0].timestamp) {
          AtOrBeforeIsTotalOrder(x.timestamp, rs[0].timestamp, rs[0].timestamp);
        }
      }
      [rs[0]] + tail
  }

  /** The rows reordered newest first. */
  function SortDescending(rs: seq<Reading>): (r: seq<Reading>)
    ensures Descending(r)
    ensures multiset(r) == multiset(rs)
    ensures |r| == |rs|
    ensures forall k :: 0 <= k < |r| ==> r[k] in rs
  {
    if rs == [] then []
    else
      assert rs == [rs[0]] + rs[1..];
      Insert(rs[0], SortDescending(rs[1..]))
  }

  /** `sort_values("timestamp", ascending=False)` on a frame: same columns, rows newest first. */
  function SortByTimestamp(t: Table<Reading>): (r: Table<Reading>)
    ensures r.columns == t.columns
    ensures Descending(r.rows) && multiset(r.rows) == multiset(t.rows)
    ensures forall k :: 0 <= k < |r.rows| ==> r.rows[k] in t.rows
  {
    Table(t.columns, SortDescending(t.rows))
  }

  // ---------------------------------------------------------------------------
  // The whole step

  /**
   * The `if data:` branch: the values, renamed, with parsed timestamps, newest
   * first, or `Failure` naming a timestamp `to_datetime` rejects.
   */
  function LoadRecords(data: Snapshot): (r: Result<Table<Reading>, LoadError>)
    ensures r.Success? <==> forall i :: 0 <= i < |data| ==> Parses(data[i].1.timestamp)
    ensures r.Failure? ==> !Parses(r.error.text) && r == Failure(ParseTimestamps(Values(data)).error)
    ensures r.Success? ==>
      && r.value.columns == RenameAll(RecordFields)
      && ParseTimestamps(Values(data)).Success?
      && Descending(r.value.rows)
      && multiset(r.value.rows) == multiset(ParseTimestamps(Values(data)).value)
      && (forall k :: 0 <= k < |r.value.rows| ==> r.value.rows[k] in ParseTimestamps(Values(data)).value)
      && forall k :: 0 <= k < |r.value.rows| ==> Parsed(r.value.rows[k])
  {
    var t := RenameColumns(FromRecords(data));
    assert t.rows == Values(data);
    match ParseColumn(t)
    case Failure(e) => Failure(e)
    case Success(parsed) =>
      assert forall i :: 0 <= i < |parsed.rows| ==> Parsed(parsed.rows[i]) by {
        forall i | 0 <= i < |parsed.rows| ensures Parsed(parsed.rows[i]) {
          assert ParseRecord(t.rows[i]) == Success(parsed.rows[i]);
        }
      }
      Success(SortByTimestamp(parsed))
  }

  /**
   * The dashboard's `df`: an empty frame when the node is absent or empty,
   * otherwise what `LoadRecords` builds.
   */
  function LoadFrame(data: Option<Snapshot>): (r: Result<Table<Reading>, LoadError>)
    ensures data.None? || data.value == [] ==> r == Success(Table([], []))
    ensures r.Success? ==> Descending(r.value.rows)
    ensures r.Success? ==> forall k :: 0 <= k < |r.value.rows| ==> Parsed(r.value.rows[k])
  {
    if data.None? || data.value == [] then Success(Table([], []))
    else
      LoadRecords(data.value)
  }

  /** The frame is empty exactly when the node is absent or empty. */
  lemma EmptyExactly(data: Option<Snapshot>)
    requires LoadFrame(data).Success?
    ensures LoadFrame(data).value.rows == [] <==> data.None? || data.value == []
    ensures LoadFrame(data).value.columns == [] <==> data.None? || data.value == []
  {
    if data.Some? && data.value != [] {
      RenamedRecordColumns();
      var parsed := ParseTimestamps(Values(data.value)).value;
      assert parsed[0] in multiset(parsed);
    }
  }

  /** Loading fails exactly when some record's timestamp does not parse, and names one of those. */
  lemma FailsExactly(data: Snapshot)
    ensures LoadFrame(Some(data)).Failure? <==> exists i :: 0 <= i < |data| && !Parses(data[i].1.timestamp)
    ensures LoadFrame(Some(data)).Failure? ==>
      && !Parses(LoadFrame(Some(data)).error.text)
      && exists i :: 0 <= i < |data| && data[i].1.timestamp == LoadFrame(Some(data)).error.text
  {
    if LoadFrame(Some(data)).Failure? {
      MapOrFailReportsAnElement(ParseRecord, Values(data));
    }
  }

  /**
   * A loaded frame has the display columns and one row per record: its rows are
   * the parsed records, reordered, keys dropped.
   */
  lemma LoadedRowsArePermutation(data: Snapshot)
    requires data != [] && LoadFrame(Some(data)).Success?
    ensures var f := LoadFrame(Some(data)).value;
      && f.columns == DisplayColumns()
      && |f.rows| == |data|
      && ParseTimestamps(Values(data)).Success?
      && multiset(f.rows) == multiset(ParseTimestamps(Values(data)).value)
  {
    RenamedRecordColumns();
    var f := LoadRecords(data).value;
    var parsed := ParseTimestamps(Values(data)).value;
    assert |f.rows| == |parsed| by {
      assert |multiset(f.rows)| == |multiset(parsed)|;
    }
  }

  /** Every record of the node becomes a row of the frame. */
  lemma EveryRecordIsLoaded(data: Snapshot, i: nat)
    requires LoadFrame(Some(data)).Success? && i < |data|
    ensures var f := LoadFrame(Some(data)).value;
      exists k :: 0 <= k < |f.rows| && ParseRecord(data[i].1) == Success(f.rows[k])
  {
    var f := LoadRecords(data).value;
    var parsed := ParseTimestamps(Values(data)).value;
    assert ParseRecord(Values(data)[i]) == Success(parsed[i]);
    assert parsed[i] in multiset(f.rows);
    var k :| 0 <= k < |f.rows| && f.rows[k] == parsed[i];
  }

  /** Every row of the frame is a record of the node, parsed. */
  lemma EveryRowIsARecord(data: Snapshot, k: nat)
    requires LoadFrame(Some(data)).Success? && k < |LoadFrame(Some(data)).value.rows|
    ensures exists i :: 0 <= i < |data| && ParseRecord(data[i].1) == Success(LoadFrame(Some(data)).value.rows[k])
  {
    var f := LoadRecords(data).value;
    var parsed := ParseTimestamps(Values(data)).value;
    var i :| 0 <= i < |parsed| && parsed[i] == f.rows[k];
    assert ParseRecord(Values(data)[i]) == Success(parsed[i]);
  }

  // ---------------------------------------------------------------------------
  // Reading what the backend wrote

  /**
   * A record the backend stores loads back exactly when its sampling instant,
   * to the second, lies in the timestamp range; it then carries that instant
   * and its numbers, and otherwise the conversion is out of bounds.
   */
  lemma StoredRecordParses(forecast: Response<ForecastPayload>, current: Response<CurrentPayload>,
                           now: Instant, pushAccepted: bool)
    requires Valid(now) && FetchAndStore(forecast, current, now, pushAccepted).Stored?
    ensures var rec := FetchAndStore(forecast, current, now, pushAccepted).record;
      ParseRecord(rec).Success? <==> InTimestampRange(now.(microsecond := 0))
    ensures var rec := FetchAndStore(forecast, current, now, pushAccepted).record;
      InTimestampRange(now.(microsecond := 0)) ==>
        ParseRecord(rec) ==
          Success(Reading(now.(microsecond := 0), rec.tempForecast, rec.tempActual,
                          rec.windForecast, rec.windActual, rec.tempMse, rec.windMse))
    ensures var rec := FetchAndStore(forecast, current, now, pushAccepted).record;
      !InTimestampRange(now.(microsecond := 0)) ==>
        ParseRecord(rec) == Failure(OutOfBoundsTimestamp(rec.timestamp))
  {
    TimestampRoundTrip(now);
  }

  /**
   * A node holding only records the backend stored loads exactly when every
   * sampling instant, to the second, lies in the timestamp range.
   */
  lemma StoredRecordsLoad(data: Snapshot, instants: seq<Instant>)
    requires |instants| == |data|
    requires forall i :: 0 <= i < |data| ==> Valid(instants[i]) && data[i].1.timestamp == SampleTimestamp(instants[i])
    ensures LoadFrame(Some(data)).Success? <==>
              forall i :: 0 <= i < |data| ==> InTimestampRange(instants[i].(microsecond := 0))
  {
    forall i | 0 <= i < |data|
      ensures Parses(data[i].1.timestamp) <==> InTimestampRange(instants[i].(microsecond := 0))
    {
      TimestampRoundTrip(instants[i]);
    }
    FailsExactly(data);
  }

  /** Each row of such a node's frame holds one of the sampling instants, to the second. */
  lemma StoredRowsKeepInstants(data: Snapshot, instants: seq<Instant>, k: nat)
    requires |instants| == |data|
    requires forall i :: 0 <= i < |data| ==> Valid(instants[i]) && data[i].1.timestamp == SampleTimestamp(instants[i])
    requires LoadFrame(Some(data)).Success? && k < |LoadFrame(Some(data)).value.rows|
    ensures exists i :: 0 <= i < |data| && LoadFrame(Some(data)).value.rows[k].timestamp == instants[i].(microsecond := 0)
  {
    EveryRowIsARecord(data, k);
    var row := LoadFrame(Some(data)).value.rows[k];
    var i :| 0 <= i < |data| && ParseRecord(data[i].1) == Success(row);
    TimestampRoundTrip(instants[i]);
  }

  /**
   * Newest first by instant is newest first by timestamp text: the rendered
   * timestamps of the rows descend as strings.
   */
  lemma DescendingAsText(data: Option<Snapshot>)
    requires LoadFrame(data).Success?
    ensures var rows := LoadFrame(data).value.rows;
      forall i, j :: 0 <= i < j < |rows| ==>
        LexLe(Strftime(rows[j].timestamp, TimestampFormat()), Strftime(rows[i].timestamp, TimestampFormat()))
  {
    var rows := LoadFrame(data).value.rows;
    forall i, j | 0 <= i < j < |rows|
      ensures LexLe(Strftime(rows[j].timestamp, TimestampFormat()), Strftime(rows[i].timestamp, TimestampFormat()))
    {
      TimestampOrderIsStringOrder(rows[j].timestamp, rows[i].timestamp);
    }
  }

  /** Each row's timestamp renders back as the text stored in the record it came from. */
  lemma RowRendersAsStored(data: Snapshot, k: nat)
    requires LoadFrame(Some(data)).Success? && k < |LoadFrame(Some(data)).value.rows|
    ensures exists i :: (0 <= i < |data|
      && Strftime(LoadFrame(Some(data)).value.rows[k].timestamp, TimestampFormat()) == data[i].1.timestamp)
  {
    EveryRowIsARecord(data, k);
  }
}
