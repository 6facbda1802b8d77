/**
 * One sampling cycle of the weather logger (`fetch_and_store`): given the two
 * HTTP responses, the sampling instant and whether the store accepted the
 * push, decide whether the cycle is skipped, fails, or stores one record.
 */
module Backend {
  import opened Wrappers
  import opened DateTime

  /** The HTTP status the cycle accepts. */
  const StatusOk := 200

  /** A JSON array element or object value the cycle reads: a number or `null`. */
  datatype Scalar = Null | Number(value: real)

  /** `forecast_json['hourly']`: parallel arrays, any of which may be missing. */
  datatype HourlySeries = HourlySeries(
    time: Option<seq<string>>,              // 'time'
    temperature: Option<seq<Scalar>>,       // 'temperature_2m'
    windSpeed: Option<seq<Scalar>>)         // 'wind_speed_10m'

  datatype ForecastPayload = ForecastPayload(hourly: Option<HourlySeries>)

  /** `current_json['current']`. */
  datatype CurrentValues = CurrentValues(
    temperature: Option<Scalar>,            // 'temperature_2m'
    windSpeed: Option<Scalar>)              // 'wind_speed_10m'

  datatype CurrentPayload = CurrentPayload(current: Option<CurrentValues>)

  /** An HTTP response: its status code and its decoded JSON body. */
  datatype Response<T> = Response(status: int, payload: T)

  /** The record pushed to the `weather` path of the store. */
  datatype WeatherRecord = WeatherRecord(
    timestamp: string,
    tempForecast: real, tempActual: real,
    windForecast: real, windActual: real,
    tempMse: real, windMse: real)

  /** The keys of a pushed record, in the order the cycle writes them. */
  const RecordFields: seq<string> :=
    ["timestamp", "temp_forecast", "temp_actual", "wind_forecast", "wind_actual", "temp_mse", "wind_mse"]

  /** Why a cycle ended early without trying to store anything. */
  datatype SkipReason =
    | ForecastUnavailable(status: int)
    | CurrentUnavailable(status: int)
    | BucketNotFound(bucket: string)

  /** The exception a cycle caught before or while storing. */
  datatype Failure =
    | MissingKey(key: string)                 // KeyError
    | IndexOutOfRange(key: string, index: nat) // IndexError
    | NullOperand(field: string)              // TypeError: null in a subtraction
    | PushRejected                            // the store raised

  datatype Outcome = Skipped(reason: SkipReason) | Failed(error: Failure) | Stored(record: WeatherRecord)

  /** The record's `timestamp`: the sampling instant to the second. */
  function SampleTimestamp(now: Instant): (s: string)
    requires Valid(now)
    ensures |s| == 19
  {
    Strftime(now, TimestampFormat())
  }

  /** The forecast's hour bucket for the sampling instant. */
  function HourBucket(now: Instant): (s: string)
    requires Valid(now)
    ensures |s| == 16
  {
    Strftime(TruncateToHour(now), BucketFormat())
  }

  /** `xs.index(x)`: the position of the first occurrence. */
  function FirstIndex<T(==)>(xs: seq<T>, x: T): (i: nat)
    requires x in xs
    ensures i < |xs| && xs[i] == x
    ensures forall j :: 0 <= j < i ==> xs[j] != x
  {
    if xs[0] == x then 0 else 1 + FirstIndex(xs[1..], x)
  }

  /**
   * `(actual - forecast) ** 2`: never negative, zero for a perfect forecast,
   * and the same with actual and forecast swapped.
   */
  function SquaredError(actual: real, forecast: real): (e: real)
    ensures e >= 0.0
    ensures actual == forecast ==> e == 0.0
    ensures e == (forecast - actual) * (forecast - actual)
  {
    (actual - forecast) * (actual - forecast)
  }

  /** `payload[key][i]` for an array that may be missing or too short. */
  function Element(arr: Option<seq<Scalar>>, key: string, i: nat): (r: Result<Scalar, Failure>)
    ensures r.Success? <==> arr.Some? && i < |arr.value|
    ensures r.Success? ==> r.value == arr.value[i]
    ensures arr.None? ==> r == Failure(MissingKey(key))
    ensures arr.Some? && i >= |arr.value| ==> r == Failure(IndexOutOfRange(key, i))
  {
    match arr
    case None => Failure(MissingKey(key))
    case Some(a) => if i < |a| then Success(a[i]) else Failure(IndexOutOfRange(key, i))
  }

  /** `payload[key]` for an object value that may be missing. */
  function Field(v: Option<Scalar>, key: string): (r: Result<Scalar, Failure>)
    ensures r.Success? <==> v.Some?
    ensures r.Success? ==> r.value == v.value
  {
    match v
    case None => Failure(MissingKey(key))
    case Some(x) => Success(x)
  }

  /** `(actual - forecast) ** 2` on JSON values: `null` raises. */
  function ErrorOf(actual: Scalar, forecast: Scalar, field: string): (r: Result<real, Failure>)
    ensures r.Success? <==> actual.Number? && forecast.Number?
    ensures r.Success? ==> r.value == SquaredError(actual.value, forecast.value)
  {
    if actual.Number? && forecast.Number? then Success(SquaredError(actual.value, forecast.value))
    else Failure(NullOperand(field))
  }

  /** The part of the cycle inside `try`, after the bucket was found at `i`. */
  function BuildRecord(hourly: HourlySeries, current: CurrentPayload, i: nat, timestamp: string)
    : (r: Result<WeatherRecord, Failure>)
    ensures r.Success? <==>
      && hourly.temperature.Some? && i < |hourly.temperature.value| && hourly.temperature.value[i].Number?
      && hourly.windSpeed.Some? && i < |hourly.windSpeed.value| && hourly.windSpeed.value[i].Number?
      && current.current.Some?
      && current.current.value.temperature.Some? && current.current.value.temperature.value.Number?
      && current.current.value.windSpeed.Some? && current.current.value.windSpeed.value.Number?
    ensures r.Success? ==>
      && r.value.timestamp == timestamp
      && r.value.tempForecast == hourly.temperature.value[i].value
      && r.value.windForecast == hourly.windSpeed.value[i].value
      && r.value.tempActual == current.current.value.temperature.value.value
      && r.value.windActual == current.current.value.windSpeed.value.value
      && r.value.tempMse == SquaredError(r.value.tempActual, r.value.tempForecast)
      && r.value.windMse == SquaredError(r.value.windActual, r.value.windForecast)
  {
    match Element(hourly.temperature, "temperature_2m", i)
    case Failure(e) => Failure(e)
    case Success(tf) =>
      match Element(hourly.windSpeed, "wind_speed_10m", i)
      case Failure(e) => Failure(e)
      case Success(wf) =>
        match current.current
        case None => Failure(MissingKey("current"))
        case Some(cur) =>
          match Field(cur.temperature, "temperature_2m")
          case Failure(e) => Failure(e)
          case Success(ta) =>
            match Field(cur.windSpeed, "wind_speed_10m")
            case Failure(e) => Failure(e)
            case Success(wa) =>
              match ErrorOf(ta, tf, "temp_mse")
              case Failure(e) => Failure(e)
              case Success(tm) =>
                match ErrorOf(wa, wf, "wind_mse")
                case Failure(e) => Failure(e)
                case Success(wm) =>
                  Success(WeatherRecord(timestamp, tf.value, ta.value, wf.value, wa.value, tm, wm))
  }

  /**
   * `fetch_and_store` with its inputs made explicit: the two responses, the
   * clock reading `now`, and whether `push` returned without raising.
   */
  function FetchAndStore(forecast: Response<ForecastPayload>, current: Response<CurrentPayload>,
                         now: Instant, pushAccepted: bool): (r: Outcome)
    requires Valid(now)
    ensures forecast.status != StatusOk ==> r == Skipped(ForecastUnavailable(forecast.status))
    ensures forecast.status == StatusOk && current.status != StatusOk ==>
              r == Skipped(CurrentUnavailable(current.status))
    ensures r.Stored? ==> pushAccepted && r.record.timestamp == SampleTimestamp(now)
    ensures r.Stored? ==> r.record.tempMse == SquaredError(r.record.tempActual, r.record.tempForecast)
    ensures r.Stored? ==> r.record.windMse == SquaredError(r.record.windActual, r.record.windForecast)
  {
    if forecast.status != StatusOk then Skipped(ForecastUnavailable(forecast.status))
    else if current.status != StatusOk then Skipped(CurrentUnavailable(current.status))
    else
      var timestamp := SampleTimestamp(now);
      var bucket := HourBucket(now);
      match forecast.payload.hourly
      case None => Failed(MissingKey("hourly"))
      case Some(hourly) =>
        match hourly.time
        case None => Failed(MissingKey("time"))
        case Some(times) =>
          if bucket !in times then Skipped(BucketNotFound(bucket))
          else
            match BuildRecord(hourly, current.payload, FirstIndex(times, bucket), timestamp)
            case Failure(e) => Failed(e)
            case Success(record) => if pushAccepted then Stored(record) else Failed(PushRejected)
  }

  // ---------------------------------------------------------------------------
  // Properties of one cycle

  /** Both responses succeeded and the forecast lists its hour buckets. */
  predicate Fetched(forecast: Response<ForecastPayload>, current: Response<CurrentPayload>) {
    && forecast.status == StatusOk && current.status == StatusOk
    && forecast.payload.hourly.Some? && forecast.payload.hourly.value.time.Some?
  }

  /**
   * The cycle is skipped exactly when a response failed or the hour bucket is
   * not listed; a listed bucket is never skipped, whatever else is wrong.
   */
  lemma SkippedExactly(forecast: Response<ForecastPayload>, current: Response<CurrentPayload>,
                       now: Instant, pushAccepted: bool)
    requires Valid(now)
    ensures FetchAndStore(forecast, current, now, pushAccepted).Skipped? <==>
              || forecast.status != StatusOk
              || current.status != StatusOk
              || (Fetched(forecast, current) && HourBucket(now) !in forecast.payload.hourly.value.time.value)
    ensures Fetched(forecast, current) && HourBucket(now) !in forecast.payload.hourly.value.time.value ==>
              FetchAndStore(forecast, current, now, pushAccepted) == Skipped(BucketNotFound(HourBucket(now)))
  {
  }

  /**
   * A record is stored exactly when the bucket is listed, both forecast arrays
   * reach its first index with numbers there, both current values are numbers
   * and the push succeeds; the record then holds those values.
   */
  lemma StoredExactly(forecast: Response<ForecastPayload>, current: Response<CurrentPayload>,
                      now: Instant, pushAccepted: bool)
    requires Valid(now)
    ensures var r := FetchAndStore(forecast, current, now, pushAccepted);
      r.Stored? <==>
        && Fetched(forecast, current)
        && var hourly := forecast.payload.hourly.value;
           var times := hourly.time.value;
           && HourBucket(now) in times
           && var i := FirstIndex(times, HourBucket(now));
              && hourly.temperature.Some? && i < |hourly.temperature.value| && hourly.temperature.value[i].Number?
              && hourly.windSpeed.Some? && i < |hourly.windSpeed.value| && hourly.windSpeed.value[i].Number?
              && current.payload.current.Some?
              && current.payload.current.value.temperature.Some?
              && current.payload.current.value.temperature.value.Number?
              && current.payload.current.value.windSpeed.Some?
              && current.payload.current.value.windSpeed.value.Number?
              && pushAccepted
    ensures var r := FetchAndStore(forecast, current, now, pushAccepted);
      r.Stored? ==>
        var hourly := forecast.payload.hourly.value;
        var i := FirstIndex(hourly.time.value, HourBucket(now));
        var cur := current.payload.current.value;
        && hourly.time.value[i] == HourBucket(now)
        && r.record.tempForecast == hourly.temperature.value[i].value
        && r.record.windForecast == hourly.windSpeed.value[i].value
        && r.record.tempActual == cur.temperature.value.value
        && r.record.windActual == cur.windSpeed.value.value
  {
  }

  /** With the bucket listed, a forecast array too short for its index makes the cycle fail. */
  lemma ShortForecastFails(forecast: Response<ForecastPayload>, current: Response<CurrentPayload>,
                           now: Instant, pushAccepted: bool)
    requires Valid(now) && Fetched(forecast, current)
    requires HourBucket(now) in forecast.payload.hourly.value.time.value
    requires var hourly := forecast.payload.hourly.value;
             var i := FirstIndex(hourly.time.value, HourBucket(now));
             || (hourly.temperature.Some? && i >= |hourly.temperature.value|)
             || (hourly.windSpeed.Some? && i >= |hourly.windSpeed.value|)
    ensures FetchAndStore(forecast, current, now, pushAccepted).Failed?
  {
  }

  /** A value of the pushed dictionary: the timestamp text or a number. */
  datatype FieldValue = Text(text: string) | Real(number: real)

  /** `record[key]` on the pushed dictionary; None for a key it does not have. Only `timestamp` holds text. */
  function FieldNamed(rec: WeatherRecord, key: string): (v: Option<FieldValue>)
    ensures v.Some? ==> (v.value.Text? <==> key == "timestamp")
  {
    if key == "timestamp" then Some(Text(rec.timestamp))
    else if key == "temp_forecast" then Some(Real(rec.tempForecast))
    else if key == "temp_actual" then Some(Real(rec.tempActual))
    else if key == "wind_forecast" then Some(Real(rec.windForecast))
    else if key == "wind_actual" then Some(Real(rec.windActual))
    else if key == "temp_mse" then Some(Real(rec.tempMse))
    else if key == "wind_mse" then Some(Real(rec.windMse))
    else None
  }

  /** The pushed dictionary has exactly the seven keys of `RecordFields`, no two alike. */
  lemma RecordKeys(rec: WeatherRecord, key: string)
    ensures FieldNamed(rec, key).Some? <==> key in RecordFields
    ensures |RecordFields| == 7
    ensures forall i, j :: 0 <= i < j < |RecordFields| ==> RecordFields[i] != RecordFields[j]
  {
  }

  /**
   * Each key of a stored record holds what the cycle read or computed for it:
   * the sampling timestamp, the forecast values at the bucket's first index,
   * the current values, and their squared errors.
   */
  lemma StoredRecordFields(forecast: Response<ForecastPayload>, current: Response<CurrentPayload>,
                           now: Instant, pushAccepted: bool)
    requires Valid(now)
    ensures var r := FetchAndStore(forecast, current, now, pushAccepted);
      r.Stored? ==>
        var hourly := forecast.payload.hourly.value;
        var i := FirstIndex(hourly.time.value, HourBucket(now));
        var cur := current.payload.current.value;
        var tf, wf := hourly.temperature.value[i].value, hourly.windSpeed.value[i].value;
        var ta, wa := cur.temperature.value.value, cur.windSpeed.value.value;
        && FieldNamed(r.record, "timestamp") == Some(Text(SampleTimestamp(now)))
        && FieldNamed(r.record, "temp_forecast") == Some(Real(tf))
        && FieldNamed(r.record, "temp_actual") == Some(Real(ta))
        && FieldNamed(r.record, "wind_forecast") == Some(Real(wf))
        && FieldNamed(r.record, "wind_actual") == Some(Real(wa))
        && FieldNamed(r.record, "temp_mse") == Some(Real(SquaredError(ta, tf)))
        && FieldNamed(r.record, "wind_mse") == Some(Real(SquaredError(wa, wf)))
  {
    StoredExactly(forecast, current, now, pushAccepted);
  }

  // ---------------------------------------------------------------------------
  // The bucket and the timestamp

  /** `"%Y-%m-%d"` spelled out. */
  lemma DateLayout(t: Instant)
    requires Valid(t)
    ensures Strftime(t, DateFormat()) == Pad4(t.year) + ("-" + (Pad2(t.month) + ("-" + Pad2(t.day))))
  {
    assert DateFormat() == [Year] + ([Lit('-')] + ([Month] + ([Lit('-')] + ([Day] + []))));
    StrftimeCons(t, Year, [Lit('-'), Month, Lit('-'), Day]);
    StrftimeCons(t, Lit('-'), [Month, Lit('-'), Day]);
    StrftimeCons(t, Month, [Lit('-'), Day]);
    StrftimeCons(t, Lit('-'), [Day]);
    StrftimeCons(t, Day, []);
    assert Pad2(t.day) + [] == Pad2(t.day);
  }

  /** `"%Y-%m-%d %H:%M:%S"` spelled out. */
  lemma TimestampLayout(t: Instant)
    requires Valid(t)
    ensures SampleTimestamp(t) ==
      Strftime(t, DateFormat()) + (" " + (Pad2(t.hour) + (":" + (Pad2(t.minute) + (":" + Pad2(t.second))))))
  {
    var tail := [Lit(' '), Hour, Lit(':'), Minute, Lit(':'), Second];
    StrftimeAppend(t, DateFormat(), tail);
    StrftimeCons(t, Lit(' '), [Hour, Lit(':'), Minute, Lit(':'), Second]);
    StrftimeCons(t, Hour, [Lit(':'), Minute, Lit(':'), Second]);
    StrftimeCons(t, Lit(':'), [Minute, Lit(':'), Second]);
    StrftimeCons(t, Minute, [Lit(':'), Second]);
    StrftimeCons(t, Lit(':'), [Second]);
    StrftimeCons(t, Second, []);
    assert Pad2(t.second) + [] == Pad2(t.second);
  }

  /** The `"T%H:00"` tail of the bucket format. */
  lemma BucketTail(h: Instant)
    requires Valid(h)
    ensures Strftime(h, [Lit('T'), Hour, Lit(':'), Lit('0'), Lit('0')]) == "T" + (Pad2(h.hour) + ":00")
  {
    StrftimeCons(h, Lit('T'), [Hour, Lit(':'), Lit('0'), Lit('0')]);
    StrftimeCons(h, Hour, [Lit(':'), Lit('0'), Lit('0')]);
    StrftimeCons(h, Lit(':'), [Lit('0'), Lit('0')]);
    StrftimeCons(h, Lit('0'), [Lit('0')]);
    StrftimeCons(h, Lit('0'), []);
    assert [':'] + (['0'] + (['0'] + [])) == ":00";
  }

  /** `"%Y-%m-%dT%H:00"` spelled out. */
  lemma BucketLayout(t: Instant)
    requires Valid(t)
    ensures HourBucket(t) == Strftime(t, DateFormat()) + ("T" + (Pad2(t.hour) + ":00"))
  {
    var h := TruncateToHour(t);
    StrftimeAppend(h, DateFormat(), [Lit('T'), Hour, Lit(':'), Lit('0'), Lit('0')]);
    BucketTail(h);
    DateLayout(h);
    DateLayout(t);
  }

  /**
   * The bucket and the record timestamp come from the same instant: the bucket
   * is the timestamp's date, a `T`, the timestamp's hour and `:00`.
   */
  lemma BucketMatchesTimestamp(now: Instant)
    requires Valid(now)
    ensures HourBucket(now) == SampleTimestamp(now)[..10] + "T" + SampleTimestamp(now)[11..13] + ":00"
    ensures forall k :: 0 <= k < 10 || 11 <= k < 13 ==> HourBucket(now)[k] == SampleTimestamp(now)[k]
  {
    var date, ts, hh := Strftime(now, DateFormat()), SampleTimestamp(now), Pad2(now.hour);
    assert ts[..10] == date && ts[11..13] == hh by {
      TimestampLayout(now);
      assert |date| == 10;
    }
    BucketLayout(now);
    assert date + ("T" + (hh + ":00")) == date + "T" + hh + ":00";
  }

  /** Two instants share a bucket exactly when they fall in the same hour of the same day. */
  lemma BucketIdentifiesHour(a: Instant, b: Instant)
    requires Valid(a) && Valid(b)
    ensures HourBucket(a) == HourBucket(b) <==>
              a.year == b.year && a.month == b.month && a.day == b.day && a.hour == b.hour
  {
    var f := BucketFormat();
    assert f[0] == Year && f[2] == Month && f[4] == Day && f[6] == Hour;
    var ha, hb := TruncateToHour(a), TruncateToHour(b);
    if HourBucket(a) == HourBucket(b) {
      ParseWithStrftime(ha, f, ParseDefaults);
      ParseWithStrftime(hb, f, ParseDefaults);
      AssignFields(ParseDefaults, ha, f, Year);
      AssignFields(ParseDefaults, hb, f, Year);
      AssignFields(ParseDefaults, ha, f, Month);
      AssignFields(ParseDefaults, hb, f, Month);
      AssignFields(ParseDefaults, ha, f, Day);
      AssignFields(ParseDefaults, hb, f, Day);
      AssignFields(ParseDefaults, ha, f, Hour);
      AssignFields(ParseDefaults, hb, f, Hour);
    }
  }

  /** `%Y-%m-%d` of any instant on 2024-03-01. */
  lemma DateExample(now: Instant)
    requires Valid(now) && now.year == 2024 && now.month == 3 && now.day == 1
    ensures Strftime(now, DateFormat()) == "2024-03-01"
  {
    DateLayout(now);
    Pad2OfNumber2("20");
    Pad2OfNumber2("24");
    Pad2OfNumber2("03");
    Pad2OfNumber2("01");
    assert Pad4(2024) == "20" + "24";
  }

  /** The worked example: every instant from 14:00 to 14:59 on 2024-03-01 falls in bucket `2024-03-01T14:00`. */
  lemma HourBucketExample(now: Instant)
    requires Valid(now) && now.year == 2024 && now.month == 3 && now.day == 1 && now.hour == 14
    ensures HourBucket(now) == "2024-03-01T14:00"
  {
    assert "2024-03-01" + "T14:00" == "2024-03-01T14:00";
    assert "T" + ("14" + ":00") == "T14:00";
    Pad2OfNumber2("14");
    DateExample(now);
    BucketLayout(now);
  }

  /**
   * The end-to-end example: a one-hour forecast of 18.2 degrees and 9.0 km/h,
   * a reading of 19.0 degrees and 11.5 km/h, sampled any time between 14:00
   * and 15:00 on 2024-03-01, stores errors of 0.64 and 6.25.
   */
  lemma CycleExample(now: Instant)
    requires Valid(now) && now.year == 2024 && now.month == 3 && now.day == 1 && now.hour == 14
    ensures
      var forecast := Response(200, ForecastPayload(Some(HourlySeries(
        Some(["2024-03-01T14:00"]), Some([Number(18.2)]), Some([Number(9.0)])))));
      var current := Response(200, CurrentPayload(Some(CurrentValues(Some(Number(19.0)), Some(Number(11.5))))));
      FetchAndStore(forecast, current, now, true) ==
        Stored(WeatherRecord(SampleTimestamp(now), 18.2, 19.0, 9.0, 11.5, 0.64, 6.25))
  {
    var hourly := HourlySeries(Some(["2024-03-01T14:00"]), Some([Number(18.2)]), Some([Number(9.0)]));
    var current := Response(200, CurrentPayload(Some(CurrentValues(Some(Number(19.0)), Some(Number(11.5))))));
    var forecast := Response(200, ForecastPayload(Some(hourly)));
    HourBucketExample(now);
    assert FirstIndex(["2024-03-01T14:00"], "2024-03-01T14:00") == 0;
    StoredExactly(forecast, current, now, true);
    assert SquaredError(19.0, 18.2) == 0.64;
    assert SquaredError(11.5, 9.0) == 6.25;
  }
}
