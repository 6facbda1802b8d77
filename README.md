# Weather logger and dashboard, modelled in Dafny

The system logs how accurate an hourly weather forecast is. Every minute its
backend runs one sampling cycle, `fetch_and_store`. The cycle:

- calls a forecast API and a current-conditions API;
- finds the forecast hour bucket (`%Y-%m-%dT%H:00`) of the local sampling time;
- reads the forecast and actual temperature and wind speed;
- computes the squared error of each;
- pushes one seven-field record under the store's `weather` node. The record is
  stamped `%Y-%m-%d %H:%M:%S`.

A dashboard reads the whole `weather` node back and builds a table from it:

- it takes the node's values;
- it renames the six numeric columns to display labels;
- it parses `timestamp` with the same format;
- it sorts the rows newest first;
- if the node is absent or empty, it builds an empty table instead.

The model has four modules:

- `Wrappers`: `Option` and `Result`.
- `DateTime`: calendar instants.
  - Validity, chronological order and truncation to the hour.
  - `Strftime` and `Strptime`, written as an interpreter over a sequence of
    directives (`%Y %m %d %H %M %S` and literal characters).
  - The round trip, and the fact that the timestamp text sorts in the same order
    as the instants.
- `Backend`: `fetch_and_store` as a pure function, `FetchAndStore`. It takes:
  - the two responses;
  - the clock reading;
  - whether the push returned without raising.

  It returns `Skipped`, `Failed` (the exception the `try` block catches) or
  `Stored(record)`.
- `Dashboard`: the data-to-table step.
  - `LoadFrame` takes the node, or `None`.
  - It returns the table, or the failure of `to_datetime` on a timestamp that
    does not match the format or lies outside the range of pandas' nanosecond
    timestamps.

The cross-module lemmas in `Dashboard` connect the two programs:

- a record the backend stores loads exactly when its sampling time lies in the
  range of pandas' nanosecond timestamps (1677-09-21 to 2262-04-11);
- its row renders back to the text that was stored;
- the newest-first order of the rows is the reverse string order of their
  timestamps.

## Model

| member | source | states |
|---|---|---|
| Backend.FetchAndStore | iot_weather_backend_firebase.py:26-88 | A failed forecast response skips with its status, checked before the current response. A stored record needs an accepted push and carries the sampling timestamp. Its two errors are the squared differences of its values. |
| Backend.SkippedExactly | iot_weather_backend_firebase.py:35-58 | The cycle is skipped exactly when a status is not 200, or when the hour bucket is missing from a listed `time` array. In the last case the reason names the bucket. |
| Backend.StoredExactly | iot_weather_backend_firebase.py:53-80 | A record is stored exactly when all of these hold: the bucket is listed; both forecast arrays have a number at its first index; both current values are numbers; the push succeeds. The record holds exactly those four values. |
| Backend.ShortForecastFails | iot_weather_backend_firebase.py:60-62 | With the bucket listed, a forecast array too short for the bucket's index ends the cycle as failed. This is the caught `IndexError`. |
| Backend.FirstIndex | iot_weather_backend_firebase.py:60 | `list.index` returns a position holding the element, with no earlier occurrence. |
| Backend.Element | iot_weather_backend_firebase.py:61-62 | Indexing a payload array succeeds exactly when the array exists and is long enough. Otherwise it gives `KeyError` or `IndexError`, respectively. |
| Backend.Field | iot_weather_backend_firebase.py:64-65 | Looking up a current value succeeds exactly when the key is present, and returns its value. |
| Backend.SquaredError | iot_weather_backend_firebase.py:67-68 | The squared error is never negative. It is zero for a perfect forecast and symmetric in actual and forecast. |
| Backend.ErrorOf | iot_weather_backend_firebase.py:67-68 | The error on JSON values succeeds exactly when both are numbers (`null` raises); it is then the squared error. |
| Backend.BuildRecord | iot_weather_backend_firebase.py:61-80 | Building the record succeeds exactly when the four values exist and are numbers. The record then has the given timestamp, those values and their squared errors. |
| Backend.FieldNamed | iot_weather_backend_firebase.py:72-80 | `record[key]` on the pushed dictionary: each of the seven keys gives the value the literal writes under it, and any other key gives nothing. Only `timestamp` holds text; the six others hold numbers. |
| Backend.RecordKeys | iot_weather_backend_firebase.py:72-80 | The pushed dictionary holds a value under a key exactly when the key is one of its seven keys, and no two keys are alike. |
| Backend.StoredRecordFields | iot_weather_backend_firebase.py:60-80 | In a stored record, each key holds the value the cycle read or computed for it. `timestamp` holds the sampling timestamp. The two forecast keys hold the array values at the bucket's first index, and the two actual keys hold the current values. The two error keys hold their squared differences. |
| Backend.SampleTimestamp | iot_weather_backend_firebase.py:48 | The record timestamp is 19 characters long. |
| Backend.DateLayout | iot_weather_backend_firebase.py:48 | `%Y-%m-%d` is a 4-digit year, a 2-digit month and a 2-digit day, separated by dashes. |
| Backend.TimestampLayout | iot_weather_backend_firebase.py:48 | The timestamp is the date, a space, then hour, minute and second as 2 digits each, separated by colons. |
| Backend.HourBucket | iot_weather_backend_firebase.py:51 | The hour bucket is 16 characters long. |
| Backend.BucketLayout | iot_weather_backend_firebase.py:51 | The bucket is the sampling date, `T`, the 2-digit hour and `:00`. Zeroing minute, second and microsecond changes neither the date nor the hour. |
| Backend.BucketMatchesTimestamp | iot_weather_backend_firebase.py:47-51 | The bucket and the stored timestamp come from the same reading of the clock. The bucket's date and hour are the timestamp's characters 0-9 and 11-12. |
| Backend.BucketIdentifiesHour | iot_weather_backend_firebase.py:51 | Two instants share a bucket if and only if they fall in the same hour of the same day. |
| Backend.DateExample | iot_weather_backend_firebase.py:48 | Any instant on 1 March 2024 formats as `2024-03-01`. |
| Backend.HourBucketExample | iot_weather_backend_firebase.py:51 | Any instant from 14:00 to 14:59 on 1 March 2024 falls in bucket `2024-03-01T14:00`. |
| Backend.CycleExample | iot_weather_backend_firebase.py:26-88 | Forecast 18.2 °C / 9.0 km/h against actual 19.0 °C / 11.5 km/h, in that hour, stores errors 0.64 and 6.25. |
| DateTime.DaysInMonth | iot_dashboard_firebase.py:32 | A month has 28 to 31 days, and 29 exactly for February of a Gregorian leap year. These rules decide which dates the parse accepts. |
| DateTime.AtOrBefore | iot_dashboard_firebase.py:33 | The order `sort_values` uses on the parsed column: `datetime`'s `<=`, comparing year, month, day, hour, minute, second and microsecond in turn. |
| DateTime.AtOrBeforeIsTotalOrder | iot_dashboard_firebase.py:33 | Chronological order of instants is reflexive, total, antisymmetric and transitive. A sort on it is well defined. |
| DateTime.TruncateToHour | iot_weather_backend_firebase.py:51 | `replace(minute=0, second=0, microsecond=0)` gives an instant on the hour that is valid and not after the original. |
| DateTime.TruncateToHourIsFloor | iot_weather_backend_firebase.py:51 | The truncated instant is the latest on-the-hour instant not after the original. |
| DateTime.Pad2 | iot_weather_backend_firebase.py:48 | A 2-digit field is exactly two decimal digits that read back as its number. |
| DateTime.Pad4 | iot_weather_backend_firebase.py:48 | `%Y` is exactly four decimal digits that read back as the year. |
| DateTime.Pad2OfNumber2 | iot_dashboard_firebase.py:32 | Reading two digits and padding them again gives the same text. |
| DateTime.Pad4OfNumber4 | iot_dashboard_firebase.py:32 | Reading four digits and padding them again gives the same text. |
| DateTime.Strftime | iot_weather_backend_firebase.py:48 | A formatted string's length is the sum of the format's field widths. |
| DateTime.ParseWith | iot_dashboard_firebase.py:32 | A fixed-width parse of a text of the wrong length fails. |
| DateTime.Strptime | iot_dashboard_firebase.py:32 | A successful match of the format gives a valid calendar instant with no fraction of a second. |
| DateTime.ParseWithStrftime | iot_dashboard_firebase.py:32 | Parsing what a format rendered recovers every field the format names. |
| DateTime.StrftimeOfParseWith | iot_dashboard_firebase.py:32 | Rendering a parsed instant with its format gives back the parsed text. |
| DateTime.TimestampRoundTrip | iot_dashboard_firebase.py:32 | Every timestamp the backend writes parses back to its instant, to the second. |
| DateTime.TimestampParseIsExact | iot_dashboard_firebase.py:32 | Any text the parse accepts is exactly the rendering of the instant it parses to. |
| DateTime.LexLeAppend | iot_dashboard_firebase.py:33 | Two strings with prefixes of equal length compare as their prefixes do, or as the rests do when the prefixes are equal. |
| DateTime.Pad2Order | iot_dashboard_firebase.py:33 | Padded 2-digit fields sort as strings in the same order as their numbers, and are equal only for equal numbers. |
| DateTime.Pad4Order | iot_dashboard_firebase.py:33 | Padded 4-digit fields sort as strings in the same order as their numbers, and are equal only for equal numbers. |
| DateTime.StrftimeOrder | iot_dashboard_firebase.py:33 | Under a format of fixed-width fields, the rendered strings compare as the field tuples do. |
| DateTime.TimestampOrderIsStringOrder | iot_dashboard_firebase.py:33 | For instants whole to the second, one is at or before another if and only if its timestamp text is at or before the other's. |
| Dashboard.Values | iot_dashboard_firebase.py:21 | `list(data.values())` keeps every record, in the node's order. |
| Dashboard.FromRecords | iot_dashboard_firebase.py:21 | The frame has the seven record keys as columns and one row per record, in order. |
| Dashboard.ColumnsAreRecordKeys | iot_dashboard_firebase.py:21 | Each row of the frame holds a value under a key exactly when the key is one of the frame's columns. |
| Dashboard.RenameTouchesOnlyNumericFields | iot_dashboard_firebase.py:23-30 | The rename keeps every column it does not list, such as `timestamp`. It gives each numeric column a label that is none of the record keys. |
| Dashboard.DisplayName | iot_dashboard_firebase.py:23-30 | The rename mapping. Each of the six numeric keys maps to its display label, such as `temp_actual` to `Actual Temp (°C)`. Any other label, such as `timestamp`, is kept. |
| Dashboard.RenameAll | iot_dashboard_firebase.py:23-30 | Every label is mapped in place to its display name. |
| Dashboard.RenameColumns | iot_dashboard_firebase.py:23-30 | The rename relabels columns in place and leaves every row untouched. |
| Dashboard.RenamedRecordColumns | iot_dashboard_firebase.py:23-30 | The renamed record keys are the display columns, and no two are alike. |
| Dashboard.InTimestampRange | iot_dashboard_firebase.py:32 | The bound behind `OutOfBoundsDatetime`. An instant whole to the second is in range exactly when it lies from 1677-09-21 00:12:44 to 2262-04-11 23:47:16. Every such instant's year is from 1677 to 2262, and every instant of the years 1678 to 2261 is in range. |
| Dashboard.TimestampRangeEnds | iot_dashboard_firebase.py:32 | The range ends on the right seconds. 1677-09-21 00:12:43 is out and 00:12:44 is in. 2262-04-11 23:47:16 is in and 23:47:17 is out. |
| Dashboard.ParseRecord | iot_dashboard_firebase.py:32 | A row converts exactly when its timestamp matches the format and its instant lies in the nanosecond timestamp range. A failure names that timestamp. It is out of bounds exactly when the text matched, and unparsable otherwise. On success the instant is in range and renders back to the text, and the numeric columns are unchanged. |
| Dashboard.MapOrFail | iot_dashboard_firebase.py:32 | The conversion of a column succeeds exactly when every element converts. It then gives each element's result, in order. |
| Dashboard.MapOrFailReportsAnElement | iot_dashboard_firebase.py:32 | A failed conversion reports the failure of one of the elements. |
| Dashboard.ParseTimestamps | iot_dashboard_firebase.py:32 | Parsing a column succeeds exactly when every timestamp parses, giving one row per record in order. A failure names a text that is not accepted. |
| Dashboard.ParseColumn | iot_dashboard_firebase.py:32 | Assigning the parsed column keeps the columns. Each row is the parsed record, or the frame fails exactly when a timestamp is not accepted: it does not match the format, or its instant is outside the nanosecond timestamp range. |
| Dashboard.Insert | iot_dashboard_firebase.py:33 | Inserting into rows that are newest first keeps them newest first. It adds exactly the one row. |
| Dashboard.SortDescending | iot_dashboard_firebase.py:33 | `ascending=False`: the result is newest first and a permutation of the input. |
| Dashboard.SortByTimestamp | iot_dashboard_firebase.py:33 | Sorting a frame keeps its columns; its rows come out newest first and permuted. |
| Dashboard.LoadRecords | iot_dashboard_firebase.py:21-33 | On a non-empty node, the frame loads exactly when every timestamp parses. A failure is `to_datetime`'s error on a bad timestamp. The loaded frame has the renamed columns, and its rows are the parsed records, newest first and permuted. |
| Dashboard.LoadFrame | iot_dashboard_firebase.py:20-35 | An absent or empty node gives the empty frame. Any loaded frame is newest first, with every timestamp parsed and in range. |
| Dashboard.EmptyExactly | iot_dashboard_firebase.py:20-35 | A loaded frame has no rows, and no columns, exactly when the node is absent or empty. |
| Dashboard.FailsExactly | iot_dashboard_firebase.py:32 | Loading fails exactly when some record's timestamp is not accepted. The error names one such record's timestamp. |
| Dashboard.LoadedRowsArePermutation | iot_dashboard_firebase.py:21-33 | A loaded frame has the seven display columns and one row per record. Its rows are the parsed records, reordered. |
| Dashboard.EveryRecordIsLoaded | iot_dashboard_firebase.py:21-33 | Every record of the node appears, parsed, as a row of the frame. |
| Dashboard.EveryRowIsARecord | iot_dashboard_firebase.py:21-33 | Every row of the frame is some record of the node, parsed. |
| Dashboard.StoredRecordParses | iot_dashboard_firebase.py:32 | A record the backend stores converts exactly when its sampling instant, to the second, is in the timestamp range. It then carries that instant and its values; otherwise the conversion fails as out of bounds. |
| Dashboard.StoredRecordsLoad | iot_dashboard_firebase.py:20-33 | A node holding only records stamped by the backend loads exactly when every sampling instant, to the second, is in the timestamp range. |
| Dashboard.StoredRowsKeepInstants | iot_dashboard_firebase.py:32-33 | Each row loaded from backend records carries the sampling instant of one of those records. |
| Dashboard.DescendingAsText | iot_dashboard_firebase.py:33 | The newest-first rows render to timestamps in descending string order. |
| Dashboard.RowRendersAsStored | iot_dashboard_firebase.py:32 | Every loaded row's instant renders to the text of one of the node's records. |

## Left out

- HTTP requests, status lines and JSON decoding (iot_weather_backend_firebase.py:29-30, 43-44) are inputs: each response is its status code and a decoded body of the expected shape. A raise from `requests.get` or `.json()` happens outside the `try`, so it escapes `fetch_and_store` and ends the scheduler loop. The model has no outcome for that.
- JSON values: an array element or current value is a number or `null`. Strings and booleans are not modelled. A string would make the subtraction at iot_weather_backend_firebase.py:67-68 raise `TypeError`, which would be a `Failed` cycle. A boolean would be subtracted as 0 or 1 and stored.
- The connection to the store, `push` and `get`, are left out. The push outcome is a boolean input, and the fetched node is an input sequence.
- The clock (`datetime.now()`) is an input instant. Local time zones and daylight-saving gaps are not modelled.
- The `/ping` route, the one-minute scheduler, its thread and the server start-up (iot_weather_backend_firebase.py:90-102) are concurrency and I/O.
- The dashboard's charts and widgets (iot_dashboard_firebase.py:37-84) are presentation only.
- The debug and status prints, and `:.4f` rounding, are output only.
- Floating point: temperatures, wind speeds and squared errors are exact `real`s, not IEEE doubles.
- Backend.SquaredError: states non-negativity, zero on a perfect forecast and symmetry. It does not state that the error is zero only for a perfect forecast.
- DateTime.Pad4: `%Y` is always four digits here. The C library prints years below 1000 without padding, so such years are outside the round trip.
- DateTime.Strptime: parses strictly fixed-width fields. The strptime-style parser pandas uses also accepts single-digit fields and leading spaces. The backend never writes such texts. The nanosecond timestamp range is applied on top of this parse, in `Dashboard.ParseRecord`.
- Dashboard.ParseRecord: follows pandas 2.x, whose `to_datetime` gives nanosecond timestamps. Later pandas versions may pick a coarser unit and accept a wider range of years.
- Dashboard.ParseTimestamps: states that a failure names some timestamp that does not parse. pandas reports the first one, and the model does too, but that is not stated.
- Dashboard.SortDescending: the order among rows with equal timestamps (pandas' quicksort is not stable) is not stated; only newest first and a permutation.
- Dashboard.FromRecords: the frame's column order is the order in which the backend writes keys. The store's own key order and pandas' column inference are not modelled.
- Nodes holding records of other shapes are not modelled; a node without a `timestamp` column would make pandas raise `KeyError`. Nor is a forecast `time` value that is not a list.
