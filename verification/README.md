# Soil-moisture read side, modelled in Dafny

This project models the read side of a soil-moisture monitor's two Flask
back-ends, `Backend/app.py` and `Frontend/backend/app.py`. The back-ends
serve the same table `moisture_data(device_id, moisture_value, timestamp)`
through six endpoints each:

- the insert guard `insert_moisture`;
- the current reading `get_moisture`;
- three bucketed rollups `get_last_12h`, `get_last_24h` and `get_last_7d`;
- a 12-hour climatology forecast `get_next_12h`.

The table is an immutable `seq<Reading>`. A reading holds the device id, the
value as an exact `real` (the column is DECIMAL(5,2)) and the naive
timestamp as whole seconds. Each SQL query becomes a function over that
sequence:

- a `WHERE` clause is `Filter`;
- `AVG` is `Mean`, which is null over no rows;
- `ORDER BY timestamp DESC LIMIT 1` and `MAX(timestamp)` are `Latest`;
- the three `GROUP BY` truncations are `BucketStart` on a `Granularity`:
  hour, two-hour epoch buckets and day.

`NOW()` and `datetime.now()` are a parameter `now`. Python's truthiness is
kept wherever the code relies on it: `x if avg else None` and
`round(x, 2) if x else None` treat 0 like None (`Truthy`, `EmitTruthy`).
The null checks `is not None` do not (`EmitNullable`). Rounding is Python's
`round(x, 2)` on exact values, half to even, applied only when a value is
emitted.

The two files are divergent revisions, so each endpoint that differs is
modelled once per file:

- **Modules shared by both back-ends:**
  - `Readings` holds the queries both files share.
  - `Rollup` holds the GROUP BY and the specification `IsRollupOf` that every
    rollup endpoint is proved to meet. `RollupUnique` proves that this
    specification determines the answer.
  - `CurrentReading` holds `get_moisture`, which is the same code in both files.
  - `Ingestion` holds `insert_moisture`, whose guard is also the same in both files.
- **`BackendApp`** (`Backend/app.py`):
  - the 12-hour rollup is anchored to the latest reading;
  - the forecast is recursive, each step's unrounded prediction being the
    next step's baseline;
  - the forecast loop is a method proved equal to the function `Forecast`.
- **`FrontendApp`** (`Frontend/backend/app.py`):
  - the rollups are anchored to `now`, two of them behind a COUNT(*) guard
    that is proved redundant;
  - the 24-hour rollup uses `FLOOR(epoch / 7200) * 7200` buckets;
  - the forecast takes each of the next twelve clock hours on its own;
  - its loop is a method proved equal to the function `Outlook`.

Behaviour of the code worth knowing:

- **No upper bound on the `now`-anchored windows.** These windows are only
  `timestamp >= NOW() - interval`, so a reading stamped in the future is
  included. The bucket-count bounds are proved under the hypothesis that no
  reading lies after `now`. `Rollup.WindowsAgree` shows that under that
  hypothesis the window is the closed `[now - d, now]`.
- **The two-hour key of `Frontend/backend/app.py` is a 32-bit product.** In
  `FLOOR(EXTRACT(EPOCH FROM timestamp) / 7200)::INTEGER * 7200` the cast
  binds to `FLOOR(...)`, so the product is an `integer` product. It
  overflows for any reading stamped from 2038-01-19 04:00:00 on, and since
  the window has no upper bound one such reading turns the whole answer into
  a database error (`FrontendApp.LastTwentyFourHours`, `TwoHourKeyRange`).
- **`next_hour` uses the current reading's own clock hour.**
  `get_moisture` blends the three-day mean of `current_timestamp.hour`,
  not of the following hour.
- **Neither forecast clamps its values.** Bounds are proved instead: both
  forecasts stay within any two-decimal interval that holds the device's
  readings (`BackendApp.ForecastWithinRange`, `FrontendApp.OutlookWithinRange`).
- **`get_next_12h` in `Frontend/backend/app.py` starts at offset 0.** Its
  first point is the current hour.
- **Duplicate rows count.** `AVG` averages a row as often as the table holds
  it; `Readings.FilterCounts` states that every WHERE clause keeps those
  multiplicities.

## Model

| member | source | states |
|---|---|---|
| Numeric.RoundHalfEven | Backend/app.py:297 | `round()` on an exact value is an integer within one half of it |
| Numeric.RoundHalfEvenNearest | Backend/app.py:297 | `round()` takes the nearer integer, and a value exactly halfway between two integers goes to the even one |
| Numeric.Round2 | Backend/app.py:297 | `round(x, 2)` is within half a cent of `x` and has at most two decimals |
| Numeric.Round2Fixes | Backend/app.py:165 | rounding a value that already has two decimals (any DECIMAL(5,2) value) returns it unchanged |
| Numeric.Round2Within | Backend/app.py:297 | a value between two two-decimal bounds stays between them after rounding |
| Readings.HourOfDay | Backend/app.py:287 | `EXTRACT(HOUR FROM timestamp)` is in 0..23 and locates `t` within its day |
| Readings.HourOfDayShift | Backend/app.py:280 | the hour of `t + k` hours is the hour of `t` plus `k`, modulo 24 |
| Readings.Filter | Backend/app.py:74-79 | a WHERE clause keeps the rows that satisfy it and no others, as a set (multiplicities are `FilterCounts`) |
| Readings.FilterCounts | Backend/app.py:98-104 | a WHERE clause keeps every satisfying row exactly as often as the table holds it and drops every other row, so `AVG` weighs duplicates |
| Readings.Mean | Backend/app.py:98-104 | `AVG` is null exactly over no rows |
| Readings.MeanBounds | Backend/app.py:98-104 | a mean lies between the smallest and largest averaged value |
| Readings.MeanConstant | Backend/app.py:98-104 | the mean of rows all holding `c` is `c` |
| Readings.Newest | Backend/app.py:264-270 | `ORDER BY timestamp DESC LIMIT 1` is null exactly on no rows, and otherwise returns a row with the greatest timestamp |
| Readings.Latest | Backend/app.py:74-82 | the device's current reading: null exactly when the device has no row, otherwise one of its rows with the greatest timestamp |
| Readings.Previous | Backend/app.py:85-92 | the previous reading: null exactly when no row of the device is earlier than `before`, otherwise one of its latest rows strictly earlier |
| Readings.SameHourMean | Backend/app.py:98-105 | the three-day same-hour mean is null exactly when no reading of the device since `since` falls in hour `h` |
| Readings.SameHourRows | Backend/app.py:98-103 | the rows the same-hour query averages are the device's rows since `since` whose hour of day is `h` |
| Readings.SameHourMeanIgnores | Frontend/backend/app.py:338-346 | rows of other devices, other hours or before the window do not change a same-hour mean |
| Readings.SameHourMeanWithin | Backend/app.py:283-288 | a same-hour mean lies in any interval holding all the device's readings |
| Readings.SameHourMeanConstant | Backend/app.py:283-288 | a same-hour mean over a constant series is that constant |
| Readings.EmitTruthy | Backend/app.py:120-122 | `round(x, 2) if x else None` is null exactly for None and 0, and otherwise within half a cent of `x` |
| Readings.Truthy | Backend/app.py:291 | Python's truthiness of a nullable number: None and 0 are false (a predicate without a contract) |
| Readings.EmitNullable | Backend/app.py:165 | `round(x, 2) if x is not None else None` is null exactly for None |
| Rollup.BucketStartBounds | Backend/app.py:155 | a truncated timestamp is a multiple of the bucket width, at most `t` and less than one width below it |
| Rollup.BucketStart | Backend/app.py:155 | `DATE_TRUNC('hour')`, the two-hour key and `DATE_TRUNC('day')` as one truncation per width; it has no contract, and `BucketStartBounds` states its bounds |
| Rollup.SinceWindow | Backend/app.py:194 | `device_id = d AND timestamp >= from` keeps those rows and no others, as a set |
| Rollup.BoundedWindow | Backend/app.py:157 | `device_id = d AND timestamp >= from AND timestamp <= to` keeps those rows and no others, as a set |
| Rollup.WindowCounts | Backend/app.py:157 | both windows keep each of their rows as often as the table holds it |
| Rollup.WindowsAgree | Frontend/backend/app.py:214-220 | with no reading after `to`, the unbounded window equals the closed window up to `to` |
| Rollup.BucketKeys | Backend/app.py:158-159 | the GROUP BY keys are strictly ascending and are exactly the truncated times of the rows |
| Rollup.GroupBy | Backend/app.py:153-161 | one result row per non-empty bucket in ascending order, covering every row, each with the bucket's non-null mean |
| Rollup.EmittedRollup | Backend/app.py:163-168 | the emitted list satisfies `IsRollupOf` for its window, and is empty exactly when the window is |
| Rollup.EmitBuckets | Backend/app.py:163-168 | the comprehension emits one point per result row, in order, at the row's bucket start, null exactly when the row's mean is NULL |
| Rollup.GroupByCount | Backend/app.py:151-159 | rows whose times lie within `n` bucket widths up to `hi` fall into at most `n + 1` buckets |
| Rollup.SinceBucketCount | Backend/app.py:190-196 | with no reading after `now`, a device's readings from `n` widths before `now` on fall into at most `n + 1` buckets |
| Rollup.AscendingUnique | Backend/app.py:159 | two ascending key lists with the same keys are equal, so the order makes the answer unique |
| Rollup.RollupUnique | Backend/app.py:153-168 | `IsRollupOf` determines the list: two rollups of the same window are equal |
| BackendApp.LastTwelveHours | Backend/app.py:133-168 | empty exactly when the device has no reading; otherwise the hour rollup of `[latest - 12h, latest]`, with at most 13 buckets |
| BackendApp.TwelveHourRollup | Backend/app.py:151-168 | the hour rollup of the twelve hours up to `t`, both ends included, has at most 13 buckets |
| BackendApp.LastTwentyFourHours | Backend/app.py:184-205 | empty exactly when no reading is in the window; otherwise the hour rollup of every reading since `now - 24h` |
| BackendApp.LastTwentyFourHoursCount | Backend/app.py:190-196 | with no reading after `now`, at most 25 hour buckets |
| BackendApp.LastSevenDays | Backend/app.py:221-242 | empty exactly when no reading is in the window; otherwise the day rollup of every reading since `now - 7d` |
| BackendApp.LastSevenDaysCount | Backend/app.py:227-233 | with no reading after `now`, at most 8 day buckets |
| BackendApp.Forecast | Backend/app.py:258-300 | empty exactly when the device has no reading; otherwise 12 non-null points at `t0 + 1h … t0 + 12h`, strictly ascending |
| BackendApp.ForecastFrom | Backend/app.py:279-299 | twelve points one hour apart after `t0`, each with a value |
| BackendApp.ForecastPoint | Backend/app.py:296-299 | the point of step `i` lies `i` hours after `t0` and holds a value with two decimals within half a cent of the step's prediction |
| BackendApp.StepMean | Backend/app.py:280-288 | the mean of the readings since three days before `t0` in the clock hour of `t0 + i` hours; no contract, its use is stated by `PredictionStep` |
| BackendApp.Blend | Backend/app.py:291-294 | `(avg + current_value) / 2` for a truthy mean, else `current_value`; no contract, `PredictionStep` states what it does to a prediction |
| BackendApp.Predicted | Backend/app.py:291-300 | the unrounded prediction after `i` steps, each step blending the previous one; no contract, its properties are the `Prediction…` lemmas |
| BackendApp.NextTwelveHours | Backend/app.py:258-300 | the loop returns exactly `Forecast` |
| BackendApp.PredictionLoop | Backend/app.py:278-300 | the loop that carries `current_value` returns the twelve rounded predictions of the recursive blend |
| BackendApp.PredictionLoopBody | Backend/app.py:280-297 | one pass of the loop body returns the prediction of step `i` and exactly the forecast's point `i` |
| BackendApp.PredictionLoopStep | Backend/app.py:280-294 | one pass of the loop body computes the next step's prediction from the previous one |
| BackendApp.PredictionStep | Backend/app.py:291-294 | with a truthy mean the prediction lies between the previous baseline and the mean, at half the distance; otherwise it carries the baseline |
| BackendApp.PredictionWithin | Backend/app.py:291-300 | every prediction lies in any interval holding `v0` and the truthy means used so far |
| BackendApp.PredictionCarriesForward | Backend/app.py:291-300 | with no truthy mean in the first `i` steps, the prediction is still `v0` |
| BackendApp.PredictionConverges | Backend/app.py:291-300 | when every step sees the same non-zero mean `m`, the distance from `m` halves at each step |
| BackendApp.ForecastAt | Backend/app.py:279-299 | point `j` of the forecast is the rounded prediction of step `j + 1` from the latest reading |
| BackendApp.ForecastCarriesForward | Backend/app.py:279-300 | without same-hour history all 12 values are `round(v0, 2)` |
| BackendApp.PredictedWithinRange | Backend/app.py:291-300 | every unrounded prediction lies in any interval holding all the device's readings |
| BackendApp.ForecastWithinRange | Backend/app.py:291-300 | every forecast value lies in any two-decimal interval holding all the device's readings |
| BackendApp.ForecastOfConstantSeries | Backend/app.py:279-300 | a constant series `c` is forecast as `round(c, 2)` for all twelve hours |
| FrontendApp.CountSince | Frontend/backend/app.py:202-207 | `COUNT(*)` is zero exactly when the device has no reading since `from` |
| FrontendApp.GuardedRollup | Frontend/backend/app.py:202-228 | empty exactly when the window is empty; otherwise the rollup of the window |
| FrontendApp.CountGuardRedundant | Frontend/backend/app.py:209-211 | the COUNT(*) guard never changes the answer of the GROUP BY |
| FrontendApp.LastTwelveHours | Frontend/backend/app.py:196-228 | empty exactly when no reading is since `now - 12h`; otherwise that window's hour rollup |
| FrontendApp.LastTwelveHoursCount | Frontend/backend/app.py:213-220 | with no reading after `now`, at most 13 hour buckets |
| FrontendApp.TwoHourKey | Frontend/backend/app.py:263-266 | the two-hour key is `floor(t / 7200) * 7200`, at most `t` and within two hours of it |
| FrontendApp.TwoHourKeyRange | Frontend/backend/app.py:263 | the 32-bit key `FLOOR(...)::INTEGER * 7200` fits exactly for times in [-2147479200, 2147486400), so it first overflows at 2038-01-19 04:00:00 |
| FrontendApp.LastTwentyFourHours | Frontend/backend/app.py:244-288 | a database error exactly when some reading of the device since `now - 24h` lies outside the key's 32-bit range; otherwise empty exactly when no reading is in the window, and that window's two-hour rollup |
| FrontendApp.LastTwentyFourHoursCount | Frontend/backend/app.py:261-268 | with no reading after `now`, a served answer has at most 13 two-hour buckets |
| FrontendApp.LastSevenDays | Frontend/backend/app.py:292-313 | empty exactly when no reading is since `now - 7d`; otherwise the day rollup, every value a number and never null |
| FrontendApp.LastSevenDaysCount | Frontend/backend/app.py:298-305 | with no reading after `now`, at most 8 day buckets |
| FrontendApp.SevenDaysAgree | Frontend/backend/app.py:308-313 | rounding without a null check gives the same 7-day list as the other back-end's null-checked comprehension |
| FrontendApp.Outlook | Frontend/backend/app.py:327-348 | always 12 strictly ascending points at `now + k` hours for k = 0..11, each the truthy-emitted 3-day mean of its own clock hour |
| FrontendApp.OutlookPoint | Frontend/backend/app.py:337-348 | point `k` lies `k` hours after `now`, and its clock hour `(now.hour + k) % 24` is the hour of that time, whose truthy-emitted 3-day mean it holds |
| FrontendApp.NextTwelveHours | Frontend/backend/app.py:334-348 | the loop returns exactly `Outlook` |
| FrontendApp.OutlookPointIgnores | Frontend/backend/app.py:336-346 | point `k` depends only on the device's readings of its own clock hour in the window; other rows do not change it |
| FrontendApp.OutlookWithoutHistory | Frontend/backend/app.py:346 | with no reading in the three days, all 12 points are null |
| FrontendApp.OutlookWithinRange | Frontend/backend/app.py:346 | every non-null value lies in any two-decimal interval holding the device's readings |
| CurrentReading.ValueOf | Backend/app.py:92 | `float(row[0]) if row else None` is null exactly when there is no row |
| CurrentReading.NextHourValue | Backend/app.py:107-110 | with a truthy mean and current value, the midpoint between them; otherwise the current value |
| CurrentReading.CurrentHourMean | Backend/app.py:94-105 | the mean `next_hour` blends is null exactly when no reading of the device in the three days before the current one shares its clock hour |
| CurrentReading.Summary | Backend/app.py:67-123 | all null when the device has no reading; `current` is null exactly when there is no reading or it is 0; the three fields are the latest, the previous and the blended value, each emitted truthily |
| CurrentReading.LastHourIsPrevious | Backend/app.py:85-120 | `last_hour` is null exactly when nothing precedes the current reading or the previous value is 0; otherwise it is the rounded latest reading strictly before the current one |
| CurrentReading.NextHourBlend | Frontend/backend/app.py:157-185 | `next_hour` is the rounded midpoint, lying between the rounded current value and mean, when both are truthy; otherwise it equals `current` |
| CurrentReading.SummaryWithinRange | Backend/app.py:119-123 | every non-null field lies in any two-decimal interval holding the device's readings |
| Ingestion.Insert | Frontend/backend/app.py:89-116 | rejected exactly when `device_id` is missing or empty or the value is missing, so 0 is accepted; a stored row carries the given timestamp or, without one, the time of insert |
| Ingestion.Apply | Backend/app.py:40-55 | a rejected request leaves the table as it was; a stored one appends exactly its row |
| Ingestion.LatestAfterAppend | Backend/app.py:47-52 | a row appended strictly later than every row of its device becomes that device's latest reading |
| Ingestion.LatestOtherDevice | Backend/app.py:74-80 | a row of another device does not change a device's latest reading |
| Ingestion.PreviousOtherDevice | Backend/app.py:85-90 | a row of another device does not change a device's previous reading |
| Ingestion.SummaryOtherDevice | Backend/app.py:67-123 | a row of another device does not change a device's `get_moisture` answer |
| Ingestion.InsertThenRead | Backend/app.py:26-58 | a stored reading without timestamp, on a device whose readings all lie in earlier seconds, becomes the device's current reading, read back through `round(x, 2) if x else None`; other devices read as before |

## Left out

- psycopg2 connections, `init_database`, Flask routing, JSON encoding and status codes are not modelled. The 500 answers raised by database errors are left out, except the overflow of the two-hour key in `FrontendApp.LastTwentyFourHours`, and so are non-JSON request bodies and a non-string `device_id`.
- The `strftime` formatting of timestamps (`%H:%M`, `%Y-%m-%d`) is left out. Points carry the truncated integer time instead.
- Time zones are left out: `datetime.fromtimestamp` in local time, and `NOW()` as a `timestamptz` compared with a naive column. Timestamps are seconds of the naive value, and one `now` stands for both Python's `datetime.now()` and SQL `NOW()`, which the code reads from two clocks.
- The timestamp of an insert is modelled already converted to seconds. Postgres's parsing of the string is not modelled, and a timestamp Python finds falsy is `None`.
- DECIMAL(5,2) storage is left out: the rounding on insert and the range overflow are not modelled. Values are exact reals, and Python's binary floats are not modelled.
- Readings.Latest: when several rows share the greatest timestamp, which one `ORDER BY timestamp DESC LIMIT 1` returns is left to the database. The model takes the one stored last. Contracts either speak of whichever row `Latest` returns or, as in `Ingestion.LatestAfterAppend`, require the row to be strictly the newest.
- Readings.Previous: timestamps are whole seconds, so the order of readings within one second is lost. Such readings tie, and `Previous` skips a reading stored earlier in the same second as the current one, where the source's `last_hour` query, which compares sub-second timestamps, would return it.
- BackendApp.LastTwentyFourHoursCount: the bound is proved only when no reading lies after `now`, because the query has no upper bound. The same holds for every other `…Count` lemma of a `now`-anchored window.
- The sensor emulator, the historical-data seeding script, `init_db.py`, the firmware, `index.js` and the React front end are not part of this model.
- `Frontend/src/components/GraphLast1H.tsx` requests a `last1h` endpoint that neither `Backend/app.py` nor `Frontend/backend/app.py` defines, so there is no code behind it to model.
