/** The `moisture_data` table seen as an immutable sequence of rows, and the
    semantics of the SQL queries both Flask back-ends run against it. */
module Readings {
  import opened Numeric

  datatype Option<T> = None | Some(value: T)

  /** One row: `device_id`, `moisture_value` (DECIMAL(5,2)) and `timestamp`,
      the latter as seconds since the epoch of the naive timestamp. */
  datatype Reading = Reading(device: string, value: real, t: int)

  /** One element of an endpoint's JSON list: an instant (bucket start or
      forecast time, before `strftime`) and a number or null. */
  datatype Point = Point(t: int, value: Option<real>)

  const HourSeconds := 3600
  const DaySeconds := 86400
  const TwelveHours := 12 * HourSeconds
  const ThreeDays := 3 * DaySeconds
  const SevenDays := 7 * DaySeconds

  /** `EXTRACT(HOUR FROM timestamp)` and `datetime.hour`. */
  function HourOfDay(t: int): (h: int)
    ensures 0 <= h < 24
    ensures h * HourSeconds <= t % DaySeconds < (h + 1) * HourSeconds
  {
    var q := t / HourSeconds;
    assert t == (q / 24) * DaySeconds + (q % 24) * HourSeconds + t % HourSeconds;
    DayRemainder(t, q / 24, (q % 24) * HourSeconds + t % HourSeconds);
    q % 24
  }

  /** The remainder of a division by a day is the unique one in range. */
  lemma DayRemainder(t: int, d: int, r: int)
    requires t == d * DaySeconds + r && 0 <= r < DaySeconds
    ensures t % DaySeconds == r
  {
    assert (d - t / DaySeconds) * DaySeconds == t % DaySeconds - r;
  }

  /** Advancing a time by `k` whole hours advances its hour of day by `k`, modulo 24. */
  lemma HourOfDayShift(t: int, k: int)
    ensures HourOfDay(t + k * HourSeconds) == (HourOfDay(t) + k) % 24
  {
    var q := t / HourSeconds;
    assert (t + k * HourSeconds) / HourSeconds == q + k;
    ModMultiple(q % 24 + k, q / 24);
  }

  /** Adding a multiple of 24 leaves a remainder modulo 24 as it is. */
  lemma ModMultiple(x: int, n: int)
    ensures (x + n * 24) % 24 == x % 24
  {
  }

  /** The rows a WHERE clause keeps, in table order. */
  function Filter(rows: seq<Reading>, keep: Reading -> bool): (r: seq<Reading>)
    ensures |r| <= |rows|
    ensures forall x :: x in r <==> x in rows && keep(x)
  {
    if rows == [] then []
    else (if keep(rows[0]) then [rows[0]] else []) + Filter(rows[1..], keep)
  }

  /** A WHERE clause keeps each satisfying row as often as the table holds
      it, which `AVG` relies on: duplicate rows are averaged as often as
      they occur. */
  lemma {:induction false} FilterCounts(rows: seq<Reading>, keep: Reading -> bool)
    ensures forall x :: multiset(Filter(rows, keep))[x] == if keep(x) then multiset(rows)[x] else 0
  {
    if rows != [] {
      assert rows == [rows[0]] + rows[1..];
      FilterCounts(rows[1..], keep);
    }
  }

  /** Filtering a table that grew by appended rows filters both parts. */
  lemma {:induction false} FilterAppend(rows: seq<Reading>, extra: seq<Reading>, keep: Reading -> bool)
    ensures Filter(rows + extra, keep) == Filter(rows, keep) + Filter(extra, keep)
  {
    if rows == [] {
      assert rows + extra == extra;
    } else {
      var head := if keep(rows[0]) then [rows[0]] else [];
      assert (rows + extra)[0] == rows[0];
      assert (rows + extra)[1..] == rows[1..] + extra;
      assert Filter(rows + extra, keep) == head + Filter(rows[1..] + extra, keep);
      FilterAppend(rows[1..], extra, keep);
      assert Filter(rows, keep) == head + Filter(rows[1..], keep);
    }
  }

  /** A WHERE clause that no row satisfies selects nothing. */
  lemma {:induction false} FilterNone(rows: seq<Reading>, keep: Reading -> bool)
    requires forall x :: x in rows ==> !keep(x)
    ensures Filter(rows, keep) == []
  {
    if rows != [] {
      assert rows[0] in rows;
      assert forall x :: x in rows[1..] ==> x in rows;
      FilterNone(rows[1..], keep);
    }
  }

  function SumValues(rows: seq<Reading>): real {
    if rows == [] then 0.0 else rows[0].value + SumValues(rows[1..])
  }

  /** `AVG(moisture_value)`: NULL over no rows, otherwise the arithmetic mean. */
  function Mean(rows: seq<Reading>): (m: Option<real>)
    ensures m.None? <==> rows == []
  {
    if rows == [] then None else Some(SumValues(rows) / |rows| as real)
  }

  /** Every row of a suffix is a row of the table. */
  lemma TailRows(rows: seq<Reading>)
    requires rows != []
    ensures rows[0] in rows
    ensures forall x :: x in rows[1..] ==> x in rows
  {
  }

  lemma {:induction false} SumBounds(rows: seq<Reading>, lo: real, hi: real)
    requires forall x :: x in rows ==> lo <= x.value <= hi
    ensures |rows| as real * lo <= SumValues(rows) <= |rows| as real * hi
  {
    if rows != [] {
      TailRows(rows);
      SumBounds(rows[1..], lo, hi);
      var m := |rows[1..]| as real;
      assert |rows| as real == m + 1.0;
      SumStep(m, lo, hi, rows[0].value, SumValues(rows[1..]));
    }
  }

  /** One more value within [lo, hi] keeps a sum of `m` values within `m` times the bounds. */
  lemma SumStep(m: real, lo: real, hi: real, v: real, rest: real)
    requires m * lo <= rest <= m * hi
    requires lo <= v <= hi
    ensures (m + 1.0) * lo <= v + rest <= (m + 1.0) * hi
  {
    assert (m + 1.0) * lo == m * lo + lo;
    assert (m + 1.0) * hi == m * hi + hi;
  }

  /** A mean lies between the smallest and the largest value averaged. */
  lemma MeanBounds(rows: seq<Reading>, lo: real, hi: real)
    requires rows != []
    requires forall x :: x in rows ==> lo <= x.value <= hi
    ensures lo <= Mean(rows).value <= hi
  {
    SumBounds(rows, lo, hi);
    DivWithin(SumValues(rows), |rows| as real, lo, hi);
  }

  /** A sum within `n` times [lo, hi], divided by `n`, is within [lo, hi]. */
  lemma DivWithin(s: real, n: real, lo: real, hi: real)
    requires n > 0.0 && n * lo <= s <= n * hi
    ensures lo <= s / n <= hi
  {
    assert s / n - lo == (s - n * lo) / n;
    assert hi - s / n == (n * hi - s) / n;
  }

  lemma {:induction false} SumConstant(rows: seq<Reading>, c: real)
    requires forall x :: x in rows ==> x.value == c
    ensures SumValues(rows) == |rows| as real * c
  {
    if rows != [] {
      TailRows(rows);
      SumConstant(rows[1..], c);
      var m := |rows[1..]| as real;
      assert SumValues(rows) == c + m * c;
      assert |rows| as real == m + 1.0;
      assert (m + 1.0) * c == m * c + c;
    }
  }

  /** The mean of readings that all carry one value is that value. */
  lemma MeanConstant(rows: seq<Reading>, c: real)
    requires rows != []
    requires forall x :: x in rows ==> x.value == c
    ensures Mean(rows) == Some(c)
  {
    SumConstant(rows, c);
    var n := |rows| as real;
    assert n > 0.0;
    assert SumValues(rows) / n == c;
  }

  /** The row `ORDER BY timestamp DESC LIMIT 1` returns: one with the greatest
      timestamp. Among equal timestamps the order is left to the database; this
      model takes the row stored last. */
  function Newest(rows: seq<Reading>): (r: Option<Reading>)
    ensures r.None? <==> rows == []
    ensures r.Some? ==> r.value in rows && forall x :: x in rows ==> x.t <= r.value.t
  {
    if rows == [] then None
    else
      var init, last := rows[..|rows| - 1], rows[|rows| - 1];
      assert rows == init + [last];
      var rest := Newest(init);
      if rest.Some? && rest.value.t > last.t then rest else Some(last)
  }

  /** The device's most recent reading: `WHERE device_id = d ORDER BY
      timestamp DESC LIMIT 1`, and `MAX(timestamp)` as its time. */
  function Latest(rows: seq<Reading>, device: string): (r: Option<Reading>)
    ensures r.None? <==> forall x :: x in rows ==> x.device != device
    ensures r.Some? ==> r.value in rows && r.value.device == device
    ensures r.Some? ==> forall x :: x in rows && x.device == device ==> x.t <= r.value.t
  {
    Newest(Filter(rows, (x: Reading) => x.device == device))
  }

  /** The device's most recent reading strictly before `before`. */
  function Previous(rows: seq<Reading>, device: string, before: int): (r: Option<Reading>)
    ensures r.None? <==> forall x :: x in rows && x.device == device ==> x.t >= before
    ensures r.Some? ==> r.value in rows && r.value.device == device && r.value.t < before
    ensures r.Some? ==> forall x :: x in rows && x.device == device && x.t < before ==> x.t <= r.value.t
  {
    Newest(Filter(rows, (x: Reading) => x.device == device && x.t < before))
  }

  /** The rows of `AVG(...) WHERE device_id = d AND timestamp >= since AND
      EXTRACT(HOUR FROM timestamp) = h`. */
  function SameHourRows(rows: seq<Reading>, device: string, since: int, h: int): (r: seq<Reading>)
    ensures forall x :: x in r <==> x in rows && x.device == device && x.t >= since && HourOfDay(x.t) == h
  {
    Filter(rows, (x: Reading) => x.device == device && x.t >= since && HourOfDay(x.t) == h)
  }

  /** The same-hour mean used by every forecast: NULL when no reading of the
      device since `since` falls in hour `h` of the day, otherwise a value
      between the smallest and largest such reading. */
  function SameHourMean(rows: seq<Reading>, device: string, since: int, h: int): (m: Option<real>)
    ensures m.None? <==> forall x :: x in rows && x.device == device && x.t >= since ==> HourOfDay(x.t) != h
  {
    var matching := SameHourRows(rows, device, since, h);
    Mean(matching)
  }

  /** The same-hour mean reads only the device's readings of that hour in the
      window: appending rows outside it leaves the mean unchanged. */
  lemma SameHourMeanIgnores(rows: seq<Reading>, extra: seq<Reading>, device: string, since: int, h: int)
    requires forall x :: x in extra ==> x.device != device || x.t < since || HourOfDay(x.t) != h
    ensures SameHourMean(rows + extra, device, since, h) == SameHourMean(rows, device, since, h)
  {
    var keep := (x: Reading) => x.device == device && x.t >= since && HourOfDay(x.t) == h;
    FilterAppend(rows, extra, keep);
    FilterNone(extra, keep);
    assert Filter(rows + extra, keep) == Filter(rows, keep);
  }

  /** If every reading of the device lies in [lo, hi], so does a same-hour mean. */
  lemma SameHourMeanWithin(rows: seq<Reading>, device: string, since: int, h: int, lo: real, hi: real)
    requires forall x :: x in rows && x.device == device ==> lo <= x.value <= hi
    ensures SameHourMean(rows, device, since, h).Some? ==> lo <= SameHourMean(rows, device, since, h).value <= hi
  {
    var matching := SameHourRows(rows, device, since, h);
    if matching != [] {
      MeanBounds(matching, lo, hi);
    }
  }

  /** If every reading of the device carries the value `c`, a same-hour mean is `c`. */
  lemma SameHourMeanConstant(rows: seq<Reading>, device: string, since: int, h: int, c: real)
    requires forall x :: x in rows && x.device == device ==> x.value == c
    ensures SameHourMean(rows, device, since, h).Some? ==> SameHourMean(rows, device, since, h) == Some(c)
  {
    var matching := SameHourRows(rows, device, since, h);
    if matching != [] {
      MeanConstant(matching, c);
    }
  }

  /** Python truthiness of a number or None: None and 0 are both false. */
  predicate Truthy(v: Option<real>) {
    v.Some? && v.value != 0.0
  }

  /** `round(x, 2) if x else None`: 0 is emitted as null like None. */
  function EmitTruthy(v: Option<real>): (r: Option<real>)
    ensures r.None? <==> !Truthy(v)
    ensures r.Some? ==> v.value - 0.005 <= r.value <= v.value + 0.005
  {
    if Truthy(v) then Some(Round2(v.value)) else None
  }

  /** `round(x, 2) if x is not None else None`: 0 is emitted as 0. */
  function EmitNullable(v: Option<real>): (r: Option<real>)
    ensures r.None? <==> v.None?
    ensures r.Some? ==> v.value - 0.005 <= r.value <= v.value + 0.005
  {
    if v.Some? then Some(Round2(v.value)) else None
  }

  /** Instants strictly increasing along a JSON list. */
  predicate StrictlyIncreasingTimes(pts: seq<Point>) {
    forall i, j :: 0 <= i < j < |pts| ==> pts[i].t < pts[j].t
  }
}
