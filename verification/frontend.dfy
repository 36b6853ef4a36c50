/** Frontend/backend/app.py: the read side of the second Flask back-end.
    Its rollups are anchored to `now` (NOW() in SQL), two of them behind a
    COUNT(*) guard; its 24-hour rollup uses two-hour epoch buckets; its
    forecast takes each of the next twelve clock hours on its own. */
module FrontendApp {
  import opened Numeric
  import opened Readings
  import opened Rollup
  import BackendApp

  /** `SELECT COUNT(*) ... WHERE device_id = d AND timestamp >= from`. */
  function CountSince(rows: seq<Reading>, device: string, from: int): (n: nat)
    ensures n == 0 <==> forall x :: x in rows && x.device == device ==> x.t < from
  {
    var w := SinceWindow(rows, device, from);
    assert w != [] ==> w[0] in w;
    |w|
  }

  /** The two guarded endpoints: an empty list when the COUNT(*) is zero,
      otherwise the GROUP BY over the same window. */
  function GuardedRollup(rows: seq<Reading>, device: string, from: int, g: Granularity): (pts: seq<Point>)
    ensures pts == [] <==> forall x :: x in rows && x.device == device ==> x.t < from
    ensures IsRollupOf(pts, SinceWindow(rows, device, from), g)
  {
    var window := SinceWindow(rows, device, from);
    EmittedRollup(window, g);
    if CountSince(rows, device, from) == 0 then
      assert window == [];
      []
    else
      EmitBuckets(GroupBy(window, g))
  }

  /** The COUNT(*) guard never changes the answer: with no row in the
      window the GROUP BY yields no row either. */
  lemma CountGuardRedundant(rows: seq<Reading>, device: string, from: int, g: Granularity)
    ensures GuardedRollup(rows, device, from, g) == EmitBuckets(GroupBy(SinceWindow(rows, device, from), g))
  {
    var window := SinceWindow(rows, device, from);
    if CountSince(rows, device, from) == 0 {
      assert window == [];
      assert GroupBy(window, g) == [];
    }
  }

  /** `get_last_12h`: hour buckets over every reading of the device from
      twelve hours before `now` on (the query has no upper bound). */
  function LastTwelveHours(rows: seq<Reading>, device: string, now: int): (pts: seq<Point>)
    ensures pts == [] <==> forall x :: x in rows && x.device == device ==> x.t < now - TwelveHours
    ensures IsRollupOf(pts, SinceWindow(rows, device, now - TwelveHours), Hour)
  {
    GuardedRollup(rows, device, now - TwelveHours, Hour)
  }

  /** With no reading after `now`, the 12-hour rollup has at most 13 hour buckets. */
  lemma LastTwelveHoursCount(rows: seq<Reading>, device: string, now: int)
    requires forall x :: x in rows && x.device == device ==> x.t <= now
    ensures |LastTwelveHours(rows, device, now)| <= 13
  {
    GuardedRollupLength(rows, device, now - TwelveHours, Hour);
    SinceBucketCount(rows, device, now, Hour, 12);
    assert now - 12 * Hour.Seconds() == now - TwelveHours;
  }

  /** A guarded rollup has one point per GROUP BY row. */
  lemma GuardedRollupLength(rows: seq<Reading>, device: string, from: int, g: Granularity)
    ensures |GuardedRollup(rows, device, from, g)| == |GroupBy(SinceWindow(rows, device, from), g)|
  {
    var window := SinceWindow(rows, device, from);
    CountGuardRedundant(rows, device, from, g);
    assert |EmitBuckets(GroupBy(window, g))| == |GroupBy(window, g)|;
  }

  /** `FLOOR(EXTRACT(EPOCH FROM timestamp) / 7200)::INTEGER * 7200`: the
      two-hour key is the floor of `t / 7200` scaled back, at most `t` and
      less than two hours below it. */
  lemma TwoHourKey(t: int)
    ensures BucketStart(t, TwoHours) == (t / 7200) * 7200
    ensures BucketStart(t, TwoHours) <= t < BucketStart(t, TwoHours) + 7200
  {
  }

  /** The range of PostgreSQL's `integer`. */
  const IntegerMin := -0x8000_0000
  const IntegerMax := 0x7fff_ffff

  /** `FLOOR(EXTRACT(EPOCH FROM timestamp) / 7200)::INTEGER * 7200`: the cast
      binds to `FLOOR(...)`, so the product is an `integer` product and
      raises "integer out of range" when it leaves 32 bits. */
  predicate TwoHourKeyOverflows(t: int) {
    !(IntegerMin <= (t / 7200) * 7200 <= IntegerMax)
  }

  /** The two-hour key fits exactly for times in [-2147479200, 2147486400):
      the first time whose key overflows is 2038-01-19 04:00:00. */
  lemma TwoHourKeyRange(t: int)
    ensures TwoHourKeyOverflows(t) <==> t < -2147479200 || t >= 2147486400
  {
    var q := t / 7200;
    assert q * 7200 <= t < q * 7200 + 7200;
    if t >= 2147486400 {
      assert q >= 298262;
    } else if t >= -2147479200 {
      assert -298261 <= q <= 298261;
    } else {
      assert q <= -298262;
    }
  }

  /** What an endpoint answers: a JSON list, or the 500 sent when the
      database raises an error. */
  datatype Answer = Served(pts: seq<Point>) | DatabaseError

  /** `get_last_24h`: two-hour epoch buckets over every reading of the device
      from 24 hours before `now` on. A reading in that window whose key
      overflows `integer` (any reading stamped from 2038-01-19 04:00:00 on,
      as the window has no upper bound) makes the GROUP BY fail. */
  function LastTwentyFourHours(rows: seq<Reading>, device: string, now: int): (a: Answer)
    ensures a.DatabaseError? <==>
      exists x :: x in rows && x.device == device && x.t >= now - DaySeconds && (x.t < -2147479200 || x.t >= 2147486400)
    ensures a.Served? ==> (a.pts == [] <==> forall x :: x in rows && x.device == device ==> x.t < now - DaySeconds)
    ensures a.Served? ==> IsRollupOf(a.pts, SinceWindow(rows, device, now - DaySeconds), TwoHours)
  {
    var window := SinceWindow(rows, device, now - DaySeconds);
    forall x | x in window
      ensures TwoHourKeyOverflows(x.t) <==> x.t < -2147479200 || x.t >= 2147486400
    {
      TwoHourKeyRange(x.t);
    }
    if exists x :: x in window && TwoHourKeyOverflows(x.t) then DatabaseError
    else Served(GuardedRollup(rows, device, now - DaySeconds, TwoHours))
  }

  /** With no reading after `now`, a served 24-hour rollup has at most 13
      two-hour buckets. */
  lemma LastTwentyFourHoursCount(rows: seq<Reading>, device: string, now: int)
    requires forall x :: x in rows && x.device == device ==> x.t <= now
    ensures LastTwentyFourHours(rows, device, now).Served? ==> |LastTwentyFourHours(rows, device, now).pts| <= 13
  {
    GuardedRollupLength(rows, device, now - DaySeconds, TwoHours);
    SinceBucketCount(rows, device, now, TwoHours, 12);
    assert now - 12 * TwoHours.Seconds() == now - DaySeconds;
  }

  /** `get_last_7d`: day buckets over every reading of the device from seven
      days before `now` on. The comprehension rounds every mean without a
      null check, which is safe: a day bucket exists only because it holds a
      reading, so its mean is never null. */
  function LastSevenDays(rows: seq<Reading>, device: string, now: int): (pts: seq<Point>)
    ensures pts == [] <==> forall x :: x in rows && x.device == device ==> x.t < now - SevenDays
    ensures IsRollupOf(pts, SinceWindow(rows, device, now - SevenDays), Day)
    ensures forall i :: 0 <= i < |pts| ==> pts[i].value.Some?
  {
    var window := SinceWindow(rows, device, now - SevenDays);
    var bs := GroupBy(window, Day);
    var pts := seq(|bs|, i requires 0 <= i < |bs| => Point(bs[i].start, Some(Round2(bs[i].avg.value))));
    EmittedRollup(window, Day);
    assert pts == EmitBuckets(bs);
    pts
  }

  /** With no reading after `now`, the 7-day rollup has at most 8 day buckets. */
  lemma LastSevenDaysCount(rows: seq<Reading>, device: string, now: int)
    requires forall x :: x in rows && x.device == device ==> x.t <= now
    ensures |LastSevenDays(rows, device, now)| <= 8
  {
    var window := SinceWindow(rows, device, now - SevenDays);
    SinceBucketCount(rows, device, now, Day, 7);
    assert now - 7 * Day.Seconds() == now - SevenDays;
    assert |LastSevenDays(rows, device, now)| == |GroupBy(window, Day)|;
  }

  /** The missing null check is harmless: both back-ends answer the 7-day
      rollup with the same list. */
  lemma SevenDaysAgree(rows: seq<Reading>, device: string, now: int)
    ensures LastSevenDays(rows, device, now) == BackendApp.LastSevenDays(rows, device, now)
  {
    RollupUnique(LastSevenDays(rows, device, now), BackendApp.LastSevenDays(rows, device, now),
      SinceWindow(rows, device, now - SevenDays), Day);
  }

  /** Point `k` of `get_next_12h`: the time `now + k` hours and the rounded
      3-day mean of the clock hour `(now.hour + k) % 24`, null when that
      mean is NULL or zero. */
  function OutlookPoint(rows: seq<Reading>, device: string, now: int, k: int): (p: Point)
    ensures p.t == now + k * HourSeconds
    ensures p.value == EmitTruthy(SameHourMean(rows, device, now - ThreeDays, HourOfDay(p.t)))
  {
    HourOfDayShift(now, k);
    Point(now + k * HourSeconds, EmitTruthy(SameHourMean(rows, device, now - ThreeDays, (HourOfDay(now) + k) % 24)))
  }

  /** What `get_next_12h` returns: twelve points, one per hour offset
      0..11, each the climatology of its own clock hour and nothing else. */
  function Outlook(rows: seq<Reading>, device: string, now: int): (pts: seq<Point>)
    ensures |pts| == 12 && StrictlyIncreasingTimes(pts)
    ensures forall k :: 0 <= k < 12 ==> pts[k].t == now + k * HourSeconds
    ensures forall k :: 0 <= k < 12 ==>
      pts[k].value == EmitTruthy(SameHourMean(rows, device, now - ThreeDays, HourOfDay(pts[k].t)))
  {
    seq(12, k requires 0 <= k < 12 => OutlookPoint(rows, device, now, k))
  }

  /** The loop of `get_next_12h`: one query per hour offset, appended in order. */
  method NextTwelveHours(rows: seq<Reading>, device: string, now: int) returns (result: seq<Point>)
    ensures result == Outlook(rows, device, now)
  {
    result := [];
    for hourOffset := 0 to 12
      invariant |result| == hourOffset
      invariant forall k :: 0 <= k < hourOffset ==> result[k] == OutlookPoint(rows, device, now, k)
    {
      var targetHour := (HourOfDay(now) + hourOffset) % 24;
      var avg := SameHourMean(rows, device, now - ThreeDays, targetHour);
      var value := if Truthy(avg) then Some(Round2(avg.value)) else None;
      result := result + [Point(now + hourOffset * HourSeconds, value)];
    }
    OutlookPoints(rows, device, now, result);
  }

  /** Twelve points that agree with the outlook hour by hour are the outlook. */
  lemma OutlookPoints(rows: seq<Reading>, device: string, now: int, pts: seq<Point>)
    requires |pts| == 12
    requires forall k :: 0 <= k < 12 ==> pts[k] == OutlookPoint(rows, device, now, k)
    ensures pts == Outlook(rows, device, now)
  {
    var o := Outlook(rows, device, now);
    assert forall k :: 0 <= k < 12 ==> o[k] == OutlookPoint(rows, device, now, k);
  }

  /** Points are independent: adding rows that are not the device's readings
      of point `k`'s clock hour within the three days leaves point `k` as it is. */
  lemma OutlookPointIgnores(rows: seq<Reading>, extra: seq<Reading>, device: string, now: int, k: int)
    requires 0 <= k < 12
    requires forall x :: x in extra ==>
      x.device != device || x.t < now - ThreeDays || HourOfDay(x.t) != HourOfDay(now + k * HourSeconds)
    ensures Outlook(rows + extra, device, now)[k] == Outlook(rows, device, now)[k]
  {
    SameHourMeanIgnores(rows, extra, device, now - ThreeDays, HourOfDay(now + k * HourSeconds));
    OutlookAt(rows, device, now, k);
    OutlookAt(rows + extra, device, now, k);
  }

  /** Point `k` of the outlook, by its offset from `now`. */
  lemma OutlookAt(rows: seq<Reading>, device: string, now: int, k: int)
    requires 0 <= k < 12
    ensures Outlook(rows, device, now)[k] ==
      Point(now + k * HourSeconds, EmitTruthy(SameHourMean(rows, device, now - ThreeDays, HourOfDay(now + k * HourSeconds))))
  {
    var p := OutlookPoint(rows, device, now, k);
    assert Outlook(rows, device, now)[k] == p;
  }

  /** A device with no reading in the three days before `now` is still
      answered with twelve points, every one of them null. */
  lemma OutlookWithoutHistory(rows: seq<Reading>, device: string, now: int)
    requires forall x :: x in rows && x.device == device ==> x.t < now - ThreeDays
    ensures forall k :: 0 <= k < 12 ==> Outlook(rows, device, now)[k].value.None?
  {
  }

  /** When every reading of the device lies in [lo, hi] (both with two
      decimals), so does every non-null outlook value. */
  lemma OutlookWithinRange(rows: seq<Reading>, device: string, now: int, lo: real, hi: real)
    requires OnCentGrid(lo) && OnCentGrid(hi)
    requires forall x :: x in rows && x.device == device ==> lo <= x.value <= hi
    ensures forall k :: 0 <= k < 12 && Outlook(rows, device, now)[k].value.Some? ==>
      lo <= Outlook(rows, device, now)[k].value.value <= hi
  {
    var pts := Outlook(rows, device, now);
    forall k | 0 <= k < 12 && pts[k].value.Some? ensures lo <= pts[k].value.value <= hi {
      var m := SameHourMean(rows, device, now - ThreeDays, HourOfDay(pts[k].t));
      SameHourMeanWithin(rows, device, now - ThreeDays, HourOfDay(pts[k].t), lo, hi);
      Round2Within(m.value, lo, hi);
    }
  }
}
