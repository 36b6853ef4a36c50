/** Backend/app.py: the read side of the first Flask back-end. Its 12-hour
    rollup is anchored to the device's latest reading, its 24-hour rollup
    uses hour buckets, and its forecast is recursive: each step's blended
    prediction is the next step's baseline. */
module BackendApp {
  import opened Numeric
  import opened Readings
  import opened Rollup

  /** `get_last_12h`: hour buckets over the twelve hours up to the device's
      latest reading, both ends included; an empty list when the device has
      no reading. */
  function LastTwelveHours(rows: seq<Reading>, device: string): (pts: seq<Point>)
    ensures pts == [] <==> forall x :: x in rows ==> x.device != device
    ensures Latest(rows, device).Some? ==>
      IsRollupOf(pts, BoundedWindow(rows, device, Latest(rows, device).value.t - TwelveHours, Latest(rows, device).value.t), Hour)
    ensures |pts| <= 13
  {
    var latest := Latest(rows, device);
    if latest.None? then []
    else
      var t := latest.value.t;
      assert latest.value in BoundedWindow(rows, device, t - TwelveHours, t);
      TwelveHourRollup(rows, device, t)
  }

  /** The hour rollup of the twelve hours up to `t`, both ends included: at
      most thirteen buckets, since the window touches thirteen clock hours. */
  function TwelveHourRollup(rows: seq<Reading>, device: string, t: int): (pts: seq<Point>)
    ensures IsRollupOf(pts, BoundedWindow(rows, device, t - TwelveHours, t), Hour)
    ensures pts == [] <==> BoundedWindow(rows, device, t - TwelveHours, t) == []
    ensures |pts| <= 13
  {
    var window := BoundedWindow(rows, device, t - TwelveHours, t);
    EmittedRollup(window, Hour);
    GroupByCount(window, Hour, t, 12);
    var pts := EmitBuckets(GroupBy(window, Hour));
    assert |pts| == |GroupBy(window, Hour)|;
    pts
  }

  /** `get_last_24h`: hour buckets over every reading of the device from
      24 hours before `now` on (the query has no upper bound). */
  function LastTwentyFourHours(rows: seq<Reading>, device: string, now: int): (pts: seq<Point>)
    ensures pts == [] <==> forall x :: x in rows && x.device == device ==> x.t < now - DaySeconds
    ensures IsRollupOf(pts, SinceWindow(rows, device, now - DaySeconds), Hour)
  {
    var window := SinceWindow(rows, device, now - DaySeconds);
    EmittedRollup(window, Hour);
    EmitBuckets(GroupBy(window, Hour))
  }

  /** With no reading after `now`, the 24-hour rollup has at most 25 hour buckets. */
  lemma LastTwentyFourHoursCount(rows: seq<Reading>, device: string, now: int)
    requires forall x :: x in rows && x.device == device ==> x.t <= now
    ensures |LastTwentyFourHours(rows, device, now)| <= 25
  {
    var window := SinceWindow(rows, device, now - DaySeconds);
    SinceBucketCount(rows, device, now, Hour, 24);
    assert now - 24 * Hour.Seconds() == now - DaySeconds;
    assert |LastTwentyFourHours(rows, device, now)| == |GroupBy(window, Hour)|;
  }

  /** `get_last_7d`: day buckets (`DATE(timestamp)`) over every reading of the
      device from seven days before `now` on. */
  function LastSevenDays(rows: seq<Reading>, device: string, now: int): (pts: seq<Point>)
    ensures pts == [] <==> forall x :: x in rows && x.device == device ==> x.t < now - SevenDays
    ensures IsRollupOf(pts, SinceWindow(rows, device, now - SevenDays), Day)
  {
    var window := SinceWindow(rows, device, now - SevenDays);
    EmittedRollup(window, Day);
    EmitBuckets(GroupBy(window, Day))
  }

  /** With no reading after `now`, the 7-day rollup has at most 8 day buckets. */
  lemma LastSevenDaysCount(rows: seq<Reading>, device: string, now: int)
    requires forall x :: x in rows && x.device == device ==> x.t <= now
    ensures |LastSevenDays(rows, device, now)| <= 8
  {
    var window := SinceWindow(rows, device, now - SevenDays);
    SinceBucketCount(rows, device, now, Day, 7);
    assert now - 7 * Day.Seconds() == now - SevenDays;
    assert |LastSevenDays(rows, device, now)| == |GroupBy(window, Day)|;
  }

  /** The historical mean of forecast step `i`: the device's readings from
      three days before `t0` on whose hour of day is that of `t0 + i` hours. */
  function StepMean(rows: seq<Reading>, device: string, t0: int, i: int): (m: Option<real>)
  {
    SameHourMean(rows, device, t0 - ThreeDays, HourOfDay(t0 + i * HourSeconds))
  }

  /** `(avg + current_value) / 2` when the mean is truthy, else `current_value`. */
  function Blend(mean: Option<real>, baseline: real): (v: real)
  {
    if Truthy(mean) then (mean.value + baseline) / 2.0 else baseline
  }

  /** The unrounded prediction after `i` steps from the latest reading
      `(t0, v0)`: each step blends the previous step's prediction, not `v0`. */
  function Predicted(rows: seq<Reading>, device: string, t0: int, v0: real, i: nat): real {
    if i == 0 then v0 else Blend(StepMean(rows, device, t0, i), Predicted(rows, device, t0, v0, i - 1))
  }

  /** What `get_next_12h` returns: nothing for a device without readings,
      otherwise the forecast from its latest reading. */
  function Forecast(rows: seq<Reading>, device: string): (pts: seq<Point>)
    ensures pts == [] <==> forall x :: x in rows ==> x.device != device
    ensures pts != [] ==> |pts| == 12 && StrictlyIncreasingTimes(pts)
    ensures Latest(rows, device).Some? ==>
      forall j :: 0 <= j < |pts| ==> pts[j].t == Latest(rows, device).value.t + (j + 1) * HourSeconds && pts[j].value.Some?
  {
    match Latest(rows, device)
    case None => []
    case Some(r) => ForecastFrom(rows, device, r.t, r.value)
  }

  /** Twelve points one hour apart after `t0`, each the rounded prediction of its step. */
  function ForecastFrom(rows: seq<Reading>, device: string, t0: int, v0: real): (pts: seq<Point>)
    ensures |pts| == 12
    ensures forall j :: 0 <= j < 12 ==> pts[j].t == t0 + (j + 1) * HourSeconds
    ensures forall j :: 0 <= j < 12 ==> pts[j].value.Some?
  {
    seq(12, j requires 0 <= j < 12 => ForecastPoint(rows, device, t0, v0, j + 1))
  }

  /** The point of forecast step `i`. */
  function ForecastPoint(rows: seq<Reading>, device: string, t0: int, v0: real, i: nat): (p: Point)
    ensures p.t == t0 + i * HourSeconds && p.value.Some? && OnCentGrid(p.value.value)
    ensures Predicted(rows, device, t0, v0, i) - 0.005 <= p.value.value <= Predicted(rows, device, t0, v0, i) + 0.005
  {
    Point(t0 + i * HourSeconds, Some(Round2(Predicted(rows, device, t0, v0, i))))
  }

  /** `get_next_12h`: the forecast from the device's latest reading, or
      nothing when the device has none. */
  method NextTwelveHours(rows: seq<Reading>, device: string) returns (predictions: seq<Point>)
    ensures predictions == Forecast(rows, device)
  {
    var current := Latest(rows, device);
    if current.None? {
      return [];
    }
    predictions := PredictionLoop(rows, device, current.value.t, current.value.value);
  }

  /** The loop of `get_next_12h`: `current_value` carries the unrounded
      prediction from one hour to the next; only the emitted value is rounded. */
  method PredictionLoop(rows: seq<Reading>, device: string, t0: int, v0: real) returns (predictions: seq<Point>)
    ensures predictions == ForecastFrom(rows, device, t0, v0)
  {
    var currentValue := v0;
    predictions := [];
    for i := 1 to 13
      invariant |predictions| == i - 1
      invariant currentValue == Predicted(rows, device, t0, v0, i - 1)
      invariant forall j :: 0 <= j < i - 1 ==> predictions[j] == ForecastPoint(rows, device, t0, v0, j + 1)
    {
      var predicted, point := PredictionLoopBody(rows, device, t0, v0, i, currentValue);
      ForecastPointsExtend(rows, device, t0, v0, predictions, point);
      predictions := predictions + [point];
      currentValue := predicted;
    }
    ForecastFromPoints(rows, device, t0, v0, predictions);
  }

  /** The body of the loop for hour `i`: the mean of the target hour, the
      blend with the running `current_value`, and the rounded point. */
  method PredictionLoopBody(rows: seq<Reading>, device: string, t0: int, v0: real, i: nat, currentValue: real)
    returns (predicted: real, point: Point)
    requires i >= 1 && currentValue == Predicted(rows, device, t0, v0, i - 1)
    ensures predicted == Predicted(rows, device, t0, v0, i)
    ensures point == ForecastPoint(rows, device, t0, v0, i)
  {
    var targetHour := HourOfDay(t0 + i * HourSeconds);
    var avg := SameHourMean(rows, device, t0 - ThreeDays, targetHour);
    predicted := if Truthy(avg) then (avg.value + currentValue) / 2.0 else currentValue;
    PredictionLoopStep(rows, device, t0, v0, i, currentValue);
    point := Point(t0 + i * HourSeconds, Some(Round2(predicted)));
  }

  /** Appending the point of the next step keeps a prefix of the forecast. */
  lemma ForecastPointsExtend(rows: seq<Reading>, device: string, t0: int, v0: real, pts: seq<Point>, p: Point)
    requires forall j :: 0 <= j < |pts| ==> pts[j] == ForecastPoint(rows, device, t0, v0, j + 1)
    requires p == ForecastPoint(rows, device, t0, v0, |pts| + 1)
    ensures forall j :: 0 <= j < |pts| + 1 ==> (pts + [p])[j] == ForecastPoint(rows, device, t0, v0, j + 1)
  {
  }

  /** Twelve points that agree with the forecast step by step are the forecast. */
  lemma ForecastFromPoints(rows: seq<Reading>, device: string, t0: int, v0: real, pts: seq<Point>)
    requires |pts| == 12
    requires forall j :: 0 <= j < 12 ==> pts[j] == ForecastPoint(rows, device, t0, v0, j + 1)
    ensures pts == ForecastFrom(rows, device, t0, v0)
  {
    var f := ForecastFrom(rows, device, t0, v0);
    assert forall j :: 0 <= j < 12 ==> f[j] == ForecastPoint(rows, device, t0, v0, j + 1);
  }

  /** One pass of the loop body computes the next step's prediction. */
  lemma PredictionLoopStep(rows: seq<Reading>, device: string, t0: int, v0: real, i: nat, currentValue: real)
    requires i >= 1 && currentValue == Predicted(rows, device, t0, v0, i - 1)
    ensures var avg := SameHourMean(rows, device, t0 - ThreeDays, HourOfDay(t0 + i * HourSeconds));
      (if Truthy(avg) then (avg.value + currentValue) / 2.0 else currentValue) == Predicted(rows, device, t0, v0, i)
  {
  }

  /** One step: with a truthy mean the prediction lies between the previous
      baseline and the mean, at half the baseline's distance from the mean
      (mean reversion); otherwise the baseline is carried unchanged. */
  lemma PredictionStep(rows: seq<Reading>, device: string, t0: int, v0: real, i: nat)
    requires i >= 1
    ensures var m, prev, p := StepMean(rows, device, t0, i), Predicted(rows, device, t0, v0, i - 1), Predicted(rows, device, t0, v0, i);
      if Truthy(m) then Between(p, prev, m.value) && p - m.value == (prev - m.value) / 2.0
      else p == prev
  {
  }

  /** Every prediction lies in any interval holding `v0` and the truthy means
      of the steps up to it. */
  lemma {:induction false} PredictionWithin(rows: seq<Reading>, device: string, t0: int, v0: real, i: nat, lo: real, hi: real)
    requires lo <= v0 <= hi
    requires forall j :: 1 <= j <= i && Truthy(StepMean(rows, device, t0, j)) ==> lo <= StepMean(rows, device, t0, j).value <= hi
    ensures lo <= Predicted(rows, device, t0, v0, i) <= hi
  {
    if i > 0 {
      PredictionWithin(rows, device, t0, v0, i - 1, lo, hi);
    }
  }

  /** `2^i` as a real. */
  function Pow2(i: nat): (p: real)
    ensures p >= 1.0
  {
    if i == 0 then 1.0 else 2.0 * Pow2(i - 1)
  }

  /** Mean reversion: when every step up to `i` sees the same non-zero mean
      `m`, the distance of the prediction from `m` halves at every step. */
  lemma {:induction false} PredictionConverges(rows: seq<Reading>, device: string, t0: int, v0: real, i: nat, m: real)
    requires m != 0.0
    requires forall j :: 1 <= j <= i ==> StepMean(rows, device, t0, j) == Some(m)
    ensures Predicted(rows, device, t0, v0, i) - m == (v0 - m) / Pow2(i)
  {
    if i > 0 {
      PredictionConverges(rows, device, t0, v0, i - 1, m);
      var prev := Predicted(rows, device, t0, v0, i - 1);
      assert Predicted(rows, device, t0, v0, i) == (m + prev) / 2.0;
      HalveDistance(prev, m, v0 - m, Pow2(i - 1));
    }
  }

  /** Averaging with `m` halves a distance `d / p` from `m`. */
  lemma HalveDistance(prev: real, m: real, d: real, p: real)
    requires p >= 1.0 && prev - m == d / p
    ensures (m + prev) / 2.0 - m == d / (2.0 * p)
  {
    assert (prev - m) * p == d;
    assert ((m + prev) / 2.0 - m) * (2.0 * p) == d;
  }

  /** With no truthy same-hour mean in the first `i` steps, the prediction is `v0`. */
  lemma {:induction false} PredictionCarriesForward(rows: seq<Reading>, device: string, t0: int, v0: real, i: nat)
    requires forall j :: 1 <= j <= i ==> !Truthy(StepMean(rows, device, t0, j))
    ensures Predicted(rows, device, t0, v0, i) == v0
  {
    if i > 0 {
      PredictionCarriesForward(rows, device, t0, v0, i - 1);
    }
  }

  /** Point `j` of the forecast is the rounded prediction of step `j + 1`. */
  lemma ForecastAt(rows: seq<Reading>, device: string, r: Reading, j: int)
    requires Latest(rows, device) == Some(r)
    requires 0 <= j < |Forecast(rows, device)|
    ensures Forecast(rows, device)[j].value == Some(Round2(Predicted(rows, device, r.t, r.value, j + 1)))
  {
    ForecastIsFrom(rows, device, r);
    ForecastFromAt(rows, device, r.t, r.value, j);
  }

  /** A device with a latest reading is forecast from that reading. */
  lemma ForecastIsFrom(rows: seq<Reading>, device: string, r: Reading)
    requires Latest(rows, device) == Some(r)
    ensures Forecast(rows, device) == ForecastFrom(rows, device, r.t, r.value)
  {
  }

  /** Point `j` of a forecast from `(t0, v0)` carries the rounded prediction of step `j + 1`. */
  lemma ForecastFromAt(rows: seq<Reading>, device: string, t0: int, v0: real, j: int)
    requires 0 <= j < 12
    ensures ForecastFrom(rows, device, t0, v0)[j].value == Some(Round2(Predicted(rows, device, t0, v0, j + 1)))
  {
  }

  /** Without same-hour history the forecast is twelve copies of the rounded latest value. */
  lemma ForecastCarriesForward(rows: seq<Reading>, device: string, r: Reading)
    requires Latest(rows, device) == Some(r)
    requires forall j :: 1 <= j <= 12 ==> !Truthy(StepMean(rows, device, r.t, j))
    ensures forall j :: 0 <= j < |Forecast(rows, device)| ==> Forecast(rows, device)[j].value == Some(Round2(r.value))
  {
    var pts := ForecastFrom(rows, device, r.t, r.value);
    ForecastIsFrom(rows, device, r);
    forall j | 0 <= j < 12 ensures pts[j].value == Some(Round2(r.value)) {
      ForecastFromCarried(rows, device, r.t, r.value, j);
    }
  }

  /** Without truthy means in the twelve steps, every point of a forecast repeats `v0` rounded. */
  lemma ForecastFromCarried(rows: seq<Reading>, device: string, t0: int, v0: real, j: int)
    requires forall k :: 1 <= k <= 12 ==> !Truthy(StepMean(rows, device, t0, k))
    requires 0 <= j < 12
    ensures ForecastFrom(rows, device, t0, v0)[j].value == Some(Round2(v0))
  {
    ForecastFromAt(rows, device, t0, v0, j);
    PredictionCarriesForward(rows, device, t0, v0, j + 1);
  }

  /** When every reading of the device lies in [lo, hi] (both with two
      decimals, like the domain [0, 100]), so does every forecast value. */
  lemma ForecastWithinRange(rows: seq<Reading>, device: string, lo: real, hi: real)
    requires OnCentGrid(lo) && OnCentGrid(hi)
    requires forall x :: x in rows && x.device == device ==> lo <= x.value <= hi
    ensures forall j :: 0 <= j < |Forecast(rows, device)| ==>
      lo <= Forecast(rows, device)[j].value.value <= hi
  {
    if Latest(rows, device).Some? {
      var r := Latest(rows, device).value;
      forall j | 0 <= j < |Forecast(rows, device)| ensures lo <= Forecast(rows, device)[j].value.value <= hi {
        ForecastAt(rows, device, r, j);
        PredictedWithinRange(rows, device, r.t, r.value, j + 1, lo, hi);
        Round2Within(Predicted(rows, device, r.t, r.value, j + 1), lo, hi);
      }
    }
  }

  /** Every prediction stays within bounds that hold every reading of the device. */
  lemma PredictedWithinRange(rows: seq<Reading>, device: string, t0: int, v0: real, i: nat, lo: real, hi: real)
    requires lo <= v0 <= hi
    requires forall x :: x in rows && x.device == device ==> lo <= x.value <= hi
    ensures lo <= Predicted(rows, device, t0, v0, i) <= hi
  {
    forall k | 1 <= k <= i
      ensures Truthy(StepMean(rows, device, t0, k)) ==> lo <= StepMean(rows, device, t0, k).value <= hi
    {
      SameHourMeanWithin(rows, device, t0 - ThreeDays, HourOfDay(t0 + k * HourSeconds), lo, hi);
    }
    PredictionWithin(rows, device, t0, v0, i, lo, hi);
  }

  /** A device whose readings all carry the value `c` is forecast at `c`
      for all twelve hours. */
  lemma ForecastOfConstantSeries(rows: seq<Reading>, device: string, c: real)
    requires forall x :: x in rows && x.device == device ==> x.value == c
    ensures forall j :: 0 <= j < |Forecast(rows, device)| ==> Forecast(rows, device)[j].value == Some(Round2(c))
  {
    if Latest(rows, device).Some? {
      var r := Latest(rows, device).value;
      assert forall x :: x in rows && x.device == device ==> c <= x.value <= c;
      forall j | 0 <= j < |Forecast(rows, device)| ensures Forecast(rows, device)[j].value == Some(Round2(c)) {
        ForecastAt(rows, device, r, j);
        PredictedWithinRange(rows, device, r.t, c, j + 1, c, c);
      }
    }
  }
}
