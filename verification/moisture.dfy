/** `get_moisture`, identical in both back-ends: the device's current
    reading, the reading before it and a one-hour-ahead estimate, each
    emitted as a number rounded to two decimals or as null. */
module CurrentReading {
  import opened Numeric
  import opened Readings

  /** The JSON object `{last_hour, current, next_hour}`. */
  datatype Moisture = Moisture(lastHour: Option<real>, current: Option<real>, nextHour: Option<real>)

  /** The value of an optional row, as `float(row[0]) if row else None`. */
  function ValueOf(r: Option<Reading>): (v: Option<real>)
    ensures v.Some? <==> r.Some?
    ensures v.Some? ==> v.value == r.value.value
  {
    if r.Some? then Some(r.value.value) else None
  }

  /** `next_hour_value`: the midpoint of the same-hour mean and the current
      value when both are truthy, otherwise the current value. */
  function NextHourValue(avg: Option<real>, current: real): (v: real)
    ensures Truthy(avg) && current != 0.0 ==> Between(v, current, avg.value) && v - avg.value == (current - avg.value) / 2.0
    ensures !Truthy(avg) || current == 0.0 ==> v == current
  {
    if Truthy(avg) && current != 0.0 then (avg.value + current) / 2.0 else current
  }

  /** The three-day mean of the current reading's own clock hour, as the
      code queries it (`current_timestamp.hour`, not the next hour). */
  function CurrentHourMean(rows: seq<Reading>, device: string, cur: Reading): (m: Option<real>)
    ensures m.None? <==> forall x :: x in rows && x.device == device && x.t >= cur.t - ThreeDays ==>
                          HourOfDay(x.t) != HourOfDay(cur.t)
  {
    SameHourMean(rows, device, cur.t - ThreeDays, HourOfDay(cur.t))
  }

  /** What `get_moisture` returns for a device. With no reading, the
      previous-reading query compares against NULL and matches nothing, and
      `next_hour` is None, so every field is null. Otherwise `last_hour` is
      the latest reading strictly before the current one, and `next_hour`
      blends the current value with its hour's three-day mean. Every field
      goes through `round(x, 2) if x else None`, so 0 is null. */
  function Summary(rows: seq<Reading>, device: string): (m: Moisture)
    ensures (forall x :: x in rows ==> x.device != device) ==> m == Moisture(None, None, None)
    ensures m.current.None? <==> Latest(rows, device).None? || Latest(rows, device).value.value == 0.0
    ensures Latest(rows, device).Some? ==>
      var cur := Latest(rows, device).value;
      && m.current == EmitTruthy(Some(cur.value))
      && m.lastHour == EmitTruthy(ValueOf(Previous(rows, device, cur.t)))
      && m.nextHour == EmitTruthy(Some(NextHourValue(CurrentHourMean(rows, device, cur), cur.value)))
  {
    match Latest(rows, device)
    case None => Moisture(None, None, None)
    case Some(cur) =>
      var prev := Previous(rows, device, cur.t);
      var avg := CurrentHourMean(rows, device, cur);
      Moisture(EmitTruthy(ValueOf(prev)), EmitTruthy(Some(cur.value)), EmitTruthy(Some(NextHourValue(avg, cur.value))))
  }

  /** `last_hour` is null exactly when no reading of the device precedes the
      current one or the one just before it is 0; otherwise it is that
      reading rounded. */
  lemma LastHourIsPrevious(rows: seq<Reading>, device: string)
    requires Latest(rows, device).Some?
    ensures var cur := Latest(rows, device).value;
      var m := Summary(rows, device);
      && (m.lastHour.None? <==>
          (forall x :: x in rows && x.device == device ==> x.t >= cur.t) || Previous(rows, device, cur.t).value.value == 0.0)
      && (m.lastHour.Some? ==>
          var p := Previous(rows, device, cur.t).value;
          && p.t < cur.t
          && (forall x :: x in rows && x.device == device && x.t < cur.t ==> x.t <= p.t)
          && m.lastHour == Some(Round2(p.value)))
  {
  }

  /** With a truthy current value and a truthy mean of its hour, `next_hour`
      is their rounded midpoint, which lies between the rounded current value
      and the rounded mean; otherwise it repeats `current`. */
  lemma NextHourBlend(rows: seq<Reading>, device: string, cur: Reading)
    requires Latest(rows, device) == Some(cur)
    ensures var avg := CurrentHourMean(rows, device, cur);
      var m := Summary(rows, device);
      && (Truthy(avg) && cur.value != 0.0 ==>
            && m.nextHour == EmitTruthy(Some((avg.value + cur.value) / 2.0))
            && (m.nextHour.Some? ==> Between(m.nextHour.value, Round2(cur.value), Round2(avg.value))))
      && (!Truthy(avg) || cur.value == 0.0 ==> m.nextHour == m.current)
  {
    BlendRounded(CurrentHourMean(rows, device, cur), cur.value);
  }

  /** `next_hour` as emitted, from the mean of the hour and the current value. */
  lemma BlendRounded(avg: Option<real>, c: real)
    ensures var e := EmitTruthy(Some(NextHourValue(avg, c)));
      && (Truthy(avg) && c != 0.0 ==>
            && e == EmitTruthy(Some((avg.value + c) / 2.0))
            && (e.Some? ==> Between(e.value, Round2(c), Round2(avg.value))))
      && (!Truthy(avg) || c == 0.0 ==> e == EmitTruthy(Some(c)))
  {
    if Truthy(avg) && c != 0.0 {
      MidpointRounded(c, avg.value);
    }
  }

  /** Rounding keeps a midpoint between its rounded ends. */
  lemma MidpointRounded(a: real, b: real)
    ensures Between(Round2((b + a) / 2.0), Round2(a), Round2(b))
  {
    var v := (b + a) / 2.0;
    if a <= b {
      Round2Monotone(a, v);
      Round2Monotone(v, b);
    } else {
      Round2Monotone(b, v);
      Round2Monotone(v, a);
    }
  }

  /** When every reading of the device lies in [lo, hi] (both with two
      decimals), so does every non-null field. */
  lemma SummaryWithinRange(rows: seq<Reading>, device: string, lo: real, hi: real)
    requires OnCentGrid(lo) && OnCentGrid(hi)
    requires forall x :: x in rows && x.device == device ==> lo <= x.value <= hi
    ensures var m := Summary(rows, device);
      && (m.lastHour.Some? ==> lo <= m.lastHour.value <= hi)
      && (m.current.Some? ==> lo <= m.current.value <= hi)
      && (m.nextHour.Some? ==> lo <= m.nextHour.value <= hi)
  {
    if Latest(rows, device).Some? {
      var cur := Latest(rows, device).value;
      CurrentHourMeanWithin(rows, device, cur, lo, hi);
      PreviousWithin(rows, device, cur.t, lo, hi);
      SummaryFieldsWithin(rows, device, cur, lo, hi);
    }
  }

  /** The fields of the answer stay within the bounds its three inputs keep. */
  lemma SummaryFieldsWithin(rows: seq<Reading>, device: string, cur: Reading, lo: real, hi: real)
    requires Latest(rows, device) == Some(cur)
    requires OnCentGrid(lo) && OnCentGrid(hi)
    requires lo <= cur.value <= hi
    requires Previous(rows, device, cur.t).Some? ==> lo <= Previous(rows, device, cur.t).value.value <= hi
    requires CurrentHourMean(rows, device, cur).Some? ==> lo <= CurrentHourMean(rows, device, cur).value <= hi
    ensures var m := Summary(rows, device);
      && (m.lastHour.Some? ==> lo <= m.lastHour.value <= hi)
      && (m.current.Some? ==> lo <= m.current.value <= hi)
      && (m.nextHour.Some? ==> lo <= m.nextHour.value <= hi)
  {
    var avg := CurrentHourMean(rows, device, cur);
    EmittedWithin(ValueOf(Previous(rows, device, cur.t)), lo, hi);
    EmittedWithin(Some(cur.value), lo, hi);
    NextHourWithin(avg, cur.value, lo, hi);
    EmittedWithin(Some(NextHourValue(avg, cur.value)), lo, hi);
  }

  /** The mean of the current hour stays within bounds every reading keeps. */
  lemma CurrentHourMeanWithin(rows: seq<Reading>, device: string, cur: Reading, lo: real, hi: real)
    requires forall x :: x in rows && x.device == device ==> lo <= x.value <= hi
    ensures CurrentHourMean(rows, device, cur).Some? ==> lo <= CurrentHourMean(rows, device, cur).value <= hi
  {
    SameHourMeanWithin(rows, device, cur.t - ThreeDays, HourOfDay(cur.t), lo, hi);
  }

  /** The previous reading stays within bounds every reading keeps. */
  lemma PreviousWithin(rows: seq<Reading>, device: string, before: int, lo: real, hi: real)
    requires forall x :: x in rows && x.device == device ==> lo <= x.value <= hi
    ensures Previous(rows, device, before).Some? ==> lo <= Previous(rows, device, before).value.value <= hi
  {
  }

  /** The blend of two values within bounds is within them. */
  lemma NextHourWithin(avg: Option<real>, c: real, lo: real, hi: real)
    requires lo <= c <= hi
    requires avg.Some? ==> lo <= avg.value <= hi
    ensures lo <= NextHourValue(avg, c) <= hi
  {
  }

  /** An emitted value stays within two-decimal bounds that hold before rounding. */
  lemma EmittedWithin(v: Option<real>, lo: real, hi: real)
    requires OnCentGrid(lo) && OnCentGrid(hi)
    requires v.Some? ==> lo <= v.value <= hi
    ensures EmitTruthy(v).Some? ==> lo <= EmitTruthy(v).value <= hi
  {
    if v.Some? {
      Round2Within(v.value, lo, hi);
    }
  }
}
