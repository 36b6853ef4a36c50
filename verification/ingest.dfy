/** `insert_moisture`, identical in both back-ends apart from its route: the
    guard on the JSON body and the row the INSERT appends to the table. */
module Ingestion {
  import opened Readings
  import opened CurrentReading

  /** The fields of the JSON body as `data.get(...)` sees them. A timestamp
      that Python finds falsy (absent, null, empty) is `None`; a present one
      is the seconds of the naive timestamp it denotes. */
  datatype Request = Request(deviceId: Option<string>, moistureValue: Option<real>, timestamp: Option<int>)

  /** 400 without a write, or 201 after appending one row. */
  datatype Outcome = Rejected | Stored(row: Reading)

  /** The guard `not device_id or moisture_value is None` and the INSERT
      behind it: a missing or empty device id, or a missing value, is
      rejected; a value of 0 is accepted; an omitted timestamp takes the
      column default, the time of the insert. */
  function Insert(req: Request, now: int): (o: Outcome)
    ensures o.Rejected? <==> req.deviceId.None? || req.deviceId.value == [] || req.moistureValue.None?
    ensures o.Stored? ==> o.row.device == req.deviceId.value && o.row.value == req.moistureValue.value
    ensures o.Stored? ==> o.row.t == (if req.timestamp.Some? then req.timestamp.value else now)
  {
    if req.deviceId.None? || req.deviceId.value == [] || req.moistureValue.None? then Rejected
    else
      var t := if req.timestamp.Some? then req.timestamp.value else now;
      Stored(Reading(req.deviceId.value, req.moistureValue.value, t))
  }

  /** The table after the request: one more row at the end when stored, the
      same table when rejected. */
  function Apply(rows: seq<Reading>, o: Outcome): (r: seq<Reading>)
    ensures o.Rejected? ==> r == rows
    ensures o.Stored? ==> |r| == |rows| + 1 && r[..|rows|] == rows && r[|rows|] == o.row
  {
    if o.Stored? then rows + [o.row] else rows
  }

  /** A row appended after the stored rows of its device, and strictly more
      recent than all of them, is that device's latest reading. */
  lemma {:induction false} LatestAfterAppend(rows: seq<Reading>, r: Reading)
    requires forall x :: x in rows && x.device == r.device ==> x.t < r.t
    ensures Latest(rows + [r], r.device) == Some(r)
  {
    var keep := (x: Reading) => x.device == r.device;
    FilterAppend(rows, [r], keep);
    var s := Filter(rows, keep);
    assert Filter([r], keep) == [r];
    var all := s + [r];
    assert all[..|all| - 1] == s;
    var rest := Newest(s);
    assert rest.Some? ==> rest.value.t < r.t;
  }

  /** Appending a row of another device leaves a device's latest reading as it was. */
  lemma LatestOtherDevice(rows: seq<Reading>, r: Reading, device: string)
    requires r.device != device
    ensures Latest(rows + [r], device) == Latest(rows, device)
  {
    var keep := (x: Reading) => x.device == device;
    FilterAppend(rows, [r], keep);
    assert Filter([r], keep) == [];
    assert Filter(rows + [r], keep) == Filter(rows, keep);
  }

  /** Insert then read: a stored reading without a timestamp, on a device
      whose readings all lie in seconds before `now`, becomes the device's current reading, and
      `get_moisture` reports its value (as null when it is 0). Other devices
      read as before. */
  lemma InsertThenRead(rows: seq<Reading>, req: Request, now: int, other: string)
    requires Insert(req, now).Stored? && req.timestamp.None?
    requires forall x :: x in rows && x.device == req.deviceId.value ==> x.t < now
    requires other != req.deviceId.value
    ensures var after := Apply(rows, Insert(req, now));
      && Latest(after, req.deviceId.value) == Some(Reading(req.deviceId.value, req.moistureValue.value, now))
      && Summary(after, req.deviceId.value).current == EmitTruthy(Some(req.moistureValue.value))
      && Summary(after, other) == Summary(rows, other)
  {
    var r := Insert(req, now).row;
    LatestAfterAppend(rows, r);
    SummaryOtherDevice(rows, r, other);
  }

  /** Appending a row of another device leaves a device's `get_moisture` answer as it was. */
  lemma SummaryOtherDevice(rows: seq<Reading>, r: Reading, device: string)
    requires r.device != device
    ensures Summary(rows + [r], device) == Summary(rows, device)
  {
    LatestOtherDevice(rows, r, device);
    var cur := Latest(rows, device);
    if cur.Some? {
      var c := cur.value;
      PreviousOtherDevice(rows, r, device, c.t);
      SameHourMeanIgnores(rows, [r], device, c.t - ThreeDays, HourOfDay(c.t));
      assert CurrentHourMean(rows + [r], device, c) == CurrentHourMean(rows, device, c);
    }
  }

  /** Appending a row of another device leaves a device's previous reading as it was. */
  lemma PreviousOtherDevice(rows: seq<Reading>, r: Reading, device: string, before: int)
    requires r.device != device
    ensures Previous(rows + [r], device, before) == Previous(rows, device, before)
  {
    var keep := (x: Reading) => x.device == device && x.t < before;
    FilterAppend(rows, [r], keep);
    assert Filter([r], keep) == [];
    assert Filter(rows + [r], keep) == Filter(rows, keep);
  }
}
