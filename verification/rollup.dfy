/** The bucketed rollups: `SELECT AVG(moisture_value), <truncated timestamp>
    ... GROUP BY <truncated timestamp> ORDER BY <truncated timestamp> ASC`
    over the rows a window keeps, and the list comprehension that turns the
    result rows into JSON. */
module Rollup {
  import opened Numeric
  import opened Readings

  /** The three truncations the endpoints group by. */
  datatype Granularity = Hour | TwoHours | Day
  {
    /** The bucket width in seconds. */
    function Seconds(): (w: int)
      ensures w > 0
    {
      match this
      case Hour => HourSeconds
      case TwoHours => 2 * HourSeconds
      case Day => DaySeconds
    }
  }

  /** `DATE_TRUNC('hour', t)`, `FLOOR(EXTRACT(EPOCH FROM t) / 7200) * 7200`
      and `DATE(t)` / `DATE_TRUNC('day', t)`: the start of the bucket holding `t`. */
  function BucketStart(t: int, g: Granularity): int {
    t - t % g.Seconds()
  }

  /** The bucket start is a multiple of the width at most one width below `t`. */
  lemma BucketStartBounds(t: int, g: Granularity)
    ensures BucketStart(t, g) % g.Seconds() == 0
    ensures BucketStart(t, g) <= t < BucketStart(t, g) + g.Seconds()
  {
    match g
    case Hour =>
    case TwoHours =>
    case Day =>
  }

  /** Division by the bucket width, used to count buckets. */
  lemma SlotFacts(g: Granularity, a: int, b: int)
    ensures a <= b ==> a / g.Seconds() <= b / g.Seconds()
    ensures BucketStart(a, g) / g.Seconds() == a / g.Seconds()
    ensures a % g.Seconds() == 0 && b % g.Seconds() == 0 && a < b ==> a / g.Seconds() < b / g.Seconds()
  {
    match g
    case Hour =>
    case TwoHours =>
    case Day =>
  }

  /** A window `n` widths long ending at `t` spans `n` width boundaries. */
  lemma SlotSpan(g: Granularity, t: int, n: int)
    ensures t / g.Seconds() - (t - n * g.Seconds()) / g.Seconds() == n
  {
    match g
    case Hour =>
    case TwoHours =>
    case Day =>
  }

  /** `WHERE device_id = d AND timestamp >= from`: the NOW()-anchored windows,
      which have no upper bound. */
  function SinceWindow(rows: seq<Reading>, device: string, from: int): (w: seq<Reading>)
    ensures forall x :: x in w <==> x in rows && x.device == device && from <= x.t
  {
    Filter(rows, (x: Reading) => x.device == device && from <= x.t)
  }

  /** `WHERE device_id = d AND timestamp >= from AND timestamp <= to`. */
  function BoundedWindow(rows: seq<Reading>, device: string, from: int, to: int): (w: seq<Reading>)
    ensures forall x :: x in w <==> x in rows && x.device == device && from <= x.t <= to
  {
    Filter(rows, (x: Reading) => x.device == device && from <= x.t <= to)
  }

  /** The windows keep every reading of theirs as often as the table holds it. */
  lemma WindowCounts(rows: seq<Reading>, device: string, from: int, to: int)
    ensures forall x :: multiset(SinceWindow(rows, device, from))[x] ==
                        (if x.device == device && from <= x.t then multiset(rows)[x] else 0)
    ensures forall x :: multiset(BoundedWindow(rows, device, from, to))[x] ==
                        (if x.device == device && from <= x.t <= to then multiset(rows)[x] else 0)
  {
    FilterCounts(rows, (x: Reading) => x.device == device && from <= x.t);
    FilterCounts(rows, (x: Reading) => x.device == device && from <= x.t <= to);
  }

  /** With no reading of the device after `to`, the unbounded window from
      `from` and the window [from, to] keep the same rows. */
  lemma {:induction false} WindowsAgree(rows: seq<Reading>, device: string, from: int, to: int)
    requires forall x :: x in rows && x.device == device ==> x.t <= to
    ensures SinceWindow(rows, device, from) == BoundedWindow(rows, device, from, to)
  {
    if rows != [] {
      TailRows(rows);
      WindowsAgree(rows[1..], device, from, to);
    }
  }

  /** One result row of the GROUP BY: the bucket start and `AVG(moisture_value)`. */
  datatype Bucket = Bucket(start: int, avg: Option<real>)

  predicate StrictlyAscending(ks: seq<int>) {
    forall i, j :: 0 <= i < j < |ks| ==> ks[i] < ks[j]
  }

  /** Adds `k` to an ascending list of distinct keys. */
  function InsertKey(k: int, ks: seq<int>): (r: seq<int>)
    requires StrictlyAscending(ks)
    ensures StrictlyAscending(r)
    ensures forall x :: x in r <==> x in ks || x == k
  {
    if ks == [] then [k]
    else if k < ks[0] then [k] + ks
    else if k == ks[0] then ks
    else
      var rest := InsertKey(k, ks[1..]);
      forall j | 0 <= j < |rest| ensures ks[0] < rest[j] {
        assert rest[j] in rest;
        if rest[j] != k {
          var i :| 0 <= i < |ks[1..]| && ks[1..][i] == rest[j];
          assert ks[i + 1] == rest[j];
        }
      }
      [ks[0]] + rest
  }

  /** Some row falls into the bucket starting at `k`. */
  ghost predicate HasKey(rows: seq<Reading>, g: Granularity, k: int) {
    exists x :: x in rows && BucketStart(x.t, g) == k
  }

  lemma HasKeySplit(rows: seq<Reading>, g: Granularity, k: int)
    requires rows != []
    ensures HasKey(rows, g, k) <==> BucketStart(rows[0].t, g) == k || HasKey(rows[1..], g, k)
  {
    TailRows(rows);
    if HasKey(rows, g, k) && BucketStart(rows[0].t, g) != k {
      var x :| x in rows && BucketStart(x.t, g) == k;
      assert x != rows[0];
      assert x in rows[1..];
    }
  }

  /** The distinct bucket starts of the rows, ascending (`GROUP BY ... ORDER BY ... ASC`). */
  function BucketKeys(rows: seq<Reading>, g: Granularity): (ks: seq<int>)
    ensures StrictlyAscending(ks)
    ensures forall k :: k in ks <==> HasKey(rows, g, k)
  {
    if rows == [] then []
    else
      var rest := BucketKeys(rows[1..], g);
      assert forall k :: HasKey(rows, g, k) <==> BucketStart(rows[0].t, g) == k || HasKey(rows[1..], g, k) by {
        forall k ensures HasKey(rows, g, k) <==> BucketStart(rows[0].t, g) == k || HasKey(rows[1..], g, k) {
          HasKeySplit(rows, g, k);
        }
      }
      InsertKey(BucketStart(rows[0].t, g), rest)
  }

  /** The rows of one group. */
  function Group(rows: seq<Reading>, g: Granularity, k: int): seq<Reading> {
    Filter(rows, (x: Reading) => BucketStart(x.t, g) == k)
  }

  /** A bucket that some row falls into has a non-NULL mean. */
  lemma GroupMeanDefined(rows: seq<Reading>, g: Granularity, k: int)
    requires HasKey(rows, g, k)
    ensures Mean(Group(rows, g, k)).Some?
  {
    var x :| x in rows && BucketStart(x.t, g) == k;
    assert x in Group(rows, g, k);
  }

  /** The first row of a non-empty bucket is a row of the table in that bucket. */
  lemma GroupWitness(rows: seq<Reading>, g: Granularity, k: int)
    requires Group(rows, g, k) != []
    ensures Group(rows, g, k)[0] in rows && BucketStart(Group(rows, g, k)[0].t, g) == k
  {
    assert Group(rows, g, k)[0] in Group(rows, g, k);
  }

  /** The position of a key in a list of keys. */
  function KeyIndex(ks: seq<int>, k: int): (i: int)
    requires k in ks
    ensures 0 <= i < |ks| && ks[i] == k
  {
    if ks[0] == k then 0 else 1 + KeyIndex(ks[1..], k)
  }

  /** One result row per key, with the mean of that key's group. */
  function BucketRows(rows: seq<Reading>, g: Granularity, ks: seq<int>): seq<Bucket> {
    seq(|ks|, i requires 0 <= i < |ks| => Bucket(ks[i], Mean(Group(rows, g, ks[i]))))
  }

  /** Every row's bucket has a result row. */
  lemma BucketRowsCover(rows: seq<Reading>, g: Granularity, ks: seq<int>, x: Reading)
    requires ks == BucketKeys(rows, g)
    requires x in rows
    ensures exists i :: 0 <= i < |BucketRows(rows, g, ks)| && BucketRows(rows, g, ks)[i].start == BucketStart(x.t, g)
  {
    assert HasKey(rows, g, BucketStart(x.t, g));
    var i := KeyIndex(ks, BucketStart(x.t, g));
    assert BucketRows(rows, g, ks)[i].start == ks[i];
  }

  /** Every row's bucket has a result row. */
  lemma BucketRowsCoverAll(rows: seq<Reading>, g: Granularity, bs: seq<Bucket>)
    requires bs == BucketRows(rows, g, BucketKeys(rows, g))
    ensures forall x :: x in rows ==> exists i :: 0 <= i < |bs| && bs[i].start == BucketStart(x.t, g)
  {
    forall x | x in rows ensures exists i :: 0 <= i < |bs| && bs[i].start == BucketStart(x.t, g) {
      BucketRowsCover(rows, g, BucketKeys(rows, g), x);
    }
  }

  /** There are result rows exactly when there are rows. */
  lemma BucketRowsEmpty(rows: seq<Reading>, g: Granularity)
    ensures BucketRows(rows, g, BucketKeys(rows, g)) == [] <==> rows == []
  {
    if rows != [] {
      BucketRowsCover(rows, g, BucketKeys(rows, g), rows[0]);
    }
  }

  /** Every result row has a non-NULL mean. */
  lemma BucketRowsDefined(rows: seq<Reading>, g: Granularity)
    ensures forall i :: 0 <= i < |BucketKeys(rows, g)| ==> BucketRows(rows, g, BucketKeys(rows, g))[i].avg.Some?
  {
    var ks := BucketKeys(rows, g);
    forall i | 0 <= i < |ks| ensures BucketRows(rows, g, ks)[i].avg.Some? {
      GroupMeanDefined(rows, g, ks[i]);
    }
  }

  /** The result rows of the GROUP BY: one per non-empty bucket, ascending,
      each with the mean of its rows (never NULL, the column being NOT NULL). */
  function GroupBy(rows: seq<Reading>, g: Granularity): (bs: seq<Bucket>)
    ensures bs == [] <==> rows == []
    ensures forall i, j :: 0 <= i < j < |bs| ==> bs[i].start < bs[j].start
    ensures forall i :: 0 <= i < |bs| ==> Group(rows, g, bs[i].start) != []
    ensures forall x :: x in rows ==> exists i :: 0 <= i < |bs| && bs[i].start == BucketStart(x.t, g)
    ensures forall i :: 0 <= i < |bs| ==> bs[i].avg.Some? && bs[i].avg == Mean(Group(rows, g, bs[i].start))
  {
    var bs := BucketRows(rows, g, BucketKeys(rows, g));
    BucketRowsCoverAll(rows, g, bs);
    BucketRowsDefined(rows, g);
    BucketRowsEmpty(rows, g);
    bs
  }

  /** The comprehension `{'value': round(float(avg), 2) if avg is not None
      else None, 'timestamp': bucket}` over the result rows. */
  function EmitBuckets(bs: seq<Bucket>): (pts: seq<Point>)
    ensures |pts| == |bs|
    ensures forall i :: 0 <= i < |bs| ==> pts[i].t == bs[i].start && (pts[i].value.None? <==> bs[i].avg.None?)
  {
    seq(|bs|, i requires 0 <= i < |bs| => Point(bs[i].start, EmitNullable(bs[i].avg)))
  }

  /** What a rollup endpoint's list says about the rows its WHERE clause kept:
      ascending bucket starts on the width's grid, one per bucket that holds a
      kept row and none other, each with the rounded mean of that bucket's rows. */
  ghost predicate IsRollupOf(pts: seq<Point>, window: seq<Reading>, g: Granularity) {
    && StrictlyIncreasingTimes(pts)
    && (forall i :: 0 <= i < |pts| ==> pts[i].t % g.Seconds() == 0)
    && (forall i :: 0 <= i < |pts| ==> Group(window, g, pts[i].t) != [])
    && (forall x :: x in window ==> exists i :: 0 <= i < |pts| && pts[i].t == BucketStart(x.t, g))
    && (forall i :: 0 <= i < |pts| ==> pts[i].value.Some? && pts[i].value == EmitNullable(Mean(Group(window, g, pts[i].t))))
  }

  /** The emitted rollup of a window is that window's rollup, and empty exactly
      when the window is. */
  lemma EmittedRollup(window: seq<Reading>, g: Granularity)
    ensures IsRollupOf(EmitBuckets(GroupBy(window, g)), window, g)
    ensures EmitBuckets(GroupBy(window, g)) == [] <==> window == []
  {
    var bs := GroupBy(window, g);
    var pts := EmitBuckets(bs);
    EmittedPoints(bs, pts);
    EmittedAligned(window, g, bs, pts);
    EmittedCovers(window, g, bs, pts);
  }

  /** Point `i` of the emitted list is result row `i`. */
  lemma EmittedPoints(bs: seq<Bucket>, pts: seq<Point>)
    requires pts == EmitBuckets(bs)
    ensures |pts| == |bs|
    ensures forall i :: 0 <= i < |pts| ==> pts[i].t == bs[i].start && pts[i].value == EmitNullable(bs[i].avg)
  {
  }

  /** Every emitted time is a multiple of the bucket width. */
  lemma EmittedAligned(window: seq<Reading>, g: Granularity, bs: seq<Bucket>, pts: seq<Point>)
    requires bs == GroupBy(window, g) && pts == EmitBuckets(bs)
    ensures forall i :: 0 <= i < |pts| ==> pts[i].t % g.Seconds() == 0
  {
    EmittedPoints(bs, pts);
    forall i | 0 <= i < |pts| ensures pts[i].t % g.Seconds() == 0 {
      GroupWitness(window, g, bs[i].start);
      BucketStartBounds(Group(window, g, bs[i].start)[0].t, g);
    }
  }

  /** Every row of the window has its bucket among the emitted points. */
  lemma EmittedCovers(window: seq<Reading>, g: Granularity, bs: seq<Bucket>, pts: seq<Point>)
    requires bs == GroupBy(window, g) && pts == EmitBuckets(bs)
    ensures forall x :: x in window ==> exists i :: 0 <= i < |pts| && pts[i].t == BucketStart(x.t, g)
  {
    EmittedPoints(bs, pts);
    forall x | x in window ensures exists i :: 0 <= i < |pts| && pts[i].t == BucketStart(x.t, g) {
      var i :| 0 <= i < |bs| && bs[i].start == BucketStart(x.t, g);
      assert pts[i].t == bs[i].start;
    }
  }

  /** A strictly ascending run of integers in [a, b] has at most b - a + 1 elements. */
  lemma {:induction false} AscendingRun(s: seq<int>, a: int, b: int)
    requires a <= b + 1
    requires StrictlyAscending(s)
    requires forall i :: 0 <= i < |s| ==> a <= s[i] <= b
    ensures |s| <= b - a + 1
  {
    if s != [] {
      assert forall i :: 0 <= i < |s| - 1 ==> s[1..][i] == s[i + 1] && s[0] < s[i + 1];
      AscendingRun(s[1..], a + 1, b);
    }
  }

  /** With no reading of the device after `now`, its readings from `n`
      bucket widths before `now` on fall into at most n + 1 buckets. */
  lemma SinceBucketCount(rows: seq<Reading>, device: string, now: int, g: Granularity, n: nat)
    requires forall x :: x in rows && x.device == device ==> x.t <= now
    ensures |GroupBy(SinceWindow(rows, device, now - n * g.Seconds()), g)| <= n + 1
  {
    GroupByCount(SinceWindow(rows, device, now - n * g.Seconds()), g, now, n);
  }

  /** A product of naturals is non-negative. */
  lemma MulNonNegative(a: nat, b: nat)
    ensures 0 <= a * b
  {
  }

  /** Readings whose times all lie in the `n` bucket widths up to `hi`
      fall into at most n + 1 buckets. */
  lemma GroupByCount(rows: seq<Reading>, g: Granularity, hi: int, n: nat)
    requires forall x :: x in rows ==> hi - n * g.Seconds() <= x.t <= hi
    ensures |GroupBy(rows, g)| <= n + 1
  {
    var bs := GroupBy(rows, g);
    var w := g.Seconds();
    var lo := hi - n * w;
    MulNonNegative(n, w);
    var slots := seq(|bs|, i requires 0 <= i < |bs| => bs[i].start / w);
    forall i | 0 <= i < |bs| ensures lo / w <= slots[i] <= hi / w {
      GroupWitness(rows, g, bs[i].start);
      var x := Group(rows, g, bs[i].start)[0];
      SlotFacts(g, x.t, x.t);
      SlotFacts(g, lo, x.t);
      SlotFacts(g, x.t, hi);
    }
    forall i, j | 0 <= i < j < |bs| ensures slots[i] < slots[j] {
      GroupWitness(rows, g, bs[i].start);
      GroupWitness(rows, g, bs[j].start);
      var x, y := Group(rows, g, bs[i].start)[0], Group(rows, g, bs[j].start)[0];
      BucketStartBounds(x.t, g);
      BucketStartBounds(y.t, g);
      SlotFacts(g, bs[i].start, bs[j].start);
    }
    SlotFacts(g, lo, hi);
    AscendingRun(slots, lo / w, hi / w);
    SlotSpan(g, hi, n);
  }

  /** Two strictly ascending lists holding the same keys are the same list. */
  lemma {:induction false} AscendingUnique(a: seq<int>, b: seq<int>)
    requires StrictlyAscending(a) && StrictlyAscending(b)
    requires forall k :: k in a <==> k in b
    ensures a == b
  {
    if a == [] && b != [] {
      FirstKey(b);
      assert false;
    } else if a != [] && b == [] {
      FirstKey(a);
      assert false;
    } else if a != [] {
      assert a[0] in b && b[0] in a;
      assert a[0] == b[0];
      forall k ensures k in a[1..] <==> k in b[1..] {
        AscendingTail(a, k);
        AscendingTail(b, k);
      }
      AscendingUnique(a[1..], b[1..]);
      assert a == [a[0]] + a[1..] && b == [b[0]] + b[1..];
    }
  }

  lemma FirstKey(a: seq<int>)
    ensures a != [] ==> a[0] in a
  {
  }

  /** The tail of a strictly ascending list holds every key but the first. */
  lemma AscendingTail(a: seq<int>, k: int)
    requires StrictlyAscending(a) && a != []
    ensures StrictlyAscending(a[1..])
    ensures k in a[1..] <==> k in a && k != a[0]
  {
    if k in a && k != a[0] {
      var j :| 0 <= j < |a| && a[j] == k;
      assert a[1..][j - 1] == k;
    }
  }

  /** The instants of a list of points. */
  function Times(pts: seq<Point>): (ts: seq<int>)
    ensures |ts| == |pts| && forall i :: 0 <= i < |pts| ==> ts[i] == pts[i].t
  {
    seq(|pts|, i requires 0 <= i < |pts| => pts[i].t)
  }

  /** A rollup is determined by its window: two lists that both satisfy
      `IsRollupOf` for the same window and width are equal. */
  lemma RollupUnique(p: seq<Point>, q: seq<Point>, window: seq<Reading>, g: Granularity)
    requires IsRollupOf(p, window, g) && IsRollupOf(q, window, g)
    ensures p == q
  {
    var tp, tq := Times(p), Times(q);
    forall k | k in tp ensures k in tq {
      RollupTimeShared(p, q, window, g, k);
    }
    forall k | k in tq ensures k in tp {
      RollupTimeShared(q, p, window, g, k);
    }
    AscendingUnique(tp, tq);
    assert forall i :: 0 <= i < |p| ==> p[i].t == q[i].t;
  }

  /** An instant of one rollup of a window is an instant of every other. */
  lemma RollupTimeShared(p: seq<Point>, q: seq<Point>, window: seq<Reading>, g: Granularity, k: int)
    requires IsRollupOf(p, window, g) && IsRollupOf(q, window, g)
    requires k in Times(p)
    ensures k in Times(q)
  {
    var i :| 0 <= i < |p| && Times(p)[i] == k;
    GroupWitness(window, g, k);
    var x := Group(window, g, k)[0];
    var j :| 0 <= j < |q| && q[j].t == BucketStart(x.t, g);
    assert Times(q)[j] == k;
  }
}
