/**
 Both layers of the history together: the rows of the aggregator are the source of the hourly roll-up
 (crates/foims-agent-service/src/metrics_aggregator.rs and src/tasks.rs).
 */
module HistoryPipeline {
  import opened MetricsRollup
  import opened RollupAccuracy
  import A = MetricsAggregator
  import R = RollupTask
  import AggregatorTheorems
  import L = AggregatorLosses

  /** The source of the roll-up holds exactly the rows of the aggregator, under any ids. */
  predicate IsSource(src: R.Source, rows: map<A.RowKey, A.Row>) {
    && (forall k | k in rows :: R.SourceKey(k.host, k.start) in src)
    && forall key | key in src ::
         && key.at % 300 == 0 && A.RowKey(key.agent, key.at) in rows
         && src[key].metrics == ReadBack(rows[A.RowKey(key.agent, key.at)].metrics)
  }

  /** The frames in the row of an agent that begins at `at`; none if there is no such row. */
  function FramesAt(rows: map<A.RowKey, A.Row>, agent: A.HostId, at: int): seq<A.Frame> {
    if at % 300 == 0 && A.RowKey(agent, at) in rows then rows[A.RowKey(agent, at)].frames else []
  }

  /** The frames in the rows of an agent that begin from `lo` up to `hi`, row after row. */
  function FramesBetween(rows: map<A.RowKey, A.Row>, agent: A.HostId, lo: int, hi: int): seq<A.Frame>
    decreases hi - lo
  {
    if hi <= lo then [] else FramesBetween(rows, agent, lo, hi - 1) + FramesAt(rows, agent, hi - 1)
  }

  predicate RowsOk(rows: map<A.RowKey, A.Row>) {
    forall k | k in rows :: AggregatorTheorems.RowOk(k, rows[k])
  }

  // ---- The frames of an hour ----

  lemma FrameOfRow(rows: map<A.RowKey, A.Row>, agent: A.HostId, at: int, x: A.Frame)
    requires RowsOk(rows) && x in FramesAt(rows, agent, at)
    ensures x.host == agent && at == A.BucketStart(x.t)
  {
    assert AggregatorTheorems.RowOk(A.RowKey(agent, at), rows[A.RowKey(agent, at)]);
  }

  lemma {:induction false} FramesAreThose(rows: map<A.RowKey, A.Row>, agent: A.HostId, lo: int, hi: int, x: A.Frame)
    requires RowsOk(rows)
    ensures x in FramesBetween(rows, agent, lo, hi)
       <==> x.host == agent && lo <= A.BucketStart(x.t) < hi && x in FramesAt(rows, agent, A.BucketStart(x.t))
    decreases hi - lo
  {
    if hi <= lo {
    } else {
      FramesAreThose(rows, agent, lo, hi - 1, x);
      if x in FramesAt(rows, agent, hi - 1) {
        FrameOfRow(rows, agent, hi - 1, x);
      }
    }
  }

  predicate InOrder(frames: seq<A.Frame>) {
    forall i, j | 0 <= i < j < |frames| :: frames[i].t < frames[j].t
  }

  lemma RowInOrder(rows: map<A.RowKey, A.Row>, agent: A.HostId, at: int)
    requires RowsOk(rows)
    ensures InOrder(FramesAt(rows, agent, at))
  {
    if FramesAt(rows, agent, at) != [] {
      assert AggregatorTheorems.RowOk(A.RowKey(agent, at), rows[A.RowKey(agent, at)]);
    }
  }

  lemma NothingInOrder()
    ensures InOrder([])
  {
  }

  lemma Appended(xs: seq<A.Frame>, ys: seq<A.Frame>)
    requires InOrder(xs) && InOrder(ys) && forall x, y | x in xs && y in ys :: x.t < y.t
    ensures InOrder(xs + ys)
  {
  }

  lemma {:induction false} FramesInOrder(rows: map<A.RowKey, A.Row>, agent: A.HostId, lo: int, hi: int)
    requires RowsOk(rows)
    ensures InOrder(FramesBetween(rows, agent, lo, hi))
    decreases hi - lo
  {
    hide InOrder, FramesAt;
    if hi <= lo {
      NothingInOrder();
    } else {
      FramesInOrder(rows, agent, lo, hi - 1);
      RowInOrder(rows, agent, hi - 1);
      forall x, y | x in FramesBetween(rows, agent, lo, hi - 1) && y in FramesAt(rows, agent, hi - 1)
        ensures x.t < y.t
      {
        FramesAreThose(rows, agent, lo, hi - 1, x);
        FrameOfRow(rows, agent, hi - 1, y);
      }
      Appended(FramesBetween(rows, agent, lo, hi - 1), FramesAt(rows, agent, hi - 1));
    }
  }

  /** The frames that the rows of an agent hold for one hour. */
  function FramesOf(rows: map<A.RowKey, A.Row>, hour: R.HourKey): seq<A.Frame> {
    FramesBetween(rows, hour.agent, hour.hour, hour.hour + 3600)
  }

  /** Whether a row holds the frame. */
  predicate InRow(rows: map<A.RowKey, A.Row>, x: A.Frame) {
    exists k | k in rows :: x in rows[k].frames
  }

  lemma InRowIff(rows: map<A.RowKey, A.Row>, agent: A.HostId, x: A.Frame)
    requires RowsOk(rows)
    ensures x in FramesAt(rows, agent, A.BucketStart(x.t)) <==> InRow(rows, x) && x.host == agent
  {
    if k :| k in rows && x in rows[k].frames {
      assert x in FramesAt(rows, k.host, k.start);
      FrameOfRow(rows, k.host, k.start, x);
    }
    if x in FramesAt(rows, agent, A.BucketStart(x.t)) {
      FrameOfRow(rows, agent, A.BucketStart(x.t), x);
    }
  }

  /** They are exactly the frames of that hour that a row holds, in the order of their times. */
  lemma FramesOfHour(aops: seq<A.Op>, key: R.SourceKey, x: A.Frame)
    ensures var rows, hour := AggregatorTheorems.Run(aops).rows, R.HourOf(key);
            && InOrder(FramesOf(rows, hour))
            && (x in FramesOf(rows, hour)
                <==> InRow(rows, x) && x.host == hour.agent && hour.hour <= x.t < hour.hour + 3600)
  {
    hide AggregatorTheorems.Run, RowsOk, InRow, InOrder, FramesAt, FramesBetween, A.BucketStart;
    var rows, hour := AggregatorTheorems.Run(aops).rows, R.HourOf(key);
    AggregatorTheorems.BucketsAreNaive(aops);
    StoredRowsAreOk(AggregatorTheorems.Run(aops));
    FramesInOrder(rows, hour.agent, hour.hour, hour.hour + 3600);
    FramesAreThose(rows, hour.agent, hour.hour, hour.hour + 3600, x);
    InRowIff(rows, hour.agent, x);
    WindowInHour(x.t, hour.hour);
  }

  lemma StoredRowsAreOk(s: A.State)
    requires AggregatorTheorems.BucketsOk(s)
    ensures RowsOk(s.rows)
  {
  }

  /** Windows do not straddle hours: `w` windows and `h` hours have passed. */
  lemma WindowsFitHours(t: int, w: int, h: int)
    requires 300 * w <= t < 300 * w + 300
    ensures 3600 * h <= 300 * w < 3600 * h + 3600 <==> 3600 * h <= t < 3600 * h + 3600
  {
    assert 3600 * h <= t ==> 12 * h < w + 1;
    assert t < 3600 * h + 3600 ==> w < 12 * h + 12;
  }

  lemma WindowInHour(t: int, hour: int)
    requires hour % 3600 == 0
    ensures hour <= A.BucketStart(t) < hour + 3600 <==> hour <= t < hour + 3600
  {
    var w, h := t / 300, hour / 3600;
    assert A.BucketStart(t) == 300 * w && hour == 3600 * h;
    WindowsFitHours(t, w, h);
  }

  // ---- The hourly row ----

  lemma {:induction false} RowsMatch(src: R.Source, rows: map<A.RowKey, A.Row>, agent: A.HostId, lo: int, hi: int)
    returns (ids: seq<int>, groups: seq<seq<A.Frame>>)
    requires IsSource(src, rows) && RowsOk(rows)
    ensures |ids| == |groups| && R.RowsBetween(src, agent, lo, hi) == RowsFor(ids, groups)
    ensures Flat(groups) == FramesBetween(rows, agent, lo, hi)
    decreases hi - lo
  {
    ids, groups := [], [];
    if hi <= lo {
    } else {
      ids, groups := RowsMatch(src, rows, agent, lo, hi - 1);
      var key := R.SourceKey(agent, hi - 1);
      if key in src {
        var row := rows[A.RowKey(agent, hi - 1)];
        assert AggregatorTheorems.RowOk(A.RowKey(agent, hi - 1), row);
        assert src[key] == RowFor(src[key].id, row.frames);
        var ids', groups' := ids + [src[key].id], groups + [row.frames];
        assert groups'[..|groups|] == groups;
        assert RowsFor(ids', groups') == RowsFor(ids, groups) + [src[key]];
        ids, groups := ids', groups';
      } else {
        assert FramesAt(rows, agent, hi - 1) == [];
      }
    }
  }

  lemma HourRollsUpAccurately(src: R.Source, rows: map<A.RowKey, A.Row>, hour: R.HourKey, metric: string)
    requires IsSource(src, rows) && RowsOk(rows) && metric != SRC_MAX_ID
    ensures var vs, rolled := A.Values(FramesOf(rows, hour), metric), Rollup(R.RowsOf(src, hour));
            if vs == [] then metric !in rolled
            else metric in rolled && rolled[metric].Aggregate? && Accurate(rolled[metric].sample, vs)
  {
    hide Rollup, Flat, FramesBetween, Accurate, IsSource, R.RowsBetween, A.Values;
    var ids, groups := RowsMatch(src, rows, hour.agent, hour.hour, hour.hour + 3600);
    RollupIsAccurate(ids, groups, metric);
  }

  /**
   From readings to the hourly row: after enough runs of the task every closed hour has, for every metric,
   the count, the extremes and the last value of all its stored readings and a mean at most 0.0001 off.
   */
  lemma ClosedHoursAreAccurate(aops: seq<A.Op>, ops: seq<R.Op>, rounds: seq<R.Round>, t0: int, key: R.SourceKey,
                               metric: string)
    requires IsSource(R.Run(ops).src, AggregatorTheorems.Run(aops).rows) && metric != SRC_MAX_ID
    requires R.AreRounds(R.Run(ops).src, R.Run(ops).hours, rounds, t0)
    requires |R.Due(R.Run(ops).src, R.Run(ops).hours, t0)| <= 500 * |rounds|
    requires key in R.Run(ops).src && R.HourOf(key).hour + 3600 <= t0 - 900
    ensures var hours := R.AfterRounds(R.Run(ops).src, R.Run(ops).hours, rounds);
            var vs := A.Values(FramesOf(AggregatorTheorems.Run(aops).rows, R.HourOf(key)), metric);
            && R.HourOf(key) in hours
            && var row := hours[R.HourOf(key)];
            if vs == [] then metric !in row
            else metric in row && row[metric].Aggregate? && Accurate(row[metric].sample, vs)
  {
    R.RoundsBringHoursUpToDate(ops, rounds, t0, key);
    AggregatorTheorems.BucketsAreNaive(aops);
    HourRollsUpAccurately(R.Run(ops).src, AggregatorTheorems.Run(aops).rows, R.HourOf(key), metric);
  }

  // ---- Hours whose windows are through ----

  /** The window was not reopened, and none of its buckets is live, stale or being written any more. */
  ghost predicate IsThrough(aops: seq<A.Op>, k: A.RowKey) {
    var s := AggregatorTheorems.Run(aops);
    !L.Reopened(aops, k) && L.HostCount(A.HostOf(s, k.host), k) == 0 && L.KeyCount(s.writes, k) == 0
  }

  /** A frame in a batch claims the row of its host and window. */
  lemma InBatchCounts(batches: seq<A.Batch>, x: A.Frame)
    requires AggregatorTheorems.BatchesOk(batches) && AggregatorTheorems.InBatch(batches, x)
    ensures L.KeyCount(batches, A.RowKey(x.host, A.BucketStart(x.t))) > 0
    ensures exists b | b in batches :: b.host == x.host
  {
    var b :| b in batches && x in b.bucket.frames;
    assert AggregatorTheorems.BucketOk(b.host, b.start, b.bucket);
    L.CountsAppear(batches, A.KeyOf(b));
  }

  lemma NothingRejected(aops: seq<A.Op>, k: A.RowKey)
    requires !L.Reopened(aops, k)
    ensures L.KeyCount(AggregatorTheorems.Run(aops).rejected, k) == 0
  {
    hide AggregatorTheorems.Run, L.Reopened;
    var s := AggregatorTheorems.Run(aops);
    L.ClaimedTwiceIffReopened(aops, k);
    L.RunIsOwned(aops);
    L.CountsAppear(s.rejected, k);
  }

  lemma NotLive(s: A.State, x: A.Frame)
    requires AggregatorTheorems.BucketsOk(s)
    requires var k := A.RowKey(x.host, A.BucketStart(x.t)); L.HostCount(A.HostOf(s, k.host), k) == 0
    ensures !AggregatorTheorems.IsLive(s, x)
  {
    if AggregatorTheorems.IsLive(s, x) {
      AggregatorTheorems.LiveFrameIsHome(s, x);
    }
  }

  lemma NotStale(s: A.State, h: A.HostId, x: A.Frame)
    requires AggregatorTheorems.BucketsOk(s) && L.Owned(s) && h in s.hosts
    requires var k := A.RowKey(x.host, A.BucketStart(x.t)); L.HostCount(A.HostOf(s, k.host), k) == 0
    ensures !AggregatorTheorems.InBatch(s.hosts[h].stale, x)
  {
    assert AggregatorTheorems.HostOk(h, s.hosts[h]);
    if AggregatorTheorems.InBatch(s.hosts[h].stale, x) {
      InBatchCounts(s.hosts[h].stale, x);
    }
  }

  lemma NotInBatch(batches: seq<A.Batch>, x: A.Frame)
    requires AggregatorTheorems.BatchesOk(batches)
    requires L.KeyCount(batches, A.RowKey(x.host, A.BucketStart(x.t))) == 0
    ensures !AggregatorTheorems.InBatch(batches, x)
  {
    if AggregatorTheorems.InBatch(batches, x) {
      InBatchCounts(batches, x);
    }
  }

  /** Then every accepted frame of the window is in a row. */
  lemma AcceptedIsStored(aops: seq<A.Op>, x: A.Frame)
    requires IsThrough(aops, A.RowKey(x.host, A.BucketStart(x.t))) && x in AggregatorTheorems.Run(aops).accepted
    ensures InRow(AggregatorTheorems.Run(aops).rows, x)
  {
    hide AggregatorTheorems.Run, L.Reopened, AggregatorTheorems.IsLive;
    var s, k := AggregatorTheorems.Run(aops), A.RowKey(x.host, A.BucketStart(x.t));
    AggregatorTheorems.BucketsAreNaive(aops);
    L.RunIsOwned(aops);
    NothingRejected(aops, k);
    AggregatorTheorems.LiveIffNotLeft(aops, x);
    NotLive(s, x);
    NotInBatch(s.writes, x);
    NotInBatch(s.rejected, x);
    forall h | h in s.hosts
      ensures !AggregatorTheorems.InBatch(s.hosts[h].stale, x)
    {
      NotStale(s, h, x);
    }
  }

  lemma RowFrameIsAccepted(aops: seq<A.Op>, x: A.Frame)
    requires InRow(AggregatorTheorems.Run(aops).rows, x)
    ensures x in AggregatorTheorems.Run(aops).accepted
  {
    hide AggregatorTheorems.Run;
    var s := AggregatorTheorems.Run(aops);
    assert AggregatorTheorems.HasLeft(s, x);
    AggregatorTheorems.OutsideIffLeft(s, x);
    AggregatorTheorems.HeldInTwoParts(s, x);
    AggregatorTheorems.EachFrameOnce(aops, x);
  }

  /** The accepted frames of one agent and hour, in the order in which they were accepted. */
  function AcceptedOf(accepted: seq<A.Frame>, hour: R.HourKey): seq<A.Frame> {
    if accepted == [] then []
    else
      var f := accepted[|accepted| - 1];
      AcceptedOf(accepted[..|accepted| - 1], hour)
      + if f.host == hour.agent && hour.hour <= f.t < hour.hour + 3600 then [f] else []
  }

  lemma {:induction false} AcceptedAreThose(accepted: seq<A.Frame>, hour: R.HourKey, x: A.Frame)
    ensures x in AcceptedOf(accepted, hour)
       <==> x in accepted && x.host == hour.agent && hour.hour <= x.t < hour.hour + 3600
  {
    if accepted == [] {
    } else {
      var n := |accepted| - 1;
      AcceptedAreThose(accepted[..n], hour, x);
      assert accepted == accepted[..n] + [accepted[n]];
    }
  }

  lemma {:induction false} AcceptedOfInOrder(accepted: seq<A.Frame>, hour: R.HourKey)
    requires forall i, j | 0 <= i < j < |accepted| && accepted[i].host == accepted[j].host ::
               accepted[i].t < accepted[j].t
    ensures InOrder(AcceptedOf(accepted, hour))
  {
    if accepted == [] {
    } else {
      var n := |accepted| - 1;
      var f := accepted[n];
      AcceptedOfInOrder(accepted[..n], hour);
      forall x | x in AcceptedOf(accepted[..n], hour) && f.host == hour.agent
        ensures x.t < f.t
      {
        AcceptedAreThose(accepted[..n], hour, x);
      }
    }
  }

  lemma NothingOrSome(xs: seq<A.Frame>)
    ensures xs == [] || exists x :: x in xs
  {
    assert xs == [] || xs[0] in xs;
  }

  /** There is one way to put some frames in the order of their times. */
  lemma {:induction false} SameInOrder(xs: seq<A.Frame>, ys: seq<A.Frame>)
    requires InOrder(xs) && InOrder(ys) && forall x :: x in xs <==> x in ys
    ensures xs == ys
  {
    NothingOrSome(ys);
    if xs == [] {
    } else {
      var m, n := |xs| - 1, |ys| - 1;
      assert xs[m] in ys && ys != [] && ys[n] in xs;
      assert xs[m] == ys[n];
      forall x
        ensures x in xs[..m] <==> x in ys[..n]
      {
        assert x in xs[..m] <==> x in xs && x != xs[m] by {
          assert xs == xs[..m] + [xs[m]];
        }
        assert x in ys[..n] <==> x in ys && x != ys[n] by {
          assert ys == ys[..n] + [ys[n]];
        }
      }
      SameInOrder(xs[..m], ys[..n]);
      assert xs == xs[..m] + [xs[m]] && ys == ys[..n] + [ys[n]];
    }
  }

  /** The rows of an hour that is through hold exactly its accepted frames. */
  lemma HourHoldsAccepted(aops: seq<A.Op>, key: R.SourceKey)
    requires forall start: A.Start | R.HourOf(key).hour <= start < R.HourOf(key).hour + 3600 ::
               IsThrough(aops, A.RowKey(key.agent, start))
    ensures var s := AggregatorTheorems.Run(aops);
            FramesOf(s.rows, R.HourOf(key)) == AcceptedOf(s.accepted, R.HourOf(key))
  {
    hide AggregatorTheorems.Run, InOrder, FramesOf, AcceptedOf, IsThrough, InRow;
    var s, hour := AggregatorTheorems.Run(aops), R.HourOf(key);
    AggregatorTheorems.AcceptedInOrder(aops);
    AcceptedOfInOrder(s.accepted, hour);
    FramesOfHour(aops, key, A.Frame(0, 0, map[]));
    forall x
      ensures x in FramesOf(s.rows, hour) <==> x in AcceptedOf(s.accepted, hour)
    {
      FramesOfHour(aops, key, x);
      AcceptedAreThose(s.accepted, hour, x);
      WindowInHour(x.t, hour.hour);
      if x in FramesOf(s.rows, hour) {
        RowFrameIsAccepted(aops, x);
      }
      if x in AcceptedOf(s.accepted, hour) {
        AcceptedIsStored(aops, x);
      }
    }
    SameInOrder(FramesOf(s.rows, hour), AcceptedOf(s.accepted, hour));
  }

  /** From accepted readings to the hourly row, for hours whose windows were not reopened and are written. */
  lemma ClosedHoursCoverAccepted(aops: seq<A.Op>, ops: seq<R.Op>, rounds: seq<R.Round>, t0: int, key: R.SourceKey,
                                 metric: string)
    requires IsSource(R.Run(ops).src, AggregatorTheorems.Run(aops).rows) && metric != SRC_MAX_ID
    requires R.AreRounds(R.Run(ops).src, R.Run(ops).hours, rounds, t0)
    requires |R.Due(R.Run(ops).src, R.Run(ops).hours, t0)| <= 500 * |rounds|
    requires key in R.Run(ops).src && R.HourOf(key).hour + 3600 <= t0 - 900
    requires forall start: A.Start | R.HourOf(key).hour <= start < R.HourOf(key).hour + 3600 ::
               IsThrough(aops, A.RowKey(key.agent, start))
    ensures var hours := R.AfterRounds(R.Run(ops).src, R.Run(ops).hours, rounds);
            var vs := A.Values(AcceptedOf(AggregatorTheorems.Run(aops).accepted, R.HourOf(key)), metric);
            && R.HourOf(key) in hours
            && var row := hours[R.HourOf(key)];
            if vs == [] then metric !in row
            else metric in row && row[metric].Aggregate? && Accurate(row[metric].sample, vs)
  {
    HourHoldsAccepted(aops, key);
    ClosedHoursAreAccurate(aops, ops, rounds, t0, key, metric);
  }
}
