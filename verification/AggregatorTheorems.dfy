/**
 What the aggregator keeps under every interleaving of readings, flushes, failed and conflicting
 writes (crates/foims-agent-service/src/metrics_aggregator.rs).

 A run is any sequence of operations; one that is not enabled has no effect. A flush is a `Take` for
 every host and a `Settle` for every write, and readings may arrive between any two of them.
 */
module AggregatorTheorems {
  import opened Wrappers
  import opened MetricsAggregator

  function Run(ops: seq<Op>): State {
    if ops == [] then INITIAL else Apply(Run(ops[..|ops| - 1]), ops[|ops| - 1])
  }

  lemma RunOneMore(ops: seq<Op>, op: Op)
    ensures Run(ops + [op]) == Apply(Run(ops), op)
  {
    assert (ops + [op])[..|ops|] == ops;
  }

  lemma {:induction false} RunThenMore(ops: seq<Op>, more: seq<Op>)
    ensures Run(ops + more) == After(Run(ops), more)
    decreases |more|
  {
    if more == [] {
      assert ops + more == ops;
    } else {
      RunOneMore(ops, more[0]);
      RunThenMore(ops + [more[0]], more[1..]);
      assert ops + [more[0]] + more[1..] == ops + more;
    }
  }

  // ---- Replaying calls with the methods ----

  datatype Call =
    | Report(host: HostId, t: int, metrics: Metrics)
    | Flush(now: int, failing: set<Batch>)
    | FlushAll(now: int, failing: set<Batch>)

  lemma IngestKeepsKnown(s: State, op: Op)
    requires op.Ingest? && Enabled(s, op) && HostsKnown(s)
    ensures HostsKnown(Next(s, op))
  {
  }

  /** Whatever is called in whatever order, the aggregator ends in the state of a run that the lemmas speak about. */
  method Replay(calls: seq<Call>) returns (aggregator: MetricsAggregator, ghost ops: seq<Op>)
    ensures fresh(aggregator) && aggregator.Snapshot() == Run(ops)
  {
    aggregator := new MetricsAggregator();
    ops := [];
    for i := 0 to |calls|
      invariant fresh(aggregator) && aggregator.Snapshot() == Run(ops)
      invariant aggregator.writes == [] && HostsKnown(aggregator.Snapshot())
    {
      ghost var before := aggregator.Snapshot();
      match calls[i] {
        case Report(host, t, metrics) =>
          var order := aggregator.IngestFrame(host, t, metrics);
          IngestKeepsKnown(before, Ingest(host, t, metrics, order));
          RunOneMore(ops, Ingest(host, t, metrics, order));
          ops := ops + [Ingest(host, t, metrics, order)];
        case Flush(now, failing) =>
          ghost var more := aggregator.Flush(now, failing);
          RunThenMore(ops, more);
          ops := ops + more;
        case FlushAll(now, failing) =>
          ghost var more := aggregator.FlushAll(now, failing);
          RunThenMore(ops, more);
          ops := ops + more;
      }
    }
  }

  // ---- Counting one frame ----

  /** How often `x` occurs in `frames`. */
  function CountIn(frames: seq<Frame>, x: Frame): nat {
    if frames == [] then 0 else CountIn(frames[..|frames| - 1], x) + if frames[|frames| - 1] == x then 1 else 0
  }

  lemma CountOneMore(frames: seq<Frame>, f: Frame, x: Frame)
    ensures CountIn(frames + [f], x) == CountIn(frames, x) + if f == x then 1 else 0
  {
    assert (frames + [f])[..|frames|] == frames;
  }

  ghost function Total<K>(m: map<K, nat>): nat
    decreases |m|
  {
    if m == map[] then 0
    else
      var k :| k in m;
      m[k] + Total(m - {k})
  }

  lemma {:induction false} TotalRemove<K>(m: map<K, nat>, k: K)
    requires k in m
    ensures Total(m) == m[k] + Total(m - {k})
    decreases |m|
  {
    var j :| j in m && Total(m) == m[j] + Total(m - {j});
    if j != k {
      TotalRemove(m - {j}, k);
      TotalRemove(m - {k}, j);
      assert m - {j} - {k} == m - {k} - {j};
    }
  }

  lemma TotalUpdate<K>(m: map<K, nat>, k: K, v: nat)
    ensures Total(m[k := v]) + (if k in m then m[k] else 0) == Total(m) + v
  {
    TotalRemove(m[k := v], k);
    assert m[k := v] - {k} == m - {k};
    if k in m {
      TotalRemove(m, k);
    } else {
      assert m - {k} == m;
    }
  }

  function InBatches(batches: seq<Batch>, x: Frame): nat {
    if batches == [] then 0
    else InBatches(batches[..|batches| - 1], x) + CountIn(batches[|batches| - 1].bucket.frames, x)
  }

  lemma {:induction false} BatchesConcat(xs: seq<Batch>, ys: seq<Batch>, x: Frame)
    ensures InBatches(xs + ys, x) == InBatches(xs, x) + InBatches(ys, x)
  {
    if ys == [] {
      assert xs + ys == xs;
    } else {
      assert (xs + ys)[..|xs + ys| - 1] == xs + ys[..|ys| - 1];
      BatchesConcat(xs, ys[..|ys| - 1], x);
    }
  }

  lemma OneBatch(b: Batch, x: Frame)
    ensures InBatches([b], x) == CountIn(b.bucket.frames, x)
  {
    assert [b][..0] == [];
  }

  lemma BatchesWithout(xs: seq<Batch>, i: nat, x: Frame)
    requires i < |xs|
    ensures InBatches(Without(xs, i), x) + CountIn(xs[i].bucket.frames, x) == InBatches(xs, x)
  {
    assert xs == xs[..i] + ([xs[i]] + xs[i + 1..]);
    BatchesConcat(xs[..i], [xs[i]] + xs[i + 1..], x);
    BatchesConcat([xs[i]], xs[i + 1..], x);
    BatchesConcat(xs[..i], xs[i + 1..], x);
    OneBatch(xs[i], x);
  }

  function PerBucket(buckets: map<Start, Bucket>, x: Frame): map<Start, nat> {
    map k | k in buckets :: CountIn(buckets[k].frames, x)
  }

  ghost function InLive(buckets: map<Start, Bucket>, x: Frame): nat {
    Total(PerBucket(buckets, x))
  }

  lemma LiveRemove(buckets: map<Start, Bucket>, k: Start, x: Frame)
    requires k in buckets
    ensures InLive(buckets, x) == CountIn(buckets[k].frames, x) + InLive(buckets - {k}, x)
  {
    TotalRemove(PerBucket(buckets, x), k);
    assert PerBucket(buckets, x) - {k} == PerBucket(buckets - {k}, x);
  }

  lemma LiveUpdate(buckets: map<Start, Bucket>, k: Start, b: Bucket, x: Frame)
    ensures InLive(buckets[k := b], x) + (if k in buckets then CountIn(buckets[k].frames, x) else 0)
         == InLive(buckets, x) + CountIn(b.frames, x)
  {
    TotalUpdate(PerBucket(buckets, x), k, CountIn(b.frames, x));
    assert PerBucket(buckets[k := b], x) == PerBucket(buckets, x)[k := CountIn(b.frames, x)];
  }

  /** The batches that leave a host hold what its live buckets lose. */
  lemma {:induction false} DrainedFrames(host: HostId, buckets: map<Start, Bucket>, order: seq<Start>, keys: set<Start>,
                                         x: Frame)
    requires IsOrder(order, keys) && keys <= buckets.Keys
    ensures InBatches(Batches(host, buckets, order), x) + InLive(buckets - keys, x) == InLive(buckets, x)
    decreases |order|
  {
    if order == [] {
      assert keys == {};
      assert buckets - keys == buckets;
    } else {
      var n := |order| - 1;
      var k, init := order[n], order[..n];
      assert IsOrder(init, keys - {k});
      DrainedFrames(host, buckets, init, keys - {k}, x);
      LiveRemove(buckets - (keys - {k}), k, x);
      assert buckets - (keys - {k}) - {k} == buckets - keys;
      assert Batches(host, buckets, order)[..n] == Batches(host, buckets, init);
    }
  }

  ghost function InHost(hb: HostBuckets, x: Frame): nat {
    InLive(hb.buckets, x) + InBatches(hb.stale, x)
  }

  ghost function PerHost(hosts: map<HostId, HostBuckets>, x: Frame): map<HostId, nat> {
    map h | h in hosts :: InHost(hosts[h], x)
  }

  function PerRow(rows: map<RowKey, Row>, x: Frame): map<RowKey, nat> {
    map k | k in rows :: CountIn(rows[k].frames, x)
  }

  ghost function InHosts(hosts: map<HostId, HostBuckets>, x: Frame): nat {
    Total(PerHost(hosts, x))
  }

  ghost function InRows(rows: map<RowKey, Row>, x: Frame): nat {
    Total(PerRow(rows, x))
  }

  /** How often `x` is held: in live buckets and stale lists, in writes on the way, in rows, in rejected writes. */
  ghost function Held(s: State, x: Frame): nat {
    InHosts(s.hosts, x) + InBatches(s.writes, x) + InRows(s.rows, x) + InBatches(s.rejected, x)
  }

  lemma HostsUpdate(hosts: map<HostId, HostBuckets>, h: HostId, hb: HostBuckets, x: Frame)
    ensures InHosts(hosts[h := hb], x) + (if h in hosts then InHost(hosts[h], x) else 0)
         == InHosts(hosts, x) + InHost(hb, x)
  {
    TotalUpdate(PerHost(hosts, x), h, InHost(hb, x));
    assert PerHost(hosts[h := hb], x) == PerHost(hosts, x)[h := InHost(hb, x)];
  }

  lemma RowsUpdate(rows: map<RowKey, Row>, k: RowKey, row: Row, x: Frame)
    requires k !in rows
    ensures InRows(rows[k := row], x) == InRows(rows, x) + CountIn(row.frames, x)
  {
    TotalUpdate(PerRow(rows, x), k, CountIn(row.frames, x));
    assert PerRow(rows[k := row], x) == PerRow(rows, x)[k := CountIn(row.frames, x)];
  }

  // ---- Conservation ----

  lemma NothingInNoBuckets(x: Frame)
    ensures InHost(NO_BUCKETS, x) == 0
  {
    assert PerBucket(map[], x) == map[];
  }

  lemma IngestedFrames(hb: HostBuckets, f: Frame, order: seq<Start>, x: Frame)
    requires IsOrder(order, hb.buckets.Keys) && Accepts(hb, f.t)
    ensures InHost(Ingested(hb, f, order), x) == InHost(hb, x) + if f == x then 1 else 0
  {
    var hb', start := Ingested(hb, f, order), BucketStart(f.t);
    if Switches(hb, f.fields.Keys) {
      DrainedFrames(f.host, hb.buckets, order, hb.buckets.Keys, x);
      assert hb.buckets - hb.buckets.Keys == map[];
      BatchesConcat(hb.stale, Batches(f.host, hb.buckets, order), x);
      LiveUpdate(map[], start, hb'.buckets[start], x);
      CountOneMore([], f, x);
    } else {
      LiveUpdate(hb.buckets, start, hb'.buckets[start], x);
      CountOneMore(if start in hb.buckets then hb.buckets[start].frames else [], f, x);
    }
  }

  lemma HeldWithHost(s: State, host: HostId, hb: HostBuckets, accepted: seq<Frame>, x: Frame)
    ensures Held(s.(hosts := s.hosts[host := hb], accepted := accepted), x) + InHost(HostOf(s, host), x)
         == Held(s, x) + InHost(hb, x)
  {
    NothingInNoBuckets(x);
    HostsUpdate(s.hosts, host, hb, x);
  }

  lemma AcceptConserves(s: State, f: Frame, order: seq<Start>, x: Frame)
    requires IsOrder(order, HostOf(s, f.host).buckets.Keys) && Accepts(HostOf(s, f.host), f.t)
    ensures Held(s.(hosts := s.hosts[f.host := Ingested(HostOf(s, f.host), f, order)], accepted := s.accepted + [f]), x)
         == Held(s, x) + if f == x then 1 else 0
  {
    IngestedFrames(HostOf(s, f.host), f, order, x);
    HeldWithHost(s, f.host, Ingested(HostOf(s, f.host), f, order), s.accepted + [f], x);
  }

  lemma IngestConserves(s: State, op: Op, x: Frame)
    requires op.Ingest? && Enabled(s, op) && CountIn(s.accepted, x) == Held(s, x)
    ensures CountIn(Next(s, op).accepted, x) == Held(Next(s, op), x)
  {
    if op.metrics != NotObject {
      var f, hb := Frame(op.host, op.t, op.metrics.fields), HostOf(s, op.host);
      if Accepts(hb, op.t) {
        AcceptConserves(s, f, op.order, x);
        CountOneMore(s.accepted, f, x);
        assert Next(s, op) == s.(hosts := s.hosts[f.host := Ingested(hb, f, op.order)], accepted := s.accepted + [f]);
      } else {
        HeldWithHost(s, op.host, hb, s.accepted, x);
        assert Next(s, op) == s.(hosts := s.hosts[op.host := hb], accepted := s.accepted);
      }
    }
  }

  lemma TakeConserves(s: State, op: Op, x: Frame)
    requires op.Take? && Enabled(s, op)
    ensures Held(Next(s, op), x) == Held(s, x)
  {
    var hb, s' := s.hosts[op.host], Next(s, op);
    var keys := Expired(hb, op.cutoff);
    var leaving := Batches(op.host, hb.buckets, op.order);
    DrainedFrames(op.host, hb.buckets, op.order, keys, x);
    assert s'.hosts[op.host].buckets == hb.buckets - keys;
    BatchesConcat(s.writes + leaving, hb.stale, x);
    BatchesConcat(s.writes, leaving, x);
    HostsUpdate(s.hosts, op.host, s'.hosts[op.host], x);
  }

  lemma SettleConserves(s: State, op: Op, x: Frame)
    requires op.Settle? && Enabled(s, op)
    ensures Held(Next(s, op), x) == Held(s, x)
  {
    var b := s.writes[op.write];
    BatchesWithout(s.writes, op.write, x);
    OneBatch(b, x);
    if !op.ok {
      var hb := s.hosts[b.host];
      BatchesConcat(hb.stale, [b], x);
      HostsUpdate(s.hosts, b.host, hb.(stale := hb.stale + [b]), x);
    } else if RowKey(b.host, b.start) in s.rows {
      BatchesConcat(s.rejected, [b], x);
    } else {
      RowsUpdate(s.rows, RowKey(b.host, b.start), Row(BucketMetrics(b.bucket.accs), b.bucket.frames), x);
    }
  }

  /** Every frame is held exactly as often as it was accepted. */
  lemma {:induction false} FramesAreConserved(ops: seq<Op>, x: Frame)
    ensures CountIn(Run(ops).accepted, x) == Held(Run(ops), x)
  {
    if ops == [] {
      assert PerHost(map[], x) == map[] && PerRow(map[], x) == map[];
    } else {
      var s, op := Run(ops[..|ops| - 1]), ops[|ops| - 1];
      FramesAreConserved(ops[..|ops| - 1], x);
      if Enabled(s, op) {
        match op {
          case Ingest(_, _, _, _) => IngestConserves(s, op, x);
          case Take(_, _, _) => TakeConserves(s, op, x);
          case Settle(_, _) => SettleConserves(s, op, x);
        }
      }
    }
  }

  // ---- Every bucket is what a naive recomputation gives ----

  /** Frames of one host in one window, all with the same keys, strictly in the order of their times. */
  predicate FramesOk(host: HostId, start: Start, frames: seq<Frame>) {
    && frames != []
    && (forall f | f in frames ::
          f.host == host && start <= f.t < start + 300 && f.fields.Keys == frames[0].fields.Keys)
    && forall i, j | 0 <= i < j < |frames| :: frames[i].t < frames[j].t
  }

  predicate BucketOk(host: HostId, start: Start, b: Bucket) {
    FramesOk(host, start, b.frames) && b.accs == Summary(b.frames)
  }

  predicate LiveOk(host: HostId, hb: HostBuckets, start: Start)
    requires start in hb.buckets
  {
    var b := hb.buckets[start];
    && BucketOk(host, start, b)
    && hb.watermark.Some?
    && forall f | f in b.frames :: f.t <= hb.watermark.value && Some(f.fields.Keys) == hb.fingerprint
  }

  predicate BatchesOk(batches: seq<Batch>) {
    forall b | b in batches :: BucketOk(b.host, b.start, b.bucket)
  }

  predicate HostOk(host: HostId, hb: HostBuckets) {
    && (forall start | start in hb.buckets :: LiveOk(host, hb, start))
    && BatchesOk(hb.stale)
  }

  predicate RowOk(key: RowKey, row: Row) {
    FramesOk(key.host, key.start, row.frames) && row.metrics == BucketMetrics(Summary(row.frames))
  }

  predicate BucketsOk(s: State) {
    && (forall h | h in s.hosts :: HostOk(h, s.hosts[h]))
    && BatchesOk(s.writes)
    && BatchesOk(s.rejected)
    && forall k | k in s.rows :: RowOk(k, s.rows[k])
  }

  lemma OneMoreFrameOk(host: HostId, start: Start, b: Bucket, f: Frame)
    requires b == EMPTY_BUCKET || BucketOk(host, start, b)
    requires f.host == host && start == BucketStart(f.t)
    requires forall g | g in b.frames :: g.t < f.t && g.fields.Keys == f.fields.Keys
    ensures BucketOk(host, start, Bucket(Accumulated(b.accs, f.fields), b.frames + [f]))
  {
    var frames := b.frames + [f];
    SummaryExtends(b.frames, f);
    assert frames[0] == if b.frames == [] then f else b.frames[0];
  }

  lemma BatchesOkOf(host: HostId, hb: HostBuckets, order: seq<Start>)
    requires HostOk(host, hb) && forall i | 0 <= i < |order| :: order[i] in hb.buckets
    ensures BatchesOk(Batches(host, hb.buckets, order))
  {
    forall b | b in Batches(host, hb.buckets, order)
      ensures BucketOk(b.host, b.start, b.bucket)
    {
      assert LiveOk(host, hb, b.start);
    }
  }

  lemma IngestedHostOk(hb: HostBuckets, f: Frame, order: seq<Start>)
    requires HostOk(f.host, hb) && IsOrder(order, hb.buckets.Keys) && Accepts(hb, f.t)
    ensures HostOk(f.host, Ingested(hb, f, order))
  {
    var hb', start := Ingested(hb, f, order), BucketStart(f.t);
    BatchesOkOf(f.host, hb, order);
    var kept := start in hb.buckets && !Switches(hb, f.fields.Keys);
    if kept {
      assert LiveOk(f.host, hb, start);
    }
    OneMoreFrameOk(f.host, start, if kept then hb.buckets[start] else EMPTY_BUCKET, f);
    forall k | k in hb'.buckets
      ensures LiveOk(f.host, hb', k)
    {
      if k != start {
        assert LiveOk(f.host, hb, k);
      }
    }
  }

  lemma IngestKeepsBuckets(s: State, op: Op)
    requires op.Ingest? && Enabled(s, op) && BucketsOk(s)
    ensures BucketsOk(Next(s, op))
  {
    if op.metrics != NotObject {
      var f, hb := Frame(op.host, op.t, op.metrics.fields), HostOf(s, op.host);
      assert HostOk(op.host, hb);
      if Accepts(hb, f.t) {
        IngestedHostOk(hb, f, op.order);
      }
      assert Next(s, op).hosts == s.hosts[op.host := Ingested(hb, f, op.order)];
    }
  }

  lemma TakeKeepsBuckets(s: State, op: Op)
    requires op.Take? && Enabled(s, op) && BucketsOk(s)
    ensures BucketsOk(Next(s, op))
  {
    var hb, hb' := s.hosts[op.host], Next(s, op).hosts[op.host];
    assert HostOk(op.host, hb);
    BatchesOkOf(op.host, hb, op.order);
    forall k | k in hb'.buckets
      ensures LiveOk(op.host, hb', k)
    {
      assert LiveOk(op.host, hb, k);
    }
  }

  lemma SettleKeepsBuckets(s: State, op: Op)
    requires op.Settle? && Enabled(s, op) && BucketsOk(s)
    ensures BucketsOk(Next(s, op))
  {
    var b := s.writes[op.write];
    assert BucketOk(b.host, b.start, b.bucket);
    if !op.ok {
      var hb, hb' := s.hosts[b.host], Next(s, op).hosts[b.host];
      assert HostOk(b.host, hb);
      forall k | k in hb'.buckets
        ensures LiveOk(b.host, hb', k)
      {
        assert LiveOk(b.host, hb, k);
      }
    }
  }

  /**
   In every reachable state each bucket, wherever it is, holds what recomputing from its frames gives,
   and the frames are of one host, one window and one set of keys; a row holds their rounded summary.
   */
  lemma {:induction false} BucketsAreNaive(ops: seq<Op>)
    ensures BucketsOk(Run(ops))
  {
    if ops == [] {
    } else {
      var s, op := Run(ops[..|ops| - 1]), ops[|ops| - 1];
      BucketsAreNaive(ops[..|ops| - 1]);
      if Enabled(s, op) {
        match op {
          case Ingest(_, _, _, _) => IngestKeepsBuckets(s, op);
          case Take(_, _, _) => TakeKeepsBuckets(s, op);
          case Settle(_, _) => SettleKeepsBuckets(s, op);
        }
      }
    }
  }

  // ---- Every accepted frame is held once ----

  /** The watermark covers what was accepted, and a host's frames were accepted in the order of their times. */
  predicate AcceptedOk(s: State) {
    && (forall f | f in s.accepted ::
          f.host in s.hosts && s.hosts[f.host].watermark.Some? && f.t <= s.hosts[f.host].watermark.value)
    && forall i, j | 0 <= i < j < |s.accepted| && s.accepted[i].host == s.accepted[j].host ::
         s.accepted[i].t < s.accepted[j].t
  }

  lemma IngestKeepsOrder(s: State, op: Op)
    requires op.Ingest? && Enabled(s, op) && AcceptedOk(s)
    ensures AcceptedOk(Next(s, op))
  {
    var hb, s' := HostOf(s, op.host), Next(s, op);
    if op.metrics != NotObject && Accepts(hb, op.t) {
      assert forall f | f in s.accepted && f.host == op.host :: f.t < op.t;
      assert s'.hosts[op.host].watermark == Some(op.t);
      assert s'.accepted == s.accepted + [Frame(op.host, op.t, op.metrics.fields)];
    }
  }

  lemma {:induction false} AcceptedInOrder(ops: seq<Op>)
    ensures AcceptedOk(Run(ops))
  {
    if ops == [] {
    } else {
      var s, op := Run(ops[..|ops| - 1]), ops[|ops| - 1];
      AcceptedInOrder(ops[..|ops| - 1]);
      if Enabled(s, op) {
        match op {
          case Ingest(_, _, _, _) => IngestKeepsOrder(s, op);
          case Take(_, _, _) =>
          case Settle(_, _) =>
        }
      }
    }
  }

  lemma {:induction false} CountDistinct(frames: seq<Frame>, x: Frame)
    requires forall i, j | 0 <= i < j < |frames| && frames[i].host == frames[j].host :: frames[i].t < frames[j].t
    ensures CountIn(frames, x) == if x in frames then 1 else 0
  {
    if frames == [] {
    } else {
      var n := |frames| - 1;
      CountDistinct(frames[..n], x);
      assert frames == frames[..n] + [frames[n]];
    }
  }

  /**
   Under every interleaving each accepted frame is held exactly once, be it in a live bucket, a stale
   list, a write on the way, a row or a rejected write; a frame not accepted is held nowhere.
   */
  lemma EachFrameOnce(ops: seq<Op>, x: Frame)
    ensures Held(Run(ops), x) == if x in Run(ops).accepted then 1 else 0
  {
    AcceptedInOrder(ops);
    CountDistinct(Run(ops).accepted, x);
    FramesAreConserved(ops, x);
  }

  // ---- A live bucket holds what was accepted in its window since it last left ----

  function Window(accepted: seq<Frame>, host: HostId, start: Start): seq<Frame> {
    if accepted == [] then []
    else
      var f := accepted[|accepted| - 1];
      Window(accepted[..|accepted| - 1], host, start)
      + if f.host == host && BucketStart(f.t) == start then [f] else []
  }

  lemma WindowExtends(accepted: seq<Frame>, f: Frame, host: HostId, start: Start)
    ensures Window(accepted + [f], host, start)
         == Window(accepted, host, start) + if f.host == host && BucketStart(f.t) == start then [f] else []
  {
    assert (accepted + [f])[..|accepted|] == accepted;
  }

  predicate IsSuffix(xs: seq<Frame>, ys: seq<Frame>) {
    |xs| <= |ys| && ys[|ys| - |xs|..] == xs
  }

  predicate LiveIsRecent(s: State) {
    forall h, start | h in s.hosts && start in s.hosts[h].buckets ::
      IsSuffix(s.hosts[h].buckets[start].frames, Window(s.accepted, h, start))
  }

  lemma SuffixExtends(xs: seq<Frame>, ys: seq<Frame>, f: Frame)
    requires IsSuffix(xs, ys)
    ensures IsSuffix(xs + [f], ys + [f])
  {
    assert (ys + [f])[|ys| - |xs|..] == ys[|ys| - |xs|..] + [f];
  }

  /** What the bucket of an accepted frame held before. */
  function FramesBefore(hb: HostBuckets, f: Frame): seq<Frame> {
    var start := BucketStart(f.t);
    if start in hb.buckets && !Switches(hb, f.fields.Keys) then hb.buckets[start].frames else []
  }

  lemma IngestedFramesAt(hb: HostBuckets, f: Frame, order: seq<Start>, start: Start)
    requires IsOrder(order, hb.buckets.Keys) && Accepts(hb, f.t) && start in Ingested(hb, f, order).buckets
    ensures start == BucketStart(f.t) ==> Ingested(hb, f, order).buckets[start].frames == FramesBefore(hb, f) + [f]
    ensures start != BucketStart(f.t) ==>
              start in hb.buckets && Ingested(hb, f, order).buckets[start] == hb.buckets[start]
  {
  }

  lemma BeforeIsRecent(hb: HostBuckets, f: Frame, accepted: seq<Frame>)
    requires forall k | k in hb.buckets :: IsSuffix(hb.buckets[k].frames, Window(accepted, f.host, k))
    ensures IsSuffix(FramesBefore(hb, f), Window(accepted, f.host, BucketStart(f.t)))
  {
  }

  lemma IngestedIsRecent(hb: HostBuckets, f: Frame, order: seq<Start>, accepted: seq<Frame>, start: Start)
    requires IsOrder(order, hb.buckets.Keys) && Accepts(hb, f.t)
    requires forall k | k in hb.buckets :: IsSuffix(hb.buckets[k].frames, Window(accepted, f.host, k))
    requires start in Ingested(hb, f, order).buckets
    ensures IsSuffix(Ingested(hb, f, order).buckets[start].frames, Window(accepted + [f], f.host, start))
  {
    hide Ingested, Window, IsSuffix, FramesBefore;
    WindowExtends(accepted, f, f.host, start);
    IngestedFramesAt(hb, f, order, start);
    if start == BucketStart(f.t) {
      BeforeIsRecent(hb, f, accepted);
      SuffixExtends(FramesBefore(hb, f), Window(accepted, f.host, start), f);
    } else {
      assert Window(accepted, f.host, start) + [] == Window(accepted, f.host, start);
    }
  }

  lemma IngestKeepsRecent(s: State, op: Op)
    requires op.Ingest? && Enabled(s, op) && LiveIsRecent(s)
    ensures LiveIsRecent(Next(s, op))
  {
    var s', hb := Next(s, op), HostOf(s, op.host);
    if op.metrics != NotObject && Accepts(hb, op.t) {
      var f := Frame(op.host, op.t, op.metrics.fields);
      forall h, start | h in s'.hosts && start in s'.hosts[h].buckets
        ensures IsSuffix(s'.hosts[h].buckets[start].frames, Window(s'.accepted, h, start))
      {
        if h == op.host {
          IngestedIsRecent(hb, f, op.order, s.accepted, start);
        } else {
          WindowExtends(s.accepted, f, h, start);
        }
      }
    }
  }

  /** The frames of a live bucket are the last ones accepted in its window; by `EachFrameOnce` the others have left. */
  lemma {:induction false} LiveBucketsAreRecent(ops: seq<Op>)
    ensures LiveIsRecent(Run(ops))
  {
    if ops == [] {
    } else {
      var s, op := Run(ops[..|ops| - 1]), ops[|ops| - 1];
      LiveBucketsAreRecent(ops[..|ops| - 1]);
      if op.Ingest? && Enabled(s, op) {
        IngestKeepsRecent(s, op);
      }
    }
  }

  // ---- What is not in the live bucket has left it ----

  predicate InBatch(batches: seq<Batch>, x: Frame) {
    exists b | b in batches :: x in b.bucket.frames
  }

  /** Whether the frame is in a stale list, a write on the way, a row or a rejected write. */
  predicate HasLeft(s: State, x: Frame) {
    || (exists h | h in s.hosts :: InBatch(s.hosts[h].stale, x))
    || InBatch(s.writes, x)
    || (exists k | k in s.rows :: x in s.rows[k].frames)
    || InBatch(s.rejected, x)
  }

  lemma {:induction false} CountIffIn(frames: seq<Frame>, x: Frame)
    ensures CountIn(frames, x) > 0 <==> x in frames
  {
    if frames == [] {
    } else {
      var n := |frames| - 1;
      CountIffIn(frames[..n], x);
      assert frames == frames[..n] + [frames[n]];
    }
  }

  lemma {:induction false} BatchesIffIn(batches: seq<Batch>, x: Frame)
    ensures InBatches(batches, x) > 0 <==> InBatch(batches, x)
  {
    if batches == [] {
    } else {
      var n := |batches| - 1;
      BatchesIffIn(batches[..n], x);
      CountIffIn(batches[n].bucket.frames, x);
      assert batches == batches[..n] + [batches[n]];
    }
  }

  predicate SomePositive<K(==)>(m: map<K, nat>) {
    exists k | k in m :: m[k] > 0
  }

  lemma {:induction false} TotalPositive<K>(m: map<K, nat>)
    ensures Total(m) > 0 <==> SomePositive(m)
    decreases |m|
  {
    if k :| k in m {
      var rest := m - {k};
      TotalRemove(m, k);
      TotalPositive(rest);
      if j :| j in m && m[j] > 0 {
        assert j == k || (j in rest && rest[j] > 0);
      }
      if j :| j in rest && rest[j] > 0 {
        assert m[j] > 0;
      }
    }
  }

  /** The part of `Held` that has left the live buckets. */
  ghost function HeldOutside(s: State, x: Frame): nat {
    Total(StaleCounts(s.hosts, x)) + InBatches(s.writes, x) + InRows(s.rows, x) + InBatches(s.rejected, x)
  }

  ghost function StaleCounts(hosts: map<HostId, HostBuckets>, x: Frame): map<HostId, nat> {
    map h | h in hosts :: InBatches(hosts[h].stale, x)
  }

  ghost function LiveCounts(hosts: map<HostId, HostBuckets>, x: Frame): map<HostId, nat> {
    map h | h in hosts :: InLive(hosts[h].buckets, x)
  }

  lemma {:induction false} TotalAdds<K>(a: map<K, nat>, b: map<K, nat>, c: map<K, nat>)
    requires a.Keys == b.Keys == c.Keys && forall k | k in a :: c[k] == a[k] + b[k]
    ensures Total(c) == Total(a) + Total(b)
    decreases |c|
  {
    if k :| k in c {
      TotalRemove(a, k);
      TotalRemove(b, k);
      TotalRemove(c, k);
      TotalAdds(a - {k}, b - {k}, c - {k});
    }
  }

  lemma HeldInTwoParts(s: State, x: Frame)
    ensures Held(s, x) == Total(LiveCounts(s.hosts, x)) + HeldOutside(s, x)
  {
    TotalAdds(LiveCounts(s.hosts, x), StaleCounts(s.hosts, x), PerHost(s.hosts, x));
  }

  lemma StaleIff(hosts: map<HostId, HostBuckets>, x: Frame)
    ensures Total(StaleCounts(hosts, x)) > 0 <==> exists h | h in hosts :: InBatch(hosts[h].stale, x)
  {
    var m := StaleCounts(hosts, x);
    TotalPositive(m);
    forall h | h in hosts
      ensures h in m && (m[h] > 0 <==> InBatch(hosts[h].stale, x))
    {
      BatchesIffIn(hosts[h].stale, x);
    }
  }

  lemma RowsIff(rows: map<RowKey, Row>, x: Frame)
    ensures InRows(rows, x) > 0 <==> exists k | k in rows :: x in rows[k].frames
  {
    var m := PerRow(rows, x);
    TotalPositive(m);
    forall k | k in rows
      ensures k in m && (m[k] > 0 <==> x in rows[k].frames)
    {
      CountIffIn(rows[k].frames, x);
    }
  }

  lemma OutsideIffLeft(s: State, x: Frame)
    ensures HeldOutside(s, x) > 0 <==> HasLeft(s, x)
  {
    StaleIff(s.hosts, x);
    BatchesIffIn(s.writes, x);
    RowsIff(s.rows, x);
    BatchesIffIn(s.rejected, x);
  }

  predicate InLiveBucket(hb: HostBuckets, x: Frame) {
    exists start | start in hb.buckets :: x in hb.buckets[start].frames
  }

  predicate IsLive(s: State, x: Frame) {
    exists h | h in s.hosts :: InLiveBucket(s.hosts[h], x)
  }

  lemma LiveIff(hb: HostBuckets, x: Frame)
    ensures InLive(hb.buckets, x) > 0 <==> InLiveBucket(hb, x)
  {
    var m := PerBucket(hb.buckets, x);
    TotalPositive(m);
    forall start | start in hb.buckets
      ensures start in m && (m[start] > 0 <==> x in hb.buckets[start].frames)
    {
      CountIffIn(hb.buckets[start].frames, x);
    }
  }

  lemma LiveTotalIff(s: State, x: Frame)
    ensures Total(LiveCounts(s.hosts, x)) > 0 <==> IsLive(s, x)
  {
    var m := LiveCounts(s.hosts, x);
    TotalPositive(m);
    forall h | h in s.hosts
      ensures h in m && (m[h] > 0 <==> InLiveBucket(s.hosts[h], x))
    {
      LiveIff(s.hosts[h], x);
    }
  }

  /** An accepted frame is in a live bucket exactly as long as it has not left. */
  lemma LiveIffNotLeft(ops: seq<Op>, x: Frame)
    requires x in Run(ops).accepted
    ensures IsLive(Run(ops), x) <==> !HasLeft(Run(ops), x)
  {
    EachFrameOnce(ops, x);
    HeldInTwoParts(Run(ops), x);
    LiveTotalIff(Run(ops), x);
    OutsideIffLeft(Run(ops), x);
  }

  lemma {:induction false} WindowHolds(accepted: seq<Frame>, host: HostId, start: Start, x: Frame)
    ensures x in Window(accepted, host, start) <==> x in accepted && x.host == host && BucketStart(x.t) == start
  {
    if accepted == [] {
    } else {
      var n := |accepted| - 1;
      WindowHolds(accepted[..n], host, start, x);
      assert accepted == accepted[..n] + [accepted[n]];
    }
  }

  /** A live frame is in the bucket of its host and window, and nowhere else. */
  lemma LiveFrameIsHome(s: State, x: Frame)
    requires BucketsOk(s) && IsLive(s, x)
    ensures x.host in s.hosts && BucketStart(x.t) in s.hosts[x.host].buckets
    ensures x in s.hosts[x.host].buckets[BucketStart(x.t)].frames
  {
    var h :| h in s.hosts && InLiveBucket(s.hosts[h], x);
    var start :| start in s.hosts[h].buckets && x in s.hosts[h].buckets[start].frames;
    BucketFrame(s, h, start, x);
  }

  lemma BucketFrame(s: State, host: HostId, start: Start, x: Frame)
    requires BucketsOk(s) && host in s.hosts && start in s.hosts[host].buckets
    requires x in s.hosts[host].buckets[start].frames
    ensures x.host == host && BucketStart(x.t) == start
  {
    assert HostOk(host, s.hosts[host]) && LiveOk(host, s.hosts[host], start);
  }

  lemma HeldIsAccepted(ops: seq<Op>, x: Frame)
    requires IsLive(Run(ops), x)
    ensures x in Run(ops).accepted
  {
    EachFrameOnce(ops, x);
    HeldInTwoParts(Run(ops), x);
    LiveTotalIff(Run(ops), x);
  }

  /**
   Since the last drain: of the frames accepted in its window a live bucket holds exactly those that have
   not left for a stale list, a write, a row or a rejected write, and they are the last ones.
   */
  lemma LiveBucketIsRest(ops: seq<Op>, host: HostId, start: Start, x: Frame)
    requires host in Run(ops).hosts && start in Run(ops).hosts[host].buckets
    ensures IsSuffix(Run(ops).hosts[host].buckets[start].frames, Window(Run(ops).accepted, host, start))
    ensures x in Run(ops).hosts[host].buckets[start].frames
       <==> x in Window(Run(ops).accepted, host, start) && !HasLeft(Run(ops), x)
  {
    hide Run, BucketsOk, HasLeft, Window, IsSuffix;
    var s := Run(ops);
    LiveBucketsAreRecent(ops);
    BucketsAreNaive(ops);
    WindowHolds(s.accepted, host, start, x);
    if x in s.hosts[host].buckets[start].frames {
      BucketFrame(s, host, start, x);
      assert InLiveBucket(s.hosts[host], x);
      HeldIsAccepted(ops, x);
      LiveIffNotLeft(ops, x);
    } else if x in Window(s.accepted, host, start) && !HasLeft(s, x) {
      LiveIffNotLeft(ops, x);
      LiveFrameIsHome(s, x);
    }
  }
}
