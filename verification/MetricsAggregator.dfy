/**
 Down-sampling of live readings into five-minute buckets
 (crates/foims-agent-service/src/metrics_aggregator.rs).

 A frame is one reading of one host. Accepted frames are accumulated in buckets; buckets leave as
 writes and end as rows of `host_metrics_history` or, when their row is already there, rejected.
 `Bucket.frames`, `Row.frames` and `State.accepted` are history: no operation looks at them, they
 record which frames went where so that the lemmas can say so.
 */
module MetricsAggregator {
  import opened Wrappers
  import opened Rounding
  import opened Extremes

  const BUCKET_SPAN_SECS := 300
  const BUCKET_LINGER_SECS := 600

  type HostId = nat
  /** The start of a window, in seconds since 1970. */
  type Start = x: int | x % BUCKET_SPAN_SECS == 0

  type Count = n: nat | n > 0 witness 1

  /** A field of the reported object; everything but a finite number counts as NotFinite. */
  datatype Field = Finite(value: real) | NotFinite

  datatype Metrics = Object(fields: map<string, Field>) | NotObject

  datatype Frame = Frame(host: HostId, t: int, fields: map<string, Field>)

  datatype MetricAcc = MetricAcc(sum: real, min: real, max: real, last: real, cnt: Count)
  {
    function Push(v: real): MetricAcc {
      MetricAcc(sum + v, if v < min then v else min, if v > max then v else max, v, cnt + 1)
    }
  }

  function NewAcc(v: real): MetricAcc {
    MetricAcc(v, v, v, v, 1)
  }

  type Accs = map<string, MetricAcc>

  datatype Bucket = Bucket(accs: Accs, frames: seq<Frame>)

  const EMPTY_BUCKET := Bucket(map[], [])

  /** A bucket that has left the live buckets of its host. */
  datatype Batch = Batch(host: HostId, start: Start, bucket: Bucket)

  datatype HostBuckets = HostBuckets(
    buckets: map<Start, Bucket>,
    stale: seq<Batch>,
    fingerprint: Option<set<string>>,
    watermark: Option<int>)

  const NO_BUCKETS := HostBuckets(map[], [], None, None)

  // ---- Accumulation ----

  function FiniteKeys(fields: map<string, Field>): set<string> {
    set k | k in fields && fields[k].Finite?
  }

  function Accumulated(accs: Accs, fields: map<string, Field>): Accs {
    map k | k in accs.Keys + FiniteKeys(fields) ::
      if k !in FiniteKeys(fields) then accs[k]
      else if k in accs then accs[k].Push(fields[k].value)
      else NewAcc(fields[k].value)
  }

  method Accumulate(accs: Accs, fields: map<string, Field>) returns (accs': Accs)
    ensures accs' == Accumulated(accs, fields)
  {
    accs' := accs;
    var todo := fields.Keys;
    while todo != {}
      invariant todo <= fields.Keys
      invariant accs'.Keys == accs.Keys + (FiniteKeys(fields) - todo)
      invariant forall k | k in accs' :: accs'[k] == if k in todo then accs[k] else Accumulated(accs, fields)[k]
      decreases todo
    {
      var key :| key in todo;
      if fields[key].Finite? {
        var v := fields[key].value;
        accs' := accs'[key := if key in accs' then accs'[key].Push(v) else NewAcc(v)];
      }
      todo := todo - {key};
    }
  }

  // ---- The naive recomputation ----

  /** The finite values of `key` in the frames, oldest first. */
  function Values(frames: seq<Frame>, key: string): seq<real> {
    if frames == [] then []
    else
      var f := frames[|frames| - 1];
      Values(frames[..|frames| - 1], key)
      + if key in f.fields && f.fields[key].Finite? then [f.fields[key].value] else []
  }

  function KeysSeen(frames: seq<Frame>): (keys: set<string>)
    ensures forall k :: k in keys <==> Values(frames, k) != []
  {
    if frames == [] then {} else KeysSeen(frames[..|frames| - 1]) + FiniteKeys(frames[|frames| - 1].fields)
  }

  function AccOf(xs: seq<real>): MetricAcc
    requires xs != []
  {
    MetricAcc(SumOf(xs), MinOf(xs), MaxOf(xs), xs[|xs| - 1], |xs|)
  }

  /** The accumulators recomputed from the frames: sum, minimum, maximum, last and number of the values. */
  function Summary(frames: seq<Frame>): Accs {
    map k | k in KeysSeen(frames) :: AccOf(Values(frames, k))
  }

  lemma PushExtends(xs: seq<real>, v: real)
    ensures AccOf(xs + [v]) == if xs == [] then NewAcc(v) else AccOf(xs).Push(v)
  {
    var ys := xs + [v];
    assert ys[..|ys| - 1] == xs && ys[|ys| - 1] == v;
    if xs != [] {
      assert MinOf(ys) == (if v < MinOf(xs) then v else MinOf(xs));
      assert MaxOf(ys) == (if v > MaxOf(xs) then v else MaxOf(xs));
    }
  }

  lemma ValuesExtend(frames: seq<Frame>, f: Frame, key: string)
    ensures Values(frames + [f], key)
         == Values(frames, key) + if key in FiniteKeys(f.fields) then [f.fields[key].value] else []
  {
    assert (frames + [f])[..|frames|] == frames;
  }

  lemma SummaryAt(frames: seq<Frame>, k: string)
    ensures k in Summary(frames) <==> Values(frames, k) != []
    ensures k in Summary(frames) ==> Summary(frames)[k] == AccOf(Values(frames, k))
  {
  }

  lemma AccumulatedAt(accs: Accs, fields: map<string, Field>, k: string)
    ensures k in Accumulated(accs, fields) <==> k in accs || k in FiniteKeys(fields)
    ensures k in Accumulated(accs, fields) ==>
              Accumulated(accs, fields)[k]
              == if k !in FiniteKeys(fields) then accs[k]
                 else if k in accs then accs[k].Push(fields[k].value)
                 else NewAcc(fields[k].value)
  {
  }

  lemma KeyExtends(frames: seq<Frame>, f: Frame, k: string)
    ensures k in Summary(frames + [f]) <==> k in Accumulated(Summary(frames), f.fields)
    ensures k in Summary(frames + [f]) ==> Summary(frames + [f])[k] == Accumulated(Summary(frames), f.fields)[k]
  {
    var after, xs, ys := frames + [f], Values(frames, k), Values(frames + [f], k);
    ValuesExtend(frames, f, k);
    SummaryAt(frames, k);
    SummaryAt(after, k);
    AccumulatedAt(Summary(frames), f.fields, k);
    if k in FiniteKeys(f.fields) {
      PushExtends(xs, f.fields[k].value);
      assert ys == xs + [f.fields[k].value];
    } else {
      assert ys == xs;
    }
  }

  /** Accumulating one more frame is recomputing from one more frame. */
  lemma SummaryExtends(frames: seq<Frame>, f: Frame)
    ensures Summary(frames + [f]) == Accumulated(Summary(frames), f.fields)
  {
    var after, expected := Summary(frames + [f]), Accumulated(Summary(frames), f.fields);
    forall k
      ensures k in after <==> k in expected
      ensures k in after ==> after[k] == expected[k]
    {
      KeyExtends(frames, f, k);
    }
    assert after.Keys == expected.Keys;
  }

  // ---- The operations ----

  /** The start of the 300-second window of an instant; rounds down for instants before 1970 as well. */
  function BucketStart(t: int): Start {
    t / BUCKET_SPAN_SECS * BUCKET_SPAN_SECS
  }

  lemma BucketStartIs(t: int, start: int)
    ensures start == BucketStart(t) <==> start % 300 == 0 && start <= t < start + 300
  {
    assert t == t / 300 * 300 + t % 300;
    if start % 300 == 0 && start <= t < start + 300 {
      assert start == start / 300 * 300;
    }
  }

  /** An order in which a hash map may yield its keys. */
  predicate IsOrder(order: seq<Start>, keys: set<Start>) {
    && (forall i | 0 <= i < |order| :: order[i] in keys)
    && (forall k | k in keys :: k in order)
    && forall i, j | 0 <= i < j < |order| :: order[i] != order[j]
  }

  function Batches(host: HostId, buckets: map<Start, Bucket>, order: seq<Start>): seq<Batch>
    requires forall i | 0 <= i < |order| :: order[i] in buckets
  {
    seq(|order|, i requires 0 <= i < |order| => Batch(host, order[i], buckets[order[i]]))
  }

  predicate Accepts(hb: HostBuckets, t: int) {
    hb.watermark.Some? ==> t > hb.watermark.value
  }

  /** Whether a frame with these keys makes the host set its live buckets aside. */
  predicate Switches(hb: HostBuckets, keys: set<string>) {
    hb.fingerprint != Some(keys)
  }

  function Ingested(hb: HostBuckets, f: Frame, order: seq<Start>): HostBuckets
    requires IsOrder(order, hb.buckets.Keys)
  {
    if !Accepts(hb, f.t) then hb
    else
      var start := BucketStart(f.t);
      var live := if Switches(hb, f.fields.Keys) then map[] else hb.buckets;
      var stale := if Switches(hb, f.fields.Keys) then hb.stale + Batches(f.host, hb.buckets, order) else hb.stale;
      var was := if start in live then live[start] else EMPTY_BUCKET;
      HostBuckets(live[start := Bucket(Accumulated(was.accs, f.fields), was.frames + [f])], stale,
                  Some(f.fields.Keys), Some(f.t))
  }

  function Expired(hb: HostBuckets, cutoff: int): set<Start> {
    set start | start in hb.buckets && start <= cutoff
  }

  function Unexpired(hb: HostBuckets, cutoff: int): map<Start, Bucket> {
    map start | start in hb.buckets && start > cutoff :: hb.buckets[start]
  }

  datatype BucketSpec = BucketSpec(avg: real, min: real, max: real, last: real, cnt: Count)

  /** The JSON object of a row: per key the rounded average, the extremes, the last value and the count. */
  function BucketMetrics(accs: Accs): map<string, BucketSpec> {
    map k | k in accs ::
      BucketSpec(Round4(accs[k].sum / accs[k].cnt as real), accs[k].min, accs[k].max, accs[k].last, accs[k].cnt)
  }

  datatype RowKey = RowKey(host: HostId, start: Start)

  /** Rows are never changed: the first writer of a row wins. */
  predicate RowsKept(before: map<RowKey, Row>, after: map<RowKey, Row>) {
    forall k | k in before :: k in after && after[k] == before[k]
  }

  function KeyOf(b: Batch): RowKey {
    RowKey(b.host, b.start)
  }

  datatype Row = Row(metrics: map<string, BucketSpec>, frames: seq<Frame>)

  datatype State = State(
    hosts: map<HostId, HostBuckets>,
    writes: seq<Batch>,
    rows: map<RowKey, Row>,
    rejected: seq<Batch>,
    accepted: seq<Frame>)

  const INITIAL := State(map[], [], map[], [], [])

  function HostOf(s: State, host: HostId): HostBuckets {
    if host in s.hosts then s.hosts[host] else NO_BUCKETS
  }

  datatype Op =
    | Ingest(host: HostId, t: int, metrics: Metrics, order: seq<Start>)
    | Take(host: HostId, cutoff: int, order: seq<Start>)
    | Settle(write: nat, ok: bool)

  predicate Enabled(s: State, op: Op) {
    match op
    case Ingest(host, _, _, order) => IsOrder(order, HostOf(s, host).buckets.Keys)
    case Take(host, cutoff, order) => host in s.hosts && IsOrder(order, Expired(s.hosts[host], cutoff))
    case Settle(write, _) => write < |s.writes| && s.writes[write].host in s.hosts
  }

  function Taken(s: State, host: HostId, cutoff: int, order: seq<Start>): State
    requires host in s.hosts && IsOrder(order, Expired(s.hosts[host], cutoff))
  {
    var hb := s.hosts[host];
    s.(hosts := s.hosts[host := hb.(buckets := Unexpired(hb, cutoff), stale := [])],
       writes := s.writes + Batches(host, hb.buckets, order) + hb.stale)
  }

  function Without<T>(xs: seq<T>, i: nat): seq<T>
    requires i < |xs|
  {
    xs[..i] + xs[i + 1..]
  }

  /** One INSERT comes back: failed, done, or done without effect because the row exists. */
  function Settled(s: State, write: nat, ok: bool): State
    requires write < |s.writes| && s.writes[write].host in s.hosts
  {
    var b := s.writes[write];
    var key := KeyOf(b);
    var s := s.(writes := Without(s.writes, write));
    if !ok then
      var hb := s.hosts[b.host];
      s.(hosts := s.hosts[b.host := hb.(stale := hb.stale + [b])])
    else if key in s.rows then s.(rejected := s.rejected + [b])
    else s.(rows := s.rows[key := Row(BucketMetrics(b.bucket.accs), b.bucket.frames)])
  }

  function Next(s: State, op: Op): State
    requires Enabled(s, op)
  {
    match op
    case Ingest(host, t, metrics, order) =>
      if metrics == NotObject then s
      else
        var hb := HostOf(s, host);
        var f := Frame(host, t, metrics.fields);
        s.(hosts := s.hosts[host := Ingested(hb, f, order)],
           accepted := if Accepts(hb, t) then s.accepted + [f] else s.accepted)
    case Take(host, cutoff, order) => Taken(s, host, cutoff, order)
    case Settle(write, ok) => Settled(s, write, ok)
  }

  // ---- Runs ----

  function Apply(s: State, op: Op): State {
    if Enabled(s, op) then Next(s, op) else s
  }

  /** The state after some more operations; one that is not enabled has no effect. */
  function After(s: State, more: seq<Op>): State
    decreases |more|
  {
    if more == [] then s else After(Apply(s, more[0]), more[1..])
  }

  lemma {:induction false} AfterBoth(s: State, xs: seq<Op>, ys: seq<Op>)
    ensures After(s, xs + ys) == After(After(s, xs), ys)
    decreases |xs|
  {
    if xs == [] {
      assert xs + ys == ys;
    } else {
      assert (xs + ys)[1..] == xs[1..] + ys;
      AfterBoth(Apply(s, xs[0]), xs[1..], ys);
    }
  }

  lemma AfterOneMore(s: State, ops: seq<Op>, op: Op)
    ensures After(s, ops + [op]) == Apply(After(s, ops), op)
  {
    AfterBoth(s, ops, [op]);
    assert [op][1..] == [];
  }

  // ---- What a flush is about ----

  /** The buckets that leave with this cutoff: the live ones that begin no later, and all stale ones. */
  predicate Leaves(hosts: map<HostId, HostBuckets>, cutoff: int, b: Batch) {
    || (b.host in hosts && b.start in Expired(hosts[b.host], cutoff) && b.bucket == hosts[b.host].buckets[b.start])
    || exists h | h in hosts :: b in hosts[h].stale
  }

  predicate Stored(s: State, b: Batch) {
    KeyOf(b) in s.rows && s.rows[KeyOf(b)] == Row(BucketMetrics(b.bucket.accs), b.bucket.frames)
  }

  /** What became of a batch: it waits if its write failed; else its frames are its row, or another's row is there. */
  predicate Fated(s: State, b: Batch, failing: set<Batch>) {
    if b in failing then b.host in s.hosts && b in s.hosts[b.host].stale
    else Stored(s, b) || (b in s.rejected && KeyOf(b) in s.rows)
  }

  predicate BucketsKept(s: State, s': State) {
    s'.hosts.Keys == s.hosts.Keys && forall h | h in s.hosts :: s'.hosts[h].buckets == s.hosts[h].buckets
  }

  /** What is stale now was so before, or its write has failed. */
  predicate StaleGrows(s: State, s': State, failing: set<Batch>) {
    forall h | h in s'.hosts :: forall b | b in s'.hosts[h].stale ::
      (h in s.hosts && b in s.hosts[h].stale) || (b in failing && b in s.writes)
  }

  /** The writes of a flush, one after the other; the failing ones fail. */
  function Settles(batches: seq<Batch>, failing: set<Batch>): seq<Op> {
    seq(|batches|, i requires 0 <= i < |batches| => Settle(0, batches[i] !in failing))
  }

  predicate HostsKnown(s: State) {
    && (forall b | b in s.writes :: b.host in s.hosts)
    && forall h | h in s.hosts :: forall b | b in s.hosts[h].stale :: b.host in s.hosts
  }

  // ---- Writing out ----

  lemma SettledFirst(s: State, failing: set<Batch>)
    requires s.writes != [] && HostsKnown(s)
    ensures var s1 := Settled(s, 0, s.writes[0] !in failing);
            && HostsKnown(s1) && s1.writes == s.writes[1..] && s1.accepted == s.accepted
            && RowsKept(s.rows, s1.rows) && BucketsKept(s, s1) && Fated(s1, s.writes[0], failing)
            && StaleGrows(s, s1, failing)
  {
  }

  lemma SettleKeepsFate(s: State, ok: bool, b: Batch, failing: set<Batch>)
    requires s.writes != [] && s.writes[0].host in s.hosts && Fated(s, b, failing)
    ensures Fated(Settled(s, 0, ok), b, failing)
  {
  }

  lemma SettlesStep(s: State, failing: set<Batch>)
    requires s.writes != [] && HostsKnown(s)
    ensures var s1 := Settled(s, 0, s.writes[0] !in failing);
            After(s, Settles(s.writes, failing)) == After(s1, Settles(s1.writes, failing))
  {
    var ops := Settles(s.writes, failing);
    assert ops[1..] == Settles(s.writes[1..], failing);
  }

  lemma {:induction false} FateLasts(s: State, b: Batch, failing: set<Batch>)
    requires HostsKnown(s) && Fated(s, b, failing)
    ensures Fated(After(s, Settles(s.writes, failing)), b, failing)
    decreases |s.writes|
  {
    if s.writes == [] {
    } else {
      SettledFirst(s, failing);
      SettlesStep(s, failing);
      SettleKeepsFate(s, s.writes[0] !in failing, b, failing);
      FateLasts(Settled(s, 0, s.writes[0] !in failing), b, failing);
    }
  }

  /** Nothing but rows, rejected writes and stale lists changes, and every write has its fate. */
  ghost predicate WroteOut(s: State, s': State, failing: set<Batch>) {
    && s'.writes == [] && HostsKnown(s') && s'.accepted == s.accepted
    && RowsKept(s.rows, s'.rows) && BucketsKept(s, s') && StaleGrows(s, s', failing)
    && forall b | b in s.writes :: Fated(s', b, failing)
  }

  lemma WroteOutAfterOne(s: State, s1: State, s': State, failing: set<Batch>)
    requires s.writes != [] && s1.writes == s.writes[1..] && s1.accepted == s.accepted
    requires RowsKept(s.rows, s1.rows) && BucketsKept(s, s1) && StaleGrows(s, s1, failing)
    requires WroteOut(s1, s', failing) && Fated(s', s.writes[0], failing)
    ensures WroteOut(s, s', failing)
  {
    hide Fated, HostsKnown;
    assert s.writes == [s.writes[0]] + s1.writes;
  }

  lemma {:induction false} SettlesWriteOut(s: State, failing: set<Batch>)
    requires HostsKnown(s)
    ensures WroteOut(s, After(s, Settles(s.writes, failing)), failing)
    decreases |s.writes|
  {
    if s.writes == [] {
    } else {
      var s1 := Settled(s, 0, s.writes[0] !in failing);
      SettledFirst(s, failing);
      SettlesStep(s, failing);
      SettlesWriteOut(s1, failing);
      FateLasts(s1, s.writes[0], failing);
      WroteOutAfterOne(s, s1, After(s, Settles(s.writes, failing)), failing);
    }
  }

  /** Enumerates keys in whatever order the hash map yields them. */
  method Enumerate(keys: set<Start>) returns (order: seq<Start>)
    ensures IsOrder(order, keys)
  {
    order := [];
    var todo := keys;
    while todo != {}
      invariant todo <= keys
      invariant IsOrder(order, keys - todo)
      decreases todo
    {
      var k :| k in todo;
      order := order + [k];
      todo := todo - {k};
    }
  }

  lemma LeavesOneMore(hosts: map<HostId, HostBuckets>, todo: set<HostId>, h: HostId, cutoff: int, b: Batch)
    requires h in todo && todo <= hosts.Keys
    ensures Leaves(hosts - (todo - {h}), cutoff, b) <==>
            || Leaves(hosts - todo, cutoff, b)
            || (b.host == h && b.start in Expired(hosts[h], cutoff) && b.bucket == hosts[h].buckets[b.start])
            || b in hosts[h].stale
  {
    var fewer, more := hosts - todo, hosts - (todo - {h});
    assert forall x | x in fewer :: x in more && more[x] == fewer[x];
    assert h in more && more[h] == hosts[h];
  }

  /** What a host hands over waits to be written, after what waited before. */
  lemma TakenBatches(s: State, host: HostId, cutoff: int, order: seq<Start>, b: Batch)
    requires host in s.hosts && IsOrder(order, Expired(s.hosts[host], cutoff))
    ensures b in Taken(s, host, cutoff, order).writes <==>
            || b in s.writes
            || (b.host == host && b.start in Expired(s.hosts[host], cutoff)
                && b.bucket == s.hosts[host].buckets[b.start])
            || b in s.hosts[host].stale
  {
    var hb := s.hosts[host];
    var taken := Batches(host, hb.buckets, order);
    if b.host == host && b.start in Expired(hb, cutoff) && b.bucket == hb.buckets[b.start] {
      var i :| 0 <= i < |order| && order[i] == b.start;
      assert taken[i] == b;
    }
    if b in taken {
      var i :| 0 <= i < |taken| && taken[i] == b;
      assert order[i] == b.start;
    }
  }

  class MetricsAggregator {
    var hosts: map<HostId, HostBuckets>
    var writes: seq<Batch>
    var rows: map<RowKey, Row>
    var rejected: seq<Batch>
    ghost var accepted: seq<Frame>

    ghost function Snapshot(): State
      reads this
    {
      State(hosts, writes, rows, rejected, accepted)
    }

    constructor ()
      ensures Snapshot() == INITIAL
    {
      hosts, writes, rows, rejected := map[], [], map[], [];
      accepted := [];
    }

    method IngestFrame(host: HostId, t: int, metrics: Metrics) returns (order: seq<Start>)
      modifies this
      ensures old(Enabled(Snapshot(), Ingest(host, t, metrics, order)))
      ensures Snapshot() == Next(old(Snapshot()), Ingest(host, t, metrics, order))
    {
      var hb := if host in hosts then hosts[host] else NO_BUCKETS;
      order := Enumerate(hb.buckets.Keys);
      if metrics == NotObject {
        return;
      }
      if hb.watermark.Some? && t <= hb.watermark.value {
        hosts := hosts[host := hb];
        return;
      }
      ghost var f := Frame(host, t, metrics.fields);
      hb := hb.(watermark := Some(t));
      var keys := metrics.fields.Keys;
      if hb.fingerprint != Some(keys) {
        hb := hb.(buckets := map[], stale := hb.stale + Batches(host, hb.buckets, order), fingerprint := Some(keys));
      }
      var start := BucketStart(t);
      var bucket := if start in hb.buckets then hb.buckets[start] else EMPTY_BUCKET;
      var accs := Accumulate(bucket.accs, metrics.fields);
      bucket := Bucket(accs, bucket.frames + [Frame(host, t, metrics.fields)]);
      hosts := hosts[host := hb.(buckets := hb.buckets[start := bucket])];
      accepted := accepted + [f];
    }

    method TakeExpired(host: HostId, cutoff: int) returns (order: seq<Start>)
      requires host in hosts
      modifies this
      ensures old(Enabled(Snapshot(), Take(host, cutoff, order)))
      ensures Snapshot() == Next(old(Snapshot()), Take(host, cutoff, order))
    {
      var hb := hosts[host];
      var expired := set start | start in hb.buckets && start <= cutoff;
      order := Enumerate(expired);
      var out: seq<Batch> := [];
      var live := hb.buckets;
      for i := 0 to |order|
        invariant out == Batches(host, hb.buckets, order)[..i]
        invariant live == map start | start in hb.buckets && start !in order[..i] :: hb.buckets[start]
      {
        out := out + [Batch(host, order[i], live[order[i]])];
        live := live - {order[i]};
      }
      assert order[..|order|] == order;
      hosts := hosts[host := hb.(buckets := live, stale := [])];
      writes := writes + (out + hb.stale);
      assert writes == old(writes) + Batches(host, hb.buckets, order) + hb.stale;
      assert live == map start | start in hb.buckets && start > cutoff :: hb.buckets[start];
    }

    method SettleWrite(write: nat, ok: bool)
      requires Enabled(Snapshot(), Settle(write, ok))
      modifies this
      ensures Snapshot() == Next(old(Snapshot()), Settle(write, ok))
    {
      var b := writes[write];
      var key := KeyOf(b);
      writes := writes[..write] + writes[write + 1..];
      if !ok {
        var hb := hosts[b.host];
        hosts := hosts[b.host := hb.(stale := hb.stale + [b])];
      } else if key in rows {
        rejected := rejected + [b];
      } else {
        rows := rows[key := Row(BucketMetrics(b.bucket.accs), b.bucket.frames)];
      }
    }

    /** The first half of a flush: every host hands over what leaves. */
    method TakeAll(cutoff: int) returns (ghost ops: seq<Op>)
      requires writes == [] && HostsKnown(Snapshot())
      modifies this
      ensures Snapshot() == After(old(Snapshot()), ops) && HostsKnown(Snapshot())
      ensures hosts.Keys == old(hosts).Keys && rows == old(rows)
      ensures rejected == old(rejected) && accepted == old(accepted)
      ensures forall h | h in hosts :: hosts[h].buckets == Unexpired(old(hosts)[h], cutoff) && hosts[h].stale == []
      ensures forall b :: b in writes <==> Leaves(old(hosts), cutoff, b)
    {
      ops := [];
      var todo := hosts.Keys;
      while todo != {}
        invariant todo <= hosts.Keys == old(hosts).Keys && HostsKnown(Snapshot())
        invariant Snapshot() == After(old(Snapshot()), ops)
        invariant rows == old(rows) && rejected == old(rejected) && accepted == old(accepted)
        invariant forall h | h in todo :: hosts[h] == old(hosts)[h]
        invariant forall h | h in hosts && h !in todo ::
            hosts[h].buckets == Unexpired(old(hosts)[h], cutoff) && hosts[h].stale == []
        invariant forall b :: b in writes <==> Leaves(old(hosts) - todo, cutoff, b)
        decreases todo
      {
        var h :| h in todo;
        ghost var before := Snapshot();
        var order := TakeExpired(h, cutoff);
        AfterOneMore(old(Snapshot()), ops, Take(h, cutoff, order));
        ops := ops + [Take(h, cutoff, order)];
        forall b
          ensures b in writes <==> Leaves(old(hosts) - (todo - {h}), cutoff, b)
        {
          TakenBatches(before, h, cutoff, order, b);
          LeavesOneMore(old(hosts), todo, h, cutoff, b);
        }
        todo := todo - {h};
      }
      assert old(hosts) - {} == old(hosts);
    }

    /** The second half: the writes one by one, in their order. */
    method WriteOut(failing: set<Batch>)
      requires HostsKnown(Snapshot())
      modifies this
      ensures Snapshot() == After(old(Snapshot()), Settles(old(writes), failing))
      ensures WroteOut(old(Snapshot()), Snapshot(), failing)
    {
      SettlesWriteOut(Snapshot(), failing);
      while writes != []
        invariant HostsKnown(Snapshot())
        invariant After(Snapshot(), Settles(writes, failing)) == After(old(Snapshot()), Settles(old(writes), failing))
        decreases |writes|
      {
        SettledFirst(Snapshot(), failing);
        SettlesStep(Snapshot(), failing);
        SettleWrite(0, writes[0] !in failing);
      }
    }

    /**
     One flush nobody interrupts. Every bucket that leaves, live or stale, is written once: then its frames
     are its row, or it is rejected because another bucket's row is there, or, if its write fails, it waits.
     */
    method FlushCutoff(cutoff: int, failing: set<Batch>) returns (ghost ops: seq<Op>)
      requires writes == [] && HostsKnown(Snapshot())
      modifies this
      ensures Snapshot() == After(old(Snapshot()), ops)
      ensures writes == [] && HostsKnown(Snapshot()) && hosts.Keys == old(hosts).Keys && accepted == old(accepted)
      ensures forall h | h in hosts :: hosts[h].buckets == Unexpired(old(hosts)[h], cutoff)
      ensures forall b | Leaves(old(hosts), cutoff, b) :: Fated(Snapshot(), b, failing)
      ensures forall h, b | h in hosts && b in hosts[h].stale :: b in failing && Leaves(old(hosts), cutoff, b)
      ensures RowsKept(old(rows), rows)
    {
      ops := TakeAll(cutoff);
      AfterBoth(old(Snapshot()), ops, Settles(writes, failing));
      ops := ops + Settles(writes, failing);
      WriteOut(failing);
    }

    /** The periodic flush: a bucket is due 600 seconds after its start, that is 300 after its end. */
    method Flush(now: int, failing: set<Batch>) returns (ghost ops: seq<Op>)
      requires writes == [] && HostsKnown(Snapshot())
      modifies this
      ensures Snapshot() == After(old(Snapshot()), ops) && writes == [] && HostsKnown(Snapshot())
      ensures hosts.Keys == old(hosts).Keys
      ensures forall h | h in hosts ::
                && (forall start :: start in hosts[h].buckets <==> start in old(hosts)[h].buckets && now < start + 600)
                && forall start | start in hosts[h].buckets :: hosts[h].buckets[start] == old(hosts)[h].buckets[start]
      ensures forall h, start | h in old(hosts) && start in old(hosts)[h].buckets && start + 600 <= now ::
                Fated(Snapshot(), Batch(h, start, old(hosts)[h].buckets[start]), failing)
      ensures forall h | h in old(hosts) :: forall b | b in old(hosts)[h].stale :: Fated(Snapshot(), b, failing)
    {
      ops := FlushCutoff(now - BUCKET_LINGER_SECS, failing);
      assert forall h, start | h in old(hosts) && start in old(hosts)[h].buckets && start + 600 <= now ::
          Leaves(old(hosts), now - 600, Batch(h, start, old(hosts)[h].buckets[start]));
    }

    /** The flush at shutdown takes every bucket that has begun, but none that starts in the future. */
    method FlushAll(now: int, failing: set<Batch>) returns (ghost ops: seq<Op>)
      requires writes == [] && HostsKnown(Snapshot())
      modifies this
      ensures Snapshot() == After(old(Snapshot()), ops) && writes == [] && HostsKnown(Snapshot())
      ensures hosts.Keys == old(hosts).Keys
      ensures forall h | h in hosts ::
                && (forall start :: start in hosts[h].buckets <==> start in old(hosts)[h].buckets && now < start)
                && forall start | start in hosts[h].buckets :: hosts[h].buckets[start] == old(hosts)[h].buckets[start]
      ensures forall h, start | h in old(hosts) && start in old(hosts)[h].buckets && start <= now ::
                Fated(Snapshot(), Batch(h, start, old(hosts)[h].buckets[start]), failing)
      ensures forall h | h in old(hosts) :: forall b | b in old(hosts)[h].stale :: Fated(Snapshot(), b, failing)
    {
      ops := FlushCutoff(now, failing);
      assert forall h, start | h in old(hosts) && start in old(hosts)[h].buckets && start <= now ::
          Leaves(old(hosts), now, Batch(h, start, old(hosts)[h].buckets[start]));
    }
  }
}
