/**
 When the aggregator loses accepted frames (crates/foims-agent-service/src/metrics_aggregator.rs).

 A row has one owner: of several buckets for the same host and window the first one whose write works
 gets it, and the others are rejected (`FirstWriteWins`). The module comment of the source says that a
 change of keys loses nothing. It loses the later half of its window if the earlier half is written
 before the window is due, as it is while readings arrive in time (`LaterHalfIsRejected`), and the
 earlier half if both are written in one flush (`EarlierHalfIsRejected`). `LosesIffReopened` tells
 exactly which runs can lose frames.
 */
module AggregatorLosses {
  import opened MetricsAggregator
  import opened AggregatorTheorems

  // ---- The first write gets the row ----

  lemma {:induction false} RejectedLasts(s: State, failing: set<Batch>, b: Batch)
    requires HostsKnown(s) && b in s.rejected
    ensures b in After(s, Settles(s.writes, failing)).rejected
    decreases |s.writes|
  {
    if s.writes == [] {
    } else {
      SettledFirst(s, failing);
      SettlesStep(s, failing);
      RejectedLasts(Settled(s, 0, s.writes[0] !in failing), failing, b);
    }
  }

  lemma {:induction false} TakenRowRejects(s: State, failing: set<Batch>, i: nat)
    requires HostsKnown(s) && i < |s.writes| && s.writes[i] !in failing && KeyOf(s.writes[i]) in s.rows
    ensures s.writes[i] in After(s, Settles(s.writes, failing)).rejected
    decreases |s.writes|
  {
    var s1 := Settled(s, 0, s.writes[0] !in failing);
    SettledFirst(s, failing);
    SettlesStep(s, failing);
    if i == 0 {
      RejectedLasts(s1, failing, s.writes[0]);
    } else {
      TakenRowRejects(s1, failing, i - 1);
    }
  }

  /** `writes[i]` is the first write for its row that works, and the row is not there. */
  predicate IsFirst(s: State, failing: set<Batch>, i: nat)
    requires i < |s.writes|
  {
    && s.writes[i] !in failing && KeyOf(s.writes[i]) !in s.rows
    && forall x | 0 <= x < i && KeyOf(s.writes[x]) == KeyOf(s.writes[i]) :: s.writes[x] in failing
  }

  lemma IsFirstAfterOne(s: State, failing: set<Batch>, i: nat)
    requires HostsKnown(s) && i < |s.writes| && IsFirst(s, failing, i)
    ensures var s1 := Settled(s, 0, s.writes[0] !in failing);
            s1.writes == s.writes[1..] && if i == 0 then Stored(s1, s.writes[0]) else IsFirst(s1, failing, i - 1)
  {
    var s1 := Settled(s, 0, s.writes[0] !in failing);
    assert s1.writes == s.writes[1..];
    assert i > 0 ==> KeyOf(s.writes[i]) !in s1.rows;
  }

  lemma {:induction false} WinnerIsStored(s: State, failing: set<Batch>, i: nat)
    requires HostsKnown(s) && i < |s.writes| && IsFirst(s, failing, i)
    ensures Stored(After(s, Settles(s.writes, failing)), s.writes[i])
    decreases |s.writes|
  {
    hide IsFirst, Settled, Settles;
    var s1 := Settled(s, 0, s.writes[0] !in failing);
    SettledFirst(s, failing);
    SettlesStep(s, failing);
    IsFirstAfterOne(s, failing, i);
    if i == 0 {
      SettlesWriteOut(s1, failing);
    } else {
      WinnerIsStored(s1, failing, i - 1);
    }
  }

  lemma {:induction false} LoserIsRejected(s: State, failing: set<Batch>, i: nat, j: nat)
    requires HostsKnown(s) && i < j < |s.writes| && IsFirst(s, failing, i)
    requires KeyOf(s.writes[j]) == KeyOf(s.writes[i]) && s.writes[j] !in failing
    ensures s.writes[j] in After(s, Settles(s.writes, failing)).rejected
    decreases |s.writes|
  {
    hide IsFirst, Settled, Settles;
    var s1 := Settled(s, 0, s.writes[0] !in failing);
    SettledFirst(s, failing);
    SettlesStep(s, failing);
    IsFirstAfterOne(s, failing, i);
    if i == 0 {
      TakenRowRejects(s1, failing, j - 1);
    } else {
      LoserIsRejected(s1, failing, i - 1, j - 1);
    }
  }

  /** Of the writes for a row that is not there yet, the first that works makes it, and those behind are rejected. */
  lemma FirstWriteWins(s: State, failing: set<Batch>, i: nat)
    requires HostsKnown(s) && i < |s.writes| && IsFirst(s, failing, i)
    ensures var s' := After(s, Settles(s.writes, failing));
            && Stored(s', s.writes[i])
            && forall j | i < j < |s.writes| && KeyOf(s.writes[j]) == KeyOf(s.writes[i]) && s.writes[j] !in failing ::
                 s.writes[j] in s'.rejected
  {
    WinnerIsStored(s, failing, i);
    forall j | i < j < |s.writes| && KeyOf(s.writes[j]) == KeyOf(s.writes[i]) && s.writes[j] !in failing
      ensures s.writes[j] in After(s, Settles(s.writes, failing)).rejected
    {
      LoserIsRejected(s, failing, i, j);
    }
  }

  // ---- A switch of keys within a window loses one half of it ----

  function Reported(f: Frame, order: seq<Start>): Op {
    Ingest(f.host, f.t, Object(f.fields), order)
  }

  lemma TwoHalves(f: Frame, g: Frame)
    requires f.host == g.host && BucketStart(f.t) == BucketStart(g.t) && f.t < g.t && f.fields.Keys != g.fields.Keys
    ensures var s, start := Run([Reported(f, []), Reported(g, [BucketStart(f.t)])]), BucketStart(f.t);
            && s.hosts.Keys == {f.host} && s.writes == [] && s.rows == map[] && s.rejected == []
            && s.hosts[f.host].buckets.Keys == {start} && s.hosts[f.host].buckets[start].frames == [g]
            && |s.hosts[f.host].stale| == 1 && KeyOf(s.hosts[f.host].stale[0]) == RowKey(f.host, start)
            && s.hosts[f.host].stale[0].bucket.frames == [f]
  {
    var start := BucketStart(f.t);
    assert [] + [Reported(f, [])] == [Reported(f, [])];
    RunOneMore([], Reported(f, []));
    var s1 := Run([Reported(f, [])]);
    assert s1.hosts[f.host] == Ingested(NO_BUCKETS, f, []);
    assert s1.hosts[f.host].buckets[start].frames == [f] && IsOrder([start], s1.hosts[f.host].buckets.Keys);
    RunOneMore([Reported(f, [])], Reported(g, [start]));
    assert [Reported(f, [])] + [Reported(g, [start])] == [Reported(f, []), Reported(g, [start])];
  }

  lemma TwoWrites(s: State, host: HostId, start: Start, cutoff: int)
    requires s.hosts.Keys == {host} && s.writes == [] && s.hosts[host].buckets.Keys == {start} && start <= cutoff
    requires |s.hosts[host].stale| == 1
    ensures Enabled(s, Take(host, cutoff, [start]))
    ensures Next(s, Take(host, cutoff, [start])).writes
         == [Batch(host, start, s.hosts[host].buckets[start]), s.hosts[host].stale[0]]
  {
    assert Expired(s.hosts[host], cutoff) == {start};
  }

  /**
   If both halves of a window leave in one flush, the later one is written first, as live buckets go
   before stale ones, and the earlier one is rejected although nothing failed.
   */
  lemma EarlierHalfIsRejected(f: Frame, g: Frame, cutoff: int) returns (ops: seq<Op>)
    requires f.host == g.host && BucketStart(f.t) == BucketStart(g.t) <= cutoff && f.t < g.t
    requires f.fields.Keys != g.fields.Keys
    ensures var take := Take(f.host, cutoff, [BucketStart(f.t)]);
            ops == [Reported(f, []), Reported(g, [BucketStart(f.t)])] + [take] + [Settle(0, true)] + [Settle(0, true)]
    ensures var s := Run(ops);
            && s.writes == [] && RowKey(f.host, BucketStart(f.t)) in s.rows
            && s.rows[RowKey(f.host, BucketStart(f.t))].frames == [g]
            && |s.rejected| == 1 && s.rejected[0].bucket.frames == [f]
  {
    var start := BucketStart(f.t);
    var reports := [Reported(f, []), Reported(g, [start])];
    var take := Take(f.host, cutoff, [start]);
    TwoHalves(f, g);
    TwoWrites(Run(reports), f.host, start, cutoff);
    RunOneMore(reports, take);
    RunOneMore(reports + [take], Settle(0, true));
    RunOneMore(reports + [take] + [Settle(0, true)], Settle(0, true));
    ops := reports + [take] + [Settle(0, true)] + [Settle(0, true)];
  }

  /** A flush before the window is due takes the stale half and leaves the live one. */
  lemma StaleHalfLeaves(s: State, host: HostId, start: Start, early: int)
    requires s.hosts.Keys == {host} && s.writes == [] && s.hosts[host].buckets.Keys == {start} && early < start
    requires |s.hosts[host].stale| == 1 && s.hosts[host].stale[0].host == host
    ensures Enabled(s, Take(host, early, []))
    ensures var s' := Apply(Apply(s, Take(host, early, [])), Settle(0, true));
            && s'.hosts.Keys == {host} && s'.writes == [] && s'.hosts[host].stale == []
            && s'.hosts[host].buckets == s.hosts[host].buckets
            && var half := s.hosts[host].stale[0];
            && (KeyOf(half) !in s.rows ==>
                  && s'.rows == s.rows[KeyOf(half) := Row(BucketMetrics(half.bucket.accs), half.bucket.frames)]
                  && s'.rejected == s.rejected)
  {
    assert Expired(s.hosts[host], early) == {};
    var s1 := Next(s, Take(host, early, []));
    assert s1.writes == s.hosts[host].stale;
    assert s1.hosts[host].buckets == s.hosts[host].buckets;
  }

  /** When the window is due its live half finds the row taken. */
  lemma LiveHalfIsRejected(s: State, host: HostId, start: Start, cutoff: int)
    requires s.hosts.Keys == {host} && s.writes == [] && s.hosts[host].buckets.Keys == {start} && start <= cutoff
    requires s.hosts[host].stale == [] && RowKey(host, start) in s.rows
    ensures var s' := Apply(Apply(s, Take(host, cutoff, [start])), Settle(0, true));
            && s'.writes == [] && s'.rows == s.rows
            && s'.rejected == s.rejected + [Batch(host, start, s.hosts[host].buckets[start])]
  {
    assert Expired(s.hosts[host], cutoff) == {start};
    var s1 := Next(s, Take(host, cutoff, [start]));
    assert s1.writes == [Batch(host, start, s.hosts[host].buckets[start])];
  }

  /**
   If a flush comes between the change of keys and the time the window is due, the earlier half gets the
   row then, and the later one is rejected when it falls due.
   */
  lemma LaterHalfIsRejected(f: Frame, g: Frame, early: int, cutoff: int) returns (ops: seq<Op>)
    requires f.host == g.host && early < BucketStart(f.t) == BucketStart(g.t) <= cutoff && f.t < g.t
    requires f.fields.Keys != g.fields.Keys
    ensures var start := BucketStart(f.t);
            ops == [Reported(f, []), Reported(g, [start])] + [Take(f.host, early, [])] + [Settle(0, true)]
                   + [Take(f.host, cutoff, [start])] + [Settle(0, true)]
    ensures var s := Run(ops);
            && s.writes == [] && RowKey(f.host, BucketStart(f.t)) in s.rows
            && s.rows[RowKey(f.host, BucketStart(f.t))].frames == [f]
            && |s.rejected| == 1 && s.rejected[0].bucket.frames == [g]
  {
    var start := BucketStart(f.t);
    var reports := [Reported(f, []), Reported(g, [start])];
    var takeEarly, takeDue := Take(f.host, early, []), Take(f.host, cutoff, [start]);
    TwoHalves(f, g);
    RunOneMore(reports, takeEarly);
    RunOneMore(reports + [takeEarly], Settle(0, true));
    StaleHalfLeaves(Run(reports), f.host, start, early);
    var flushed := reports + [takeEarly] + [Settle(0, true)];
    RunOneMore(flushed, takeDue);
    RunOneMore(flushed + [takeDue], Settle(0, true));
    LiveHalfIsRejected(Run(flushed), f.host, start, cutoff);
    ops := flushed + [takeDue] + [Settle(0, true)];
  }

  // ---- Claims on a row ----

  function KeyCount(batches: seq<Batch>, k: RowKey): nat {
    if batches == [] then 0
    else KeyCount(batches[..|batches| - 1], k) + if KeyOf(batches[|batches| - 1]) == k then 1 else 0
  }

  function LiveCount(hb: HostBuckets, k: RowKey): nat {
    if k.start in hb.buckets then 1 else 0
  }

  function HostCount(hb: HostBuckets, k: RowKey): nat {
    LiveCount(hb, k) + KeyCount(hb.stale, k)
  }

  /** How many buckets there are, or were, for the row `k`: live, stale, being written, written and rejected. */
  function Claims(s: State, k: RowKey): nat {
    HostCount(HostOf(s, k.host), k) + KeyCount(s.writes, k) + (if k in s.rows then 1 else 0) + KeyCount(s.rejected, k)
  }

  /** Whether an operation accepts a frame that begins a bucket. */
  predicate Begins(s: State, op: Op) {
    && op.Ingest? && Enabled(s, op) && op.metrics.Object?
    && var hb := HostOf(s, op.host);
    Accepts(hb, op.t) && (Switches(hb, op.metrics.fields.Keys) || BucketStart(op.t) !in hb.buckets)
  }

  function RowFor(op: Op): RowKey
    requires op.Ingest?
  {
    RowKey(op.host, BucketStart(op.t))
  }

  /** Whether an operation begins a bucket although there is, or was, one for the same host and window. */
  predicate Reopens(s: State, op: Op) {
    Begins(s, op) && Claims(s, RowFor(op)) > 0
  }

  // ---- Counting claims ----

  lemma {:induction false} KeyCountConcat(xs: seq<Batch>, ys: seq<Batch>, k: RowKey)
    ensures KeyCount(xs + ys, k) == KeyCount(xs, k) + KeyCount(ys, k)
  {
    if ys == [] {
      assert xs + ys == xs;
    } else {
      assert (xs + ys)[..|xs + ys| - 1] == xs + ys[..|ys| - 1];
      KeyCountConcat(xs, ys[..|ys| - 1], k);
    }
  }

  lemma KeyCountOne(b: Batch, k: RowKey)
    ensures KeyCount([b], k) == if KeyOf(b) == k then 1 else 0
  {
    assert [b][..0] == [];
  }

  lemma KeyCountWithout(xs: seq<Batch>, i: nat, k: RowKey)
    requires i < |xs|
    ensures KeyCount(Without(xs, i), k) + (if KeyOf(xs[i]) == k then 1 else 0) == KeyCount(xs, k)
  {
    assert xs == xs[..i] + ([xs[i]] + xs[i + 1..]);
    KeyCountConcat(xs[..i], [xs[i]] + xs[i + 1..], k);
    KeyCountConcat([xs[i]], xs[i + 1..], k);
    KeyCountConcat(xs[..i], xs[i + 1..], k);
    KeyCountOne(xs[i], k);
  }

  lemma {:induction false} CountsAppear(xs: seq<Batch>, k: RowKey)
    ensures KeyCount(xs, k) > 0 <==> exists b | b in xs :: KeyOf(b) == k
  {
    if xs == [] {
    } else {
      var n := |xs| - 1;
      CountsAppear(xs[..n], k);
      assert xs == xs[..n] + [xs[n]];
    }
  }

  lemma {:induction false} LeavingCount(host: HostId, buckets: map<Start, Bucket>, order: seq<Start>, keys: set<Start>,
                                        k: RowKey)
    requires IsOrder(order, keys) && keys <= buckets.Keys
    ensures KeyCount(Batches(host, buckets, order), k) == if k.host == host && k.start in keys then 1 else 0
    decreases |order|
  {
    if order == [] {
      assert keys == {};
    } else {
      var n := |order| - 1;
      var last, init := order[n], order[..n];
      assert IsOrder(init, keys - {last});
      LeavingCount(host, buckets, init, keys - {last}, k);
      assert Batches(host, buckets, order)[..n] == Batches(host, buckets, init);
    }
  }

  /** The stale lists hold buckets of their own host, and every host that waits for a write is known. */
  predicate Owned(s: State) {
    && (forall h | h in s.hosts :: forall b | b in s.hosts[h].stale :: b.host == h)
    && (forall b | b in s.writes :: b.host in s.hosts)
    && forall b | b in s.rejected :: KeyOf(b) in s.rows
  }

  lemma StepKeepsOwned(s: State, op: Op)
    requires Enabled(s, op) && Owned(s)
    ensures Owned(Next(s, op))
  {
  }

  lemma OthersDoNotCount(xs: seq<Batch>, host: HostId, k: RowKey)
    requires (forall b | b in xs :: b.host == host) && k.host != host
    ensures KeyCount(xs, k) == 0
  {
    CountsAppear(xs, k);
  }

  lemma IngestedClaims(hb: HostBuckets, f: Frame, order: seq<Start>, k: RowKey)
    requires IsOrder(order, hb.buckets.Keys) && Accepts(hb, f.t) && k.host == f.host
    ensures HostCount(Ingested(hb, f, order), k)
         == HostCount(hb, k)
            + if k.start == BucketStart(f.t) && (Switches(hb, f.fields.Keys) || k.start !in hb.buckets) then 1 else 0
  {
    LeavingCount(f.host, hb.buckets, order, hb.buckets.Keys, k);
    KeyCountConcat(hb.stale, Batches(f.host, hb.buckets, order), k);
  }

  lemma IngestClaims(s: State, op: Op, k: RowKey)
    requires op.Ingest? && Enabled(s, op)
    ensures Claims(Next(s, op), k) == Claims(s, k) + if Begins(s, op) && k == RowFor(op) then 1 else 0
  {
    var hb := HostOf(s, op.host);
    if op.metrics.Object? && Accepts(hb, op.t) && k.host == op.host {
      IngestedClaims(hb, Frame(op.host, op.t, op.metrics.fields), op.order, k);
    }
  }

  lemma TakeClaims(s: State, op: Op, k: RowKey)
    requires op.Take? && Enabled(s, op) && Owned(s)
    ensures Claims(Next(s, op), k) == Claims(s, k)
  {
    var hb := s.hosts[op.host];
    var leaving := Batches(op.host, hb.buckets, op.order);
    LeavingCount(op.host, hb.buckets, op.order, Expired(hb, op.cutoff), k);
    KeyCountConcat(s.writes + leaving, hb.stale, k);
    KeyCountConcat(s.writes, leaving, k);
    if k.host != op.host {
      OthersDoNotCount(hb.stale, op.host, k);
    }
  }

  lemma FailedClaims(s: State, op: Op, k: RowKey)
    requires op.Settle? && !op.ok && Enabled(s, op)
    ensures var hb, hb', b := HostOf(s, k.host), HostOf(Next(s, op), k.host), s.writes[op.write];
            HostCount(hb', k) == HostCount(hb, k) + if KeyOf(b) == k then 1 else 0
  {
    var b := s.writes[op.write];
    KeyCountOne(b, k);
    KeyCountConcat(s.hosts[b.host].stale, [b], k);
  }

  lemma RejectedClaims(s: State, b: Batch, k: RowKey)
    ensures KeyCount(s.rejected + [b], k) == KeyCount(s.rejected, k) + if KeyOf(b) == k then 1 else 0
  {
    KeyCountOne(b, k);
    KeyCountConcat(s.rejected, [b], k);
  }

  lemma SettleClaims(s: State, op: Op, k: RowKey)
    requires op.Settle? && Enabled(s, op)
    ensures Claims(Next(s, op), k) == Claims(s, k)
  {
    var b, s' := s.writes[op.write], Next(s, op);
    KeyCountWithout(s.writes, op.write, k);
    assert s'.writes == Without(s.writes, op.write);
    if !op.ok {
      FailedClaims(s, op, k);
      assert s'.rows == s.rows && s'.rejected == s.rejected;
    } else if KeyOf(b) in s.rows {
      RejectedClaims(s, b, k);
      assert s'.hosts == s.hosts && s'.rows == s.rows && s'.rejected == s.rejected + [b];
    } else {
      assert s'.hosts == s.hosts && s'.rejected == s.rejected;
    }
  }

  /** Claims on a row appear where a bucket begins, and never disappear. */
  lemma ClaimsOfStep(s: State, op: Op, k: RowKey)
    requires Owned(s)
    ensures Claims(Apply(s, op), k) == Claims(s, k) + if Begins(s, op) && k == RowFor(op) then 1 else 0
  {
    if Enabled(s, op) {
      match op {
        case Ingest(_, _, _, _) => IngestClaims(s, op, k);
        case Take(_, _, _) => TakeClaims(s, op, k);
        case Settle(_, _) => SettleClaims(s, op, k);
      }
    }
  }

  lemma {:induction false} RunIsOwned(ops: seq<Op>)
    ensures Owned(Run(ops))
  {
    if ops == [] {
    } else {
      RunIsOwned(ops[..|ops| - 1]);
      if Enabled(Run(ops[..|ops| - 1]), ops[|ops| - 1]) {
        StepKeepsOwned(Run(ops[..|ops| - 1]), ops[|ops| - 1]);
      }
    }
  }

  /** Whether operation `i` reopened the window of row `k`. */
  predicate ReopenedAt(ops: seq<Op>, i: nat, k: RowKey)
    requires i < |ops|
  {
    Reopens(Run(ops[..i]), ops[i]) && RowFor(ops[i]) == k
  }

  ghost predicate Reopened(ops: seq<Op>, k: RowKey) {
    exists i | 0 <= i < |ops| :: ReopenedAt(ops, i, k)
  }

  lemma ReopenedInPrefix(ops: seq<Op>, n: nat, i: nat, k: RowKey)
    requires i < n <= |ops|
    ensures ReopenedAt(ops[..n], i, k) <==> ReopenedAt(ops, i, k)
  {
    assert ops[..n][..i] == ops[..i];
  }

  lemma ReopenedOneMore(ops: seq<Op>, k: RowKey)
    requires ops != []
    ensures Reopened(ops, k) <==> Reopened(ops[..|ops| - 1], k) || ReopenedAt(ops, |ops| - 1, k)
  {
    hide ReopenedAt;
    var n := |ops| - 1;
    forall i | 0 <= i < n
      ensures ReopenedAt(ops[..n], i, k) <==> ReopenedAt(ops, i, k)
    {
      ReopenedInPrefix(ops, n, i, k);
    }
  }

  /** A row has several claims exactly when some operation reopened its window. */
  lemma {:induction false} ClaimedTwiceIffReopened(ops: seq<Op>, k: RowKey)
    ensures Claims(Run(ops), k) > 1 <==> Reopened(ops, k)
  {
    if ops == [] {
    } else {
      var n := |ops| - 1;
      ClaimedTwiceIffReopened(ops[..n], k);
      RunIsOwned(ops[..n]);
      ClaimsOfStep(Run(ops[..n]), ops[n], k);
      ReopenedOneMore(ops, k);
      assert ReopenedAt(ops, n, k) <==> Reopens(Run(ops[..n]), ops[n]) && RowFor(ops[n]) == k;
    }
  }

  lemma RejectedIsClaimedTwice(s: State)
    requires Owned(s) && s.rejected != []
    ensures exists k :: Claims(s, k) > 1
  {
    var b := s.rejected[0];
    CountsAppear(s.rejected, KeyOf(b));
    assert Claims(s, KeyOf(b)) > 1;
  }

  // ---- Flushing what is there ----

  /** A flush that succeeds: hosts hand over buckets, and every write goes through. */
  predicate Flushes(more: seq<Op>) {
    forall i | 0 <= i < |more| :: more[i].Take? || (more[i].Settle? && more[i].ok)
  }

  lemma OneThenMore(s: State, op: Op, rest: seq<Op>)
    requires Flushes([op]) && Flushes(rest)
    ensures Flushes([op] + rest) && After(s, [op] + rest) == After(Apply(s, op), rest)
  {
    assert [op][0] == op;
    assert ([op] + rest)[1..] == rest;
  }

  /** Writing out everything that waits, of a host with no bucket for `k` left, rejects what is too much. */
  lemma {:induction false} WritingRejects(s: State, k: RowKey) returns (more: seq<Op>)
    requires Owned(s) && Claims(s, k) > 1 && HostCount(HostOf(s, k.host), k) == 0
    ensures Flushes(more) && After(s, more).rejected != []
    decreases |s.writes|
  {
    more := [];
    if s.writes == [] {
    } else {
      var op := Settle(0, true);
      var s' := Next(s, op);
      StepKeepsOwned(s, op);
      SettleClaims(s, op, k);
      assert s'.hosts == s.hosts;
      var rest := WritingRejects(s', k);
      OneThenMore(s, op, rest);
      more := [op] + rest;
    }
  }

  lemma {:induction false} SomeOrder(keys: set<Start>) returns (order: seq<Start>)
    ensures IsOrder(order, keys)
    decreases |keys|
  {
    order := [];
    if k :| k in keys {
      var rest := SomeOrder(keys - {k});
      order := rest + [k];
    }
  }

  lemma FlushingRejects(s: State, k: RowKey) returns (more: seq<Op>)
    requires Owned(s) && Claims(s, k) > 1
    ensures Flushes(more) && After(s, more).rejected != []
  {
    if k.host in s.hosts {
      var order := SomeOrder(Expired(s.hosts[k.host], k.start));
      var op := Take(k.host, k.start, order);
      StepKeepsOwned(s, op);
      TakeClaims(s, op, k);
      var rest := WritingRejects(Next(s, op), k);
      OneThenMore(s, op, rest);
      more := [op] + rest;
    } else {
      more := WritingRejects(s, k);
    }
  }

  lemma {:induction false} FlushingKeepsClaims(s: State, more: seq<Op>, k: RowKey)
    requires Owned(s) && Flushes(more)
    ensures Owned(After(s, more)) && Claims(After(s, more), k) == Claims(s, k)
    decreases |more|
  {
    if more == [] {
    } else {
      if Enabled(s, more[0]) {
        StepKeepsOwned(s, more[0]);
      }
      ClaimsOfStep(s, more[0], k);
      FlushingKeepsClaims(Apply(s, more[0]), more[1..], k);
    }
  }

  /**
   A flush in which every write succeeds can lose accepted frames if and only if, at some point of the
   run, a frame began a bucket for a host and window that had one already.
   */
  lemma LosesIffReopened(ops: seq<Op>)
    ensures (exists more :: Flushes(more) && Run(ops + more).rejected != [])
       <==> exists k :: Reopened(ops, k)
  {
    RunIsOwned(ops);
    if more :| Flushes(more) && Run(ops + more).rejected != [] {
      RunThenMore(ops, more);
      FlushingKeepsClaims(Run(ops), more, RowKey(0, 0));
      RejectedIsClaimedTwice(After(Run(ops), more));
      var k :| Claims(After(Run(ops), more), k) > 1;
      FlushingKeepsClaims(Run(ops), more, k);
      ClaimedTwiceIffReopened(ops, k);
    }
    if k :| Reopened(ops, k) {
      ClaimedTwiceIffReopened(ops, k);
      var more := FlushingRejects(Run(ops), k);
      RunThenMore(ops, more);
      assert Flushes(more) && Run(ops + more).rejected != [];
    }
  }

  // ---- What is lost is lost for good ----

  lemma {:induction false} ReopenedLasts(ops: seq<Op>, later: seq<Op>, k: RowKey)
    requires Reopened(ops, k)
    ensures Reopened(ops + later, k)
  {
    hide ReopenedAt;
    var all := ops + later;
    var i :| 0 <= i < |ops| && ReopenedAt(ops, i, k);
    assert all[..|ops|] == ops;
    ReopenedInPrefix(all, |ops|, i, k);
    assert ReopenedAt(all, i, k);
  }

  /**
   Once a window was reopened a loss is inevitable: whatever happens later, in every state in which no bucket
   for the row is live, stale or being written, one has been rejected, and accepted frames with it.
   */
  lemma LossIsInevitable(ops: seq<Op>, later: seq<Op>, k: RowKey)
    requires Reopened(ops, k)
    requires var s := Run(ops + later); HostCount(HostOf(s, k.host), k) == 0 && KeyCount(s.writes, k) == 0
    ensures exists b | b in Run(ops + later).rejected :: KeyOf(b) == k && b.bucket.frames != []
  {
    hide Run, Reopened, KeyCount, HostCount, BucketsOk;
    var all := ops + later;
    ReopenedLasts(ops, later, k);
    ClaimedTwiceIffReopened(all, k);
    CountsAppear(Run(all).rejected, k);
    var b :| b in Run(all).rejected && KeyOf(b) == k;
    BucketsAreNaive(all);
    RejectedIsNotEmpty(Run(all), b);
  }

  lemma RejectedIsNotEmpty(s: State, b: Batch)
    requires BucketsOk(s) && b in s.rejected
    ensures b.bucket.frames != []
  {
  }
}
