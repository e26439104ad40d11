/**
 What the aggregator makes of one reading, told from the frames it has accepted before
 (crates/foims-agent-service/src/metrics_aggregator.rs, `ingest_frame`).

 Each lemma speaks about one more reading after any run, with takes, failed and conflicting writes
 anywhere in it. The order of the live buckets that a reading sets aside is that of a hash map.
 */
module AggregatorRules {
  import opened Wrappers
  import opened Rounding
  import opened Extremes
  import opened MetricsAggregator
  import opened AggregatorTheorems

  /** `accepted[j]` is the last accepted frame of the host. */
  predicate IsLastOf(accepted: seq<Frame>, host: HostId, j: nat) {
    && j < |accepted| && accepted[j].host == host
    && forall i | j < i < |accepted| :: accepted[i].host != host
  }

  predicate HasNone(accepted: seq<Frame>, host: HostId) {
    forall i | 0 <= i < |accepted| :: accepted[i].host != host
  }

  /** Watermark and keys of a host are those of its last accepted frame. */
  ghost predicate RemembersLast(s: State, host: HostId) {
    var hb := HostOf(s, host);
    && (HasNone(s.accepted, host) ==> hb.watermark == None && hb.fingerprint == None)
    && forall j: nat | IsLastOf(s.accepted, host, j) ::
         hb.watermark == Some(s.accepted[j].t) && hb.fingerprint == Some(s.accepted[j].fields.Keys)
  }

  lemma LastAfterOneMore(accepted: seq<Frame>, f: Frame, host: HostId, j: nat)
    ensures HasNone(accepted + [f], host) <==> HasNone(accepted, host) && f.host != host
    ensures IsLastOf(accepted + [f], host, j)
       <==> if f.host == host then j == |accepted| else IsLastOf(accepted, host, j)
  {
    var more := accepted + [f];
    assert more[|accepted|] == f;
    assert forall i | 0 <= i < |accepted| :: more[i] == accepted[i];
  }

  lemma IngestRemembersLast(s: State, op: Op, host: HostId)
    requires op.Ingest? && Enabled(s, op) && RemembersLast(s, host)
    ensures RemembersLast(Next(s, op), host)
  {
    if op.metrics.Object? && Accepts(HostOf(s, op.host), op.t) {
      var f := Frame(op.host, op.t, op.metrics.fields);
      LastAfterOneMore(s.accepted, f, host, 0);
      forall j: nat
        ensures IsLastOf(s.accepted + [f], host, j)
           <==> if f.host == host then j == |s.accepted| else IsLastOf(s.accepted, host, j)
      {
        LastAfterOneMore(s.accepted, f, host, j);
      }
    }
  }

  lemma {:induction false} LastIsRemembered(ops: seq<Op>, host: HostId)
    ensures RemembersLast(Run(ops), host)
  {
    if ops == [] {
    } else {
      var s, op := Run(ops[..|ops| - 1]), ops[|ops| - 1];
      LastIsRemembered(ops[..|ops| - 1], host);
      if Enabled(s, op) {
        match op {
          case Ingest(_, _, _, _) => IngestRemembersLast(s, op, host);
          case Take(_, _, _) =>
          case Settle(_, _) =>
        }
      }
    }
  }

  lemma {:induction false} LastOf(accepted: seq<Frame>, host: HostId) returns (j: nat)
    requires !HasNone(accepted, host)
    ensures IsLastOf(accepted, host, j)
  {
    var n := |accepted| - 1;
    if accepted[n].host == host {
      j := n;
    } else {
      j := LastOf(accepted[..n], host);
    }
  }

  // ---- Which readings are accepted ----

  /** Whether every accepted frame of the host is earlier. */
  predicate IsNewest(accepted: seq<Frame>, host: HostId, t: int) {
    forall i | 0 <= i < |accepted| && accepted[i].host == host :: accepted[i].t < t
  }

  lemma AcceptsIffNewest(ops: seq<Op>, host: HostId, t: int)
    ensures Accepts(HostOf(Run(ops), host), t) <==> IsNewest(Run(ops).accepted, host, t)
  {
    var accepted := Run(ops).accepted;
    LastIsRemembered(ops, host);
    AcceptedInOrder(ops);
    if !HasNone(accepted, host) {
      var j := LastOf(accepted, host);
      assert forall i | 0 <= i < |accepted| && accepted[i].host == host :: i <= j;
    }
  }

  /** A reading is accepted if and only if it is an object and later than every accepted frame of its host. */
  lemma AcceptedIff(ops: seq<Op>, op: Op)
    requires op.Ingest? && Enabled(Run(ops), op)
    ensures var s, s' := Run(ops), Run(ops + [op]);
            s'.accepted
            == s.accepted + if && op.metrics.Object?
                               && forall i | 0 <= i < |s.accepted| && s.accepted[i].host == op.host ::
                                    s.accepted[i].t < op.t
                            then [Frame(op.host, op.t, op.metrics.fields)] else []
  {
    AcceptsIffNewest(ops, op.host, op.t);
    RunOneMore(ops, op);
  }

  /** A reading that is not accepted changes nothing, and none touches another host or what has left. */
  lemma OthersUntouched(ops: seq<Op>, op: Op, host: HostId)
    requires op.Ingest? && Enabled(Run(ops), op)
    requires host != op.host || Run(ops + [op]).accepted == Run(ops).accepted
    ensures var s, s' := Run(ops), Run(ops + [op]);
            && (host in s.hosts ==> host in s'.hosts && s'.hosts[host] == s.hosts[host])
            && (host in s'.hosts && host !in s.hosts ==> host == op.host && s'.hosts[host] == NO_BUCKETS)
            && s'.writes == s.writes && s'.rows == s.rows && s'.rejected == s.rejected
  {
    AcceptsIffNewest(ops, op.host, op.t);
    RunOneMore(ops, op);
  }

  // ---- Where an accepted reading goes ----

  /** With the keys of the last accepted frame it joins the bucket of its window; the others stay as they are. */
  lemma SameKeysContinue(ops: seq<Op>, op: Op, j: nat, start: Start)
    requires op.Ingest? && Enabled(Run(ops), op) && op.metrics.Object?
    requires IsNewest(Run(ops).accepted, op.host, op.t) && IsLastOf(Run(ops).accepted, op.host, j)
    requires Run(ops).accepted[j].fields.Keys == op.metrics.fields.Keys
    requires start % 300 == 0 && start <= op.t < start + 300
    ensures var s, s' := Run(ops), Run(ops + [op]);
            && op.host in s.hosts && op.host in s'.hosts
            && var hb, hb' := s.hosts[op.host], s'.hosts[op.host];
               && hb'.stale == hb.stale
               && hb'.buckets.Keys == hb.buckets.Keys + {start}
               && (forall k | k in hb.buckets && k != start :: hb'.buckets[k] == hb.buckets[k])
               && hb'.buckets[start].frames
                  == (if start in hb.buckets then hb.buckets[start].frames else [])
                     + [Frame(op.host, op.t, op.metrics.fields)]
  {
    AcceptsIffNewest(ops, op.host, op.t);
    LastIsRemembered(ops, op.host);
    BucketStartIs(op.t, start);
    RunOneMore(ops, op);
  }

  lemma KeysHaveChanged(ops: seq<Op>, host: HostId, keys: set<string>)
    requires forall j: nat | IsLastOf(Run(ops).accepted, host, j) :: Run(ops).accepted[j].fields.Keys != keys
    ensures HostOf(Run(ops), host).fingerprint != Some(keys)
  {
    hide Run;
    LastIsRemembered(ops, host);
    if !HasNone(Run(ops).accepted, host) {
      var j := LastOf(Run(ops).accepted, host);
      assert IsLastOf(Run(ops).accepted, host, j);
    }
  }

  lemma IngestedAnew(hb: HostBuckets, f: Frame, order: seq<Start>, start: Start)
    requires IsOrder(order, hb.buckets.Keys) && Accepts(hb, f.t) && hb.fingerprint != Some(f.fields.Keys)
    requires start % 300 == 0 && start <= f.t < start + 300
    ensures var hb' := Ingested(hb, f, order);
            && hb'.buckets.Keys == {start} && hb'.buckets[start].frames == [f]
            && |hb'.stale| == |hb.stale| + |order| && hb'.stale[..|hb.stale|] == hb.stale
            && forall i | 0 <= i < |order| :: hb'.stale[|hb.stale| + i] == Batch(f.host, order[i], hb.buckets[order[i]])
  {
    hide Accumulated;
    BucketStartIs(f.t, start);
  }

  /** With other keys, or as the first of its host, it sets all live buckets aside and begins a new one. */
  lemma NewKeysSetAside(ops: seq<Op>, op: Op, start: Start)
    requires op.Ingest? && Enabled(Run(ops), op) && op.metrics.Object?
    requires IsNewest(Run(ops).accepted, op.host, op.t)
    requires forall j: nat | IsLastOf(Run(ops).accepted, op.host, j) ::
               Run(ops).accepted[j].fields.Keys != op.metrics.fields.Keys
    requires start % 300 == 0 && start <= op.t < start + 300
    ensures var s, s' := Run(ops), Run(ops + [op]);
            && op.host in s'.hosts
            && var hb, hb' := HostOf(s, op.host), s'.hosts[op.host];
               && hb'.buckets.Keys == {start}
               && hb'.buckets[start].frames == [Frame(op.host, op.t, op.metrics.fields)]
               && |hb'.stale| == |hb.stale| + |op.order| && hb'.stale[..|hb.stale|] == hb.stale
               && (forall k | k in hb.buckets :: k in op.order)
               && forall i | 0 <= i < |op.order| ::
                    op.order[i] in hb.buckets
                    && hb'.stale[|hb.stale| + i] == Batch(op.host, op.order[i], hb.buckets[op.order[i]])
  {
    hide Run, Ingested, BucketStart, IsLastOf, HasNone;
    var s := Run(ops);
    AcceptsIffNewest(ops, op.host, op.t);
    KeysHaveChanged(ops, op.host, op.metrics.fields.Keys);
    IngestedAnew(HostOf(s, op.host), Frame(op.host, op.t, op.metrics.fields), op.order, start);
    RunOneMore(ops, op);
  }

  // ---- What a row holds ----

  predicate HasValue(f: Frame, key: string) {
    key in f.fields && f.fields[key].Finite?
  }

  /** The values of a metric are the finite ones of the frames, in their order and none left out. */
  lemma {:induction false} ValuesArePlaced(frames: seq<Frame>, key: string) returns (at: seq<nat>)
    ensures ArePlaces(at, frames, f => HasValue(f, key)) && |Values(frames, key)| == |at|
    ensures forall i | 0 <= i < |at| :: Values(frames, key)[i] == frames[at[i]].fields[key].value
  {
    if frames == [] {
      at := [];
    } else {
      var n := |frames| - 1;
      var before := ValuesArePlaced(frames[..n], key);
      OnePlaceMore(before, frames[..n], frames[n], f => HasValue(f, key));
      assert frames[..n] + [frames[n]] == frames;
      at := before + if HasValue(frames[n], key) then [n] else [];
    }
  }

  /** Number, extremes and last of some values, and their mean to the nearest ten-thousandth. */
  ghost predicate Summarizes(cell: BucketSpec, vs: seq<real>, mean: int)
    requires vs != []
  {
    && cell.cnt == |vs| && cell.last == vs[|vs| - 1]
    && cell.min in vs && (forall v | v in vs :: cell.min <= v)
    && cell.max in vs && (forall v | v in vs :: v <= cell.max)
    && cell.avg == mean as real / 10000.0
    && -0.5 <= mean as real - SumOf(vs) / |vs| as real * 10000.0 <= 0.5
  }

  lemma NearestMean(vs: seq<real>) returns (mean: int)
    requires vs != []
    ensures Round4(SumOf(vs) / |vs| as real) == mean as real / 10000.0
    ensures -0.5 <= mean as real - SumOf(vs) / |vs| as real * 10000.0 <= 0.5
  {
    mean := Round4IsNearest(SumOf(vs) / |vs| as real);
  }

  lemma CellSummarizes(frames: seq<Frame>, metric: string) returns (mean: int)
    ensures metric in BucketMetrics(Summary(frames)) <==> Values(frames, metric) != []
    ensures Values(frames, metric) != [] ==>
              Summarizes(BucketMetrics(Summary(frames))[metric], Values(frames, metric), mean)
  {
    hide SumOf, MinOf, MaxOf, Round4, Values, Summary;
    SummaryAt(frames, metric);
    mean := 0;
    if Values(frames, metric) != [] {
      mean := NearestMean(Values(frames, metric));
    }
  }

  /**
   A row holds, for every metric with a finite value in its frames, their number, extremes and last value
   and their mean to the nearest ten-thousandth.
   */
  lemma RowHolds(ops: seq<Op>, key: RowKey, metric: string) returns (mean: int)
    requires key in Run(ops).rows
    ensures var row := Run(ops).rows[key];
            && (metric in row.metrics <==> Values(row.frames, metric) != [])
            && (metric in row.metrics ==> Summarizes(row.metrics[metric], Values(row.frames, metric), mean))
  {
    hide Run, BucketMetrics, Summarizes, Values;
    BucketsAreNaive(ops);
    assert RowOk(key, Run(ops).rows[key]);
    mean := CellSummarizes(Run(ops).rows[key].frames, metric);
  }
}
