/**
 How far an hourly row can be from the readings it stands for: both layers round their averages to
 four decimals (crates/foims-agent-service/src/metrics_aggregator.rs and src/tasks.rs).
 */
module RollupAccuracy {
  import opened Wrappers
  import opened Rounding
  import opened Extremes
  import opened MetricsRollup
  import A = MetricsAggregator
  import AggregatorTheorems

  /** What the roll-up reads where the aggregator has written `metrics`. */
  function ReadBack(metrics: map<string, A.BucketSpec>): RowJson {
    Object(map k | k in metrics ::
             Some(BucketSample(metrics[k].avg, metrics[k].min, metrics[k].max, metrics[k].last, metrics[k].cnt)))
  }

  /** The row the aggregator writes for some frames. */
  function RowFor(id: int, frames: seq<A.Frame>): SourceRow {
    SourceRow(id, ReadBack(A.BucketMetrics(A.Summary(frames))))
  }

  function RowsFor(ids: seq<int>, groups: seq<seq<A.Frame>>): seq<SourceRow>
    requires |ids| == |groups|
  {
    seq(|ids|, i requires 0 <= i < |ids| => RowFor(ids[i], groups[i]))
  }

  function Flat(groups: seq<seq<A.Frame>>): seq<A.Frame> {
    if groups == [] then [] else Flat(groups[..|groups| - 1]) + groups[|groups| - 1]
  }

  /** The mean of some readings, rounded as the aggregator rounds it. */
  function Average(vs: seq<real>): real
    requires vs != []
  {
    Round4(SumOf(vs) / |vs| as real)
  }

  function SampleFor(vs: seq<real>): BucketSample
    requires vs != []
  {
    BucketSample(Average(vs), MinOf(vs), MaxOf(vs), vs[|vs| - 1], |vs|)
  }

  // ---- Concatenation ----

  lemma {:induction false} ValuesConcat(xs: seq<A.Frame>, ys: seq<A.Frame>, k: string)
    ensures A.Values(xs + ys, k) == A.Values(xs, k) + A.Values(ys, k)
  {
    if ys == [] {
      assert xs + ys == xs;
    } else {
      hide A.Values;
      var init, f := ys[..|ys| - 1], ys[|ys| - 1];
      var last := if k in A.FiniteKeys(f.fields) then [f.fields[k].value] else [];
      ValuesConcat(xs, init, k);
      A.ValuesExtend(xs + init, f, k);
      A.ValuesExtend(init, f, k);
      assert init + [f] == ys;
      Regroup(xs, init, [f]);
      Regroup(A.Values(xs, k), A.Values(init, k), last);
    }
  }

  lemma {:induction false} SumConcat(xs: seq<real>, ys: seq<real>)
    ensures SumOf(xs + ys) == SumOf(xs) + SumOf(ys)
  {
    if ys == [] {
      assert xs + ys == xs;
    } else {
      var n := |ys| - 1;
      SumConcat(xs, ys[..n]);
      assert (xs + ys)[..|xs| + n] == xs + ys[..n];
    }
  }

  lemma MinConcat(xs: seq<real>, ys: seq<real>)
    requires xs != [] && ys != []
    ensures MinOf(xs + ys) == if MinOf(xs) < MinOf(ys) then MinOf(xs) else MinOf(ys)
  {
    var both := xs + ys;
    assert forall v | v in xs || v in ys :: v in both;
    assert MinOf(both) <= MinOf(xs) && MinOf(both) <= MinOf(ys);
  }

  lemma MaxConcat(xs: seq<real>, ys: seq<real>)
    requires xs != [] && ys != []
    ensures MaxOf(xs + ys) == if MaxOf(xs) > MaxOf(ys) then MaxOf(xs) else MaxOf(ys)
  {
    var both := xs + ys;
    assert forall v | v in xs || v in ys :: v in both;
    assert MaxOf(both) >= MaxOf(xs) && MaxOf(both) >= MaxOf(ys);
  }

  // ---- Rounding once per row, and once more ----

  /** The error of a quotient, scaled back up by the divisor. */
  lemma ScaledError(r: real, sum: real, n: real, e: real)
    requires n > 0.0 && Within(r, sum / n, e)
    ensures Within(r * n, sum, e * n)
  {
    var q := sum / n;
    assert q * n == sum;
    assert -(e * n) <= (r - q) * n <= e * n;
  }

  /** The error of a sum, scaled down by the divisor. */
  lemma DividedError(total: real, sum: real, n: real, e: real)
    requires n > 0.0 && Within(total, sum, e * n)
    ensures Within(total / n, sum / n, e)
  {
    var d := (total - sum) / n;
    assert d * n == total - sum;
    assert -e <= d <= e;
  }

  predicate MeansAgree(xs: seq<BucketSample>, vs: seq<real>) {
    CntSum(xs) == |vs| && Within(WeightedSum(xs), SumOf(vs), 0.00005 * |vs| as real)
  }

  predicate ExtremesAgree(xs: seq<BucketSample>, vs: seq<real>) {
    && (xs == [] <==> vs == [])
    && (xs != [] ==> MinOf(Mins(xs)) == MinOf(vs) && MaxOf(Maxes(xs)) == MaxOf(vs) && xs[|xs| - 1].last == vs[|vs| - 1])
  }

  lemma WeightedAverage(vs: seq<real>)
    requires vs != []
    ensures Within(Average(vs) * |vs| as real, SumOf(vs), 0.00005 * |vs| as real)
  {
    Round4IsClose(SumOf(vs) / |vs| as real);
    ScaledError(Average(vs), SumOf(vs), |vs| as real, 0.00005);
  }

  lemma AddedErrors(a: real, x: real, m: real, b: real, y: real, n: real)
    requires Within(a, x, 0.00005 * m) && Within(b, y, 0.00005 * n)
    ensures Within(a + b, x + y, 0.00005 * (m + n))
  {
  }

  lemma MeansExtend(xs: seq<BucketSample>, vs: seq<real>, ws: seq<real>)
    requires MeansAgree(xs, vs) && ws != []
    ensures MeansAgree(xs + [SampleFor(ws)], vs + ws)
  {
    var weight := Average(ws) * |ws| as real;
    assert WeightedSum(xs + [SampleFor(ws)]) == WeightedSum(xs) + weight
        && CntSum(xs + [SampleFor(ws)]) == |vs + ws| by {
      SumsExtend(xs, SampleFor(ws));
    }
    WeightedAverage(ws);
    SumConcat(vs, ws);
    AddedErrors(WeightedSum(xs), SumOf(vs), |vs| as real, weight, SumOf(ws), |ws| as real);
    assert |vs + ws| as real == |vs| as real + |ws| as real;
  }

  lemma ExtremesAgreeExtend(xs: seq<BucketSample>, vs: seq<real>, ws: seq<real>)
    requires ExtremesAgree(xs, vs) && ws != []
    ensures ExtremesAgree(xs + [SampleFor(ws)], vs + ws)
  {
    hide MinOf, MaxOf, Mins, Maxes;
    var s := SampleFor(ws);
    ColumnsExtend(xs, s);
    ExtremesExtend(Mins(xs), s.min);
    ExtremesExtend(Maxes(xs), s.max);
    if vs == [] {
      assert vs + ws == ws;
    } else {
      MinConcat(vs, ws);
      MaxConcat(vs, ws);
    }
  }

  lemma WrittenAt(frames: seq<A.Frame>, k: string)
    ensures k in A.BucketMetrics(A.Summary(frames)) <==> A.Values(frames, k) != []
    ensures var vs := A.Values(frames, k);
            vs != [] ==> A.BucketMetrics(A.Summary(frames))[k]
                         == A.BucketSpec(Average(vs), MinOf(vs), MaxOf(vs), vs[|vs| - 1], |vs|)
  {
    A.SummaryAt(frames, k);
  }

  lemma SampleOfRow(id: int, frames: seq<A.Frame>, k: string)
    ensures k in SampleKeys(RowFor(id, frames)) <==> A.Values(frames, k) != []
    ensures A.Values(frames, k) != [] ==> RowFor(id, frames).metrics.fields[k] == Some(SampleFor(A.Values(frames, k)))
  {
    hide A.Values, A.Summary, A.BucketMetrics;
    WrittenAt(frames, k);
  }

  predicate Agree(rows: seq<SourceRow>, vs: seq<real>, k: string) {
    MeansAgree(Samples(rows, k), vs) && ExtremesAgree(Samples(rows, k), vs)
  }

  lemma AgreeExtend(rows: seq<SourceRow>, vs: seq<real>, id: int, frames: seq<A.Frame>, k: string)
    requires Agree(rows, vs, k)
    ensures Agree(rows + [RowFor(id, frames)], vs + A.Values(frames, k), k)
  {
    var xs, ws := Samples(rows, k), A.Values(frames, k);
    SamplesExtend(rows, RowFor(id, frames), k);
    SampleOfRow(id, frames, k);
    if ws != [] {
      MeansExtend(xs, vs, ws);
      ExtremesAgreeExtend(xs, vs, ws);
      assert Samples(rows + [RowFor(id, frames)], k) == xs + [SampleFor(ws)];
    } else {
      assert Samples(rows + [RowFor(id, frames)], k) == xs && vs + ws == vs;
    }
  }

  lemma NothingAgrees(k: string)
    ensures Agree([], A.Values([], k), k)
  {
  }

  lemma {:induction false} SamplesAgree(ids: seq<int>, groups: seq<seq<A.Frame>>, k: string)
    requires |ids| == |groups|
    ensures Agree(RowsFor(ids, groups), A.Values(Flat(groups), k), k)
  {
    hide Agree, A.Values, RowFor;
    if groups == [] {
      NothingAgrees(k);
      assert RowsFor(ids, groups) == [];
    } else {
      var n := |groups| - 1;
      SamplesAgree(ids[..n], groups[..n], k);
      assert RowsFor(ids, groups) == RowsFor(ids[..n], groups[..n]) + [RowFor(ids[n], groups[n])];
      ValuesConcat(Flat(groups[..n]), groups[n], k);
      AgreeExtend(RowsFor(ids[..n], groups[..n]), A.Values(Flat(groups[..n]), k), ids[n], groups[n], k);
    }
  }

  /** `cnt`, `min`, `max` and `last` are those of the readings; `avg` is at most 0.0001 off their mean. */
  predicate Accurate(sample: BucketSample, vs: seq<real>)
    requires vs != []
  {
    && sample.cnt == |vs|
    && sample.min == MinOf(vs) && sample.max == MaxOf(vs) && sample.last == vs[|vs| - 1]
    && Within(sample.avg, SumOf(vs) / |vs| as real, 0.0001)
  }

  lemma CombinedIsAccurate(xs: seq<BucketSample>, vs: seq<real>)
    requires MeansAgree(xs, vs) && ExtremesAgree(xs, vs) && vs != []
    ensures Accurate(Combined(xs), vs)
  {
    DividedError(WeightedSum(xs), SumOf(vs), |vs| as real, 0.00005);
    Round4IsClose(WeightedSum(xs) / CntSum(xs) as real);
  }

  /**
   Rolling up the rows of some groups of frames gives, for every metric, what aggregating all the
   frames at once gives, except that the mean may be 0.0001 off; a metric nobody reported is absent.
   */
  lemma RollupIsAccurate(ids: seq<int>, groups: seq<seq<A.Frame>>, k: string)
    requires |ids| == |groups| && k != SRC_MAX_ID
    ensures var vs, rolled := A.Values(Flat(groups), k), Rollup(RowsFor(ids, groups));
            if vs == [] then k !in rolled
            else k in rolled && rolled[k].Aggregate? && Accurate(rolled[k].sample, vs)
  {
    var vs, xs := A.Values(Flat(groups), k), Samples(RowsFor(ids, groups), k);
    SamplesAgree(ids, groups, k);
    if vs != [] {
      CombinedIsAccurate(xs, vs);
      assert k in KeysSampled(RowsFor(ids, groups));
    }
  }

  function FramesOf(rows: map<A.RowKey, A.Row>, keys: seq<A.RowKey>): seq<seq<A.Frame>>
    requires forall i | 0 <= i < |keys| :: keys[i] in rows
  {
    seq(|keys|, i requires 0 <= i < |keys| => rows[keys[i]].frames)
  }

  function StoredRows(rows: map<A.RowKey, A.Row>, keys: seq<A.RowKey>, ids: seq<int>): seq<SourceRow>
    requires |ids| == |keys| && forall i | 0 <= i < |keys| :: keys[i] in rows
  {
    seq(|keys|, i requires 0 <= i < |keys| => SourceRow(ids[i], ReadBack(rows[keys[i]].metrics)))
  }

  /** The same for whatever rows a run of the aggregator has written, in any order. */
  lemma StoredRowsRollUpAccurately(ops: seq<A.Op>, keys: seq<A.RowKey>, ids: seq<int>, k: string)
    requires |ids| == |keys| && k != SRC_MAX_ID
    requires forall i | 0 <= i < |keys| :: keys[i] in AggregatorTheorems.Run(ops).rows
    ensures var rows := AggregatorTheorems.Run(ops).rows;
            var vs, rolled := A.Values(Flat(FramesOf(rows, keys)), k), Rollup(StoredRows(rows, keys, ids));
            if vs == [] then k !in rolled
            else k in rolled && rolled[k].Aggregate? && Accurate(rolled[k].sample, vs)
  {
    var rows := AggregatorTheorems.Run(ops).rows;
    AggregatorTheorems.BucketsAreNaive(ops);
    var groups := FramesOf(rows, keys);
    assert forall i | 0 <= i < |keys| :: AggregatorTheorems.RowOk(keys[i], rows[keys[i]]);
    assert StoredRows(rows, keys, ids) == RowsFor(ids, groups);
    RollupIsAccurate(ids, groups, k);
  }
}
