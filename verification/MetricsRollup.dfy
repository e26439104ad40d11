/**
 The hourly roll-up of five-minute rows: `RollupAcc` and `rollup_metrics`
 (crates/foims-agent-service/src/tasks.rs).
 */
module MetricsRollup {
  import opened Wrappers
  import opened Rounding
  import opened Extremes

  /** One metric of a stored row, written by either layer; only a stored row of another origin can have `cnt` 0. */
  datatype BucketSample = BucketSample(avg: real, min: real, max: real, last: real, cnt: nat)

  /** The JSON value of a stored row; `None` is a value that does not parse as a sample. */
  datatype RowJson = Object(fields: map<string, Option<BucketSample>>) | NotObject

  datatype SourceRow = SourceRow(id: int, metrics: RowJson)

  datatype Cell = Aggregate(sample: BucketSample) | MaxId(id: int)

  const SRC_MAX_ID := "_src_max_id"

  datatype RollupAcc = RollupAcc(sumWeighted: real, min: Option<real>, max: Option<real>, last: real, cnt: nat)
  {
    function Push(s: BucketSample): RollupAcc {
      RollupAcc(sumWeighted + s.avg * s.cnt as real,
                Some(if min.Some? && min.value < s.min then min.value else s.min),
                Some(if max.Some? && max.value > s.max then max.value else s.max),
                s.last,
                cnt + s.cnt)
    }
  }

  const NO_SAMPLES := RollupAcc(0.0, None, None, 0.0, 0)

  type Accs = map<string, RollupAcc>

  // ---- What the roll-up of some rows is ----

  function SampleKeys(row: SourceRow): set<string> {
    if row.metrics.NotObject? then {} else set k | k in row.metrics.fields && row.metrics.fields[k].Some?
  }

  /** The samples of `key` in the rows, in the order of the rows. */
  function Samples(rows: seq<SourceRow>, key: string): seq<BucketSample> {
    if rows == [] then []
    else
      var row := rows[|rows| - 1];
      Samples(rows[..|rows| - 1], key)
      + if row.metrics.Object? && key in row.metrics.fields && row.metrics.fields[key].Some?
        then [row.metrics.fields[key].value] else []
  }

  function KeysSampled(rows: seq<SourceRow>): (keys: set<string>)
    ensures forall k :: k in keys <==> Samples(rows, k) != []
  {
    if rows == [] then {} else KeysSampled(rows[..|rows| - 1]) + SampleKeys(rows[|rows| - 1])
  }

  function WeightedSum(xs: seq<BucketSample>): real {
    if xs == [] then 0.0 else WeightedSum(xs[..|xs| - 1]) + xs[|xs| - 1].avg * xs[|xs| - 1].cnt as real
  }

  function CntSum(xs: seq<BucketSample>): nat {
    if xs == [] then 0 else CntSum(xs[..|xs| - 1]) + xs[|xs| - 1].cnt
  }

  lemma SumsExtend(xs: seq<BucketSample>, s: BucketSample)
    ensures WeightedSum(xs + [s]) == WeightedSum(xs) + s.avg * s.cnt as real
    ensures CntSum(xs + [s]) == CntSum(xs) + s.cnt
  {
    assert (xs + [s])[..|xs|] == xs;
  }

  function Mins(xs: seq<BucketSample>): seq<real> {
    seq(|xs|, i requires 0 <= i < |xs| => xs[i].min)
  }

  function Maxes(xs: seq<BucketSample>): seq<real> {
    seq(|xs|, i requires 0 <= i < |xs| => xs[i].max)
  }

  lemma ColumnsExtend(xs: seq<BucketSample>, s: BucketSample)
    ensures Mins(xs + [s]) == Mins(xs) + [s.min] && |Mins(xs)| == |xs|
    ensures Maxes(xs + [s]) == Maxes(xs) + [s.max] && |Maxes(xs)| == |xs|
  {
  }

  function AccOf(xs: seq<BucketSample>): RollupAcc {
    if xs == [] then NO_SAMPLES else AccOf(xs[..|xs| - 1]).Push(xs[|xs| - 1])
  }

  lemma AccOfExtends(xs: seq<BucketSample>, s: BucketSample)
    ensures AccOf(xs + [s]) == AccOf(xs).Push(s)
  {
    assert (xs + [s])[..|xs|] == xs;
  }

  lemma {:induction false} AccOfTotals(xs: seq<BucketSample>)
    ensures AccOf(xs).sumWeighted == WeightedSum(xs) && AccOf(xs).cnt == CntSum(xs)
    ensures xs != [] ==> AccOf(xs).last == xs[|xs| - 1].last
  {
    if xs == [] {
    } else {
      AccOfTotals(xs[..|xs| - 1]);
    }
  }

  lemma {:induction false} AccOfExtremes(xs: seq<BucketSample>)
    ensures xs == [] ==> AccOf(xs).min == None && AccOf(xs).max == None
    ensures xs != [] ==> AccOf(xs).min == Some(MinOf(Mins(xs))) && AccOf(xs).max == Some(MaxOf(Maxes(xs)))
  {
    if xs == [] {
    } else {
      var init, s := xs[..|xs| - 1], xs[|xs| - 1];
      hide MinOf, MaxOf, Mins, Maxes;
      AccOfExtremes(init);
      assert xs == init + [s];
      ColumnsExtend(init, s);
      ExtremesExtend(Mins(init), s.min);
      ExtremesExtend(Maxes(init), s.max);
    }
  }

  function AccsOf(rows: seq<SourceRow>): Accs {
    map k | k in KeysSampled(rows) :: AccOf(Samples(rows, k))
  }

  /** The samples of a key as one: the mean weighted by count, the extremes, the last value, the count. */
  function Combined(xs: seq<BucketSample>): BucketSample
    requires CntSum(xs) > 0
  {
    BucketSample(Round4(WeightedSum(xs) / CntSum(xs) as real),
                 MinOf(Mins(xs)), MaxOf(Maxes(xs)), xs[|xs| - 1].last, CntSum(xs))
  }

  function MaxIdOf(rows: seq<SourceRow>): (m: int)
    ensures m >= 0 && forall i | 0 <= i < |rows| :: rows[i].id <= m
    ensures m == 0 || exists i | 0 <= i < |rows| :: rows[i].id == m
  {
    if rows == [] then 0
    else
      var m, row := MaxIdOf(rows[..|rows| - 1]), rows[|rows| - 1];
      if row.id > m then row.id else m
  }

  /** Every key counted at least once, combined. */
  function Aggregates(rows: seq<SourceRow>): map<string, Cell> {
    map k | k in KeysSampled(rows) && CntSum(Samples(rows, k)) > 0 :: Aggregate(Combined(Samples(rows, k)))
  }

  /** The aggregates and the greatest row id, whatever a metric of that name held. */
  function Rollup(rows: seq<SourceRow>): map<string, Cell> {
    Aggregates(rows)[SRC_MAX_ID := MaxId(MaxIdOf(rows))]
  }

  lemma SamplesExtend(rows: seq<SourceRow>, row: SourceRow, key: string)
    ensures Samples(rows + [row], key)
         == Samples(rows, key) + if key in SampleKeys(row) then [row.metrics.fields[key].value] else []
  {
    assert (rows + [row])[..|rows|] == rows;
  }

  // ---- The loops ----

  function PushedAt(accs: Accs, row: SourceRow, k: string): RollupAcc
    requires k in accs.Keys + SampleKeys(row)
  {
    var was := if k in accs then accs[k] else NO_SAMPLES;
    if k in SampleKeys(row) then was.Push(row.metrics.fields[k].value) else was
  }

  lemma AccsAt(rows: seq<SourceRow>, k: string)
    ensures k in AccsOf(rows) <==> Samples(rows, k) != []
    ensures k in AccsOf(rows) ==> AccsOf(rows)[k] == AccOf(Samples(rows, k))
  {
  }

  lemma AccsExtend(rows: seq<SourceRow>, row: SourceRow, k: string)
    ensures k in AccsOf(rows + [row]) <==> k in AccsOf(rows).Keys + SampleKeys(row)
    ensures k in AccsOf(rows + [row]) ==> AccsOf(rows + [row])[k] == PushedAt(AccsOf(rows), row, k)
  {
    AccsAt(rows, k);
    AccsAt(rows + [row], k);
    SamplesExtend(rows, row, k);
    var xs, ys := Samples(rows, k), Samples(rows + [row], k);
    if k in SampleKeys(row) {
      AccOfExtends(xs, row.metrics.fields[k].value);
      assert ys == xs + [row.metrics.fields[k].value];
    } else {
      assert ys == xs;
    }
  }

  /** The inner loop: the samples of one row, in whatever order its keys come. */
  method PushRow(accs: Accs, row: SourceRow) returns (accs': Accs)
    ensures accs'.Keys == accs.Keys + SampleKeys(row)
    ensures forall k | k in accs' :: accs'[k] == PushedAt(accs, row, k)
  {
    accs' := accs;
    if row.metrics.NotObject? {
      return;
    }
    var todo := row.metrics.fields.Keys;
    while todo != {}
      invariant todo <= row.metrics.fields.Keys
      invariant accs'.Keys == accs.Keys + (SampleKeys(row) - todo)
      invariant forall k | k in accs' :: accs'[k] == if k in todo then accs[k] else PushedAt(accs, row, k)
      decreases todo
    {
      var key :| key in todo;
      if row.metrics.fields[key].Some? {
        var acc := if key in accs' then accs'[key] else NO_SAMPLES;
        accs' := accs'[key := acc.Push(row.metrics.fields[key].value)];
      }
      todo := todo - {key};
    }
  }

  predicate Counted(acc: RollupAcc) {
    acc.cnt > 0 && acc.min.Some? && acc.max.Some?
  }

  function OutputOf(accs: Accs): map<string, Cell> {
    map k | k in accs && Counted(accs[k]) ::
      Aggregate(BucketSample(Round4(accs[k].sumWeighted / accs[k].cnt as real),
                             accs[k].min.value, accs[k].max.value, accs[k].last, accs[k].cnt))
  }

  /** The output loop: what counted nothing is left out. */
  method Output(accs: Accs) returns (out: map<string, Cell>)
    ensures out == OutputOf(accs)
  {
    out := map[];
    var todo := accs.Keys;
    while todo != {}
      invariant todo <= accs.Keys
      invariant out.Keys == OutputOf(accs).Keys - todo
      invariant forall k | k in out :: out[k] == OutputOf(accs)[k]
      decreases todo
    {
      var key :| key in todo;
      var acc := accs[key];
      if acc.cnt != 0 && acc.min.Some? && acc.max.Some? {
        out := out[key := Aggregate(BucketSample(Round4(acc.sumWeighted / acc.cnt as real),
                                                 acc.min.value, acc.max.value, acc.last, acc.cnt))];
      }
      todo := todo - {key};
    }
  }

  lemma RowExtends(rows: seq<SourceRow>, row: SourceRow, accs: Accs)
    requires accs.Keys == AccsOf(rows).Keys + SampleKeys(row)
    requires forall k | k in accs :: accs[k] == PushedAt(AccsOf(rows), row, k)
    ensures accs == AccsOf(rows + [row])
  {
    forall k
      ensures k in accs <==> k in AccsOf(rows + [row])
      ensures k in accs ==> accs[k] == AccsOf(rows + [row])[k]
    {
      AccsExtend(rows, row, k);
    }
    SameMaps(accs, AccsOf(rows + [row]));
  }

  lemma OutputAt(rows: seq<SourceRow>, k: string)
    ensures k in OutputOf(AccsOf(rows)) <==> k in Aggregates(rows)
    ensures k in OutputOf(AccsOf(rows)) ==> OutputOf(AccsOf(rows))[k] == Aggregates(rows)[k]
  {
    AccsAt(rows, k);
    AccOfTotals(Samples(rows, k));
    AccOfExtremes(Samples(rows, k));
  }

  lemma OutputIsAggregates(rows: seq<SourceRow>)
    ensures OutputOf(AccsOf(rows)) == Aggregates(rows)
  {
    var out, expected := OutputOf(AccsOf(rows)), Aggregates(rows);
    forall k
      ensures k in out <==> k in expected
      ensures k in out ==> out[k] == expected[k]
    {
      OutputAt(rows, k);
    }
    SameMaps(out, expected);
  }

  method RollupMetrics(rows: seq<SourceRow>) returns (out: map<string, Cell>)
    ensures out == Rollup(rows)
  {
    var accs: Accs := map[];
    var srcMaxId := 0;
    for i := 0 to |rows|
      invariant srcMaxId == MaxIdOf(rows[..i])
      invariant accs == AccsOf(rows[..i])
    {
      assert rows[..i + 1][..i] == rows[..i] && rows[..i + 1] == rows[..i] + [rows[i]];
      if rows[i].id > srcMaxId {
        srcMaxId := rows[i].id;
      }
      accs := PushRow(accs, rows[i]);
      RowExtends(rows[..i], rows[i], accs);
    }
    assert rows[..|rows|] == rows;
    out := Output(accs);
    OutputIsAggregates(rows);
    out := out[SRC_MAX_ID := MaxId(srcMaxId)];
  }

  // ---- What an hourly row holds ----

  predicate HasSample(row: SourceRow, key: string) {
    row.metrics.Object? && key in row.metrics.fields && row.metrics.fields[key].Some?
  }

  /** The samples of a metric are those of the rows, in their order and none left out. */
  lemma {:induction false} SamplesArePlaced(rows: seq<SourceRow>, key: string) returns (at: seq<nat>)
    ensures ArePlaces(at, rows, row => HasSample(row, key)) && |Samples(rows, key)| == |at|
    ensures forall i | 0 <= i < |at| :: Samples(rows, key)[i] == rows[at[i]].metrics.fields[key].value
  {
    if rows == [] {
      at := [];
    } else {
      var n := |rows| - 1;
      var before := SamplesArePlaced(rows[..n], key);
      OnePlaceMore(before, rows[..n], rows[n], row => HasSample(row, key));
      assert rows[..n] + [rows[n]] == rows;
      at := before + if HasSample(rows[n], key) then [n] else [];
    }
  }

  /**
   An hourly row has a cell for every metric that counted at least once: the sum of the counts, the least
   minimum, the greatest maximum, the last value, and the weighted mean to the nearest ten-thousandth.
   */
  lemma HourlyRowHolds(rows: seq<SourceRow>, key: string) returns (mean: int)
    requires key != "_src_max_id"
    ensures key in Rollup(rows) <==> CntSum(Samples(rows, key)) > 0
    ensures key in Rollup(rows) ==>
              Rollup(rows)[key].Aggregate? && CombinesTo(Samples(rows, key), Rollup(rows)[key].sample, mean)
  {
    hide Samples, CntSum, WeightedSum, MinOf, MaxOf, Round4, CombinesTo;
    var xs := Samples(rows, key);
    mean := 0;
    SamplesSeen(rows, key);
    if CntSum(xs) > 0 {
      mean := CombinedHolds(xs);
    }
  }

  lemma SamplesSeen(rows: seq<SourceRow>, key: string)
    ensures CntSum(Samples(rows, key)) > 0 ==> key in KeysSampled(rows)
  {
  }

  ghost predicate CombinesTo(xs: seq<BucketSample>, cell: BucketSample, mean: int) {
    && xs != [] && CntSum(xs) > 0
    && cell.cnt == CntSum(xs) && cell.last == xs[|xs| - 1].last
    && (exists x :: x in xs && cell.min == x.min) && (forall x | x in xs :: cell.min <= x.min)
    && (exists x :: x in xs && cell.max == x.max) && (forall x | x in xs :: x.max <= cell.max)
    && cell.avg == mean as real / 10000.0
    && -0.5 <= mean as real - WeightedSum(xs) / CntSum(xs) as real * 10000.0 <= 0.5
  }

  lemma CombinedHolds(xs: seq<BucketSample>) returns (mean: int)
    requires CntSum(xs) > 0
    ensures CombinesTo(xs, Combined(xs), mean)
  {
    hide CntSum, WeightedSum, MinOf, MaxOf, Round4;
    assert xs != [] by { NothingCounts(xs); }
    mean := Round4IsNearest(WeightedSum(xs) / CntSum(xs) as real);
    var mins, maxes := Mins(xs), Maxes(xs);
    var i :| 0 <= i < |mins| && mins[i] == MinOf(mins);
    assert xs[i] in xs;
    var j :| 0 <= j < |maxes| && maxes[j] == MaxOf(maxes);
    assert xs[j] in xs;
    forall x | x in xs
      ensures MinOf(mins) <= x.min && x.max <= MaxOf(maxes)
    {
      var n :| 0 <= n < |xs| && xs[n] == x;
      assert mins[n] == x.min && maxes[n] == x.max;
    }
  }

  lemma NothingCounts(xs: seq<BucketSample>)
    ensures xs == [] ==> CntSum(xs) == 0
  {
  }

  /** Whatever a metric of that name held, the row records the greatest id among its source rows, or 0. */
  lemma HourlyRowRecordsId(rows: seq<SourceRow>)
    ensures "_src_max_id" in Rollup(rows) && Rollup(rows)["_src_max_id"].MaxId?
    ensures var m := Rollup(rows)["_src_max_id"].id;
            && m >= 0 && (forall r | r in rows :: r.id <= m)
            && (m == 0 || exists r | r in rows :: r.id == m)
  {
    var m := MaxIdOf(rows);
    if m != 0 {
      var i :| 0 <= i < |rows| && rows[i].id == m;
      assert rows[i] in rows;
    }
  }
}
