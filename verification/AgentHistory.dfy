/**
 Thinning out the points of a history curve (crates/foims-agent-service/src/agents_api.rs): the row
 filter of the query in `get_agent_history`, and `sample_series` on what the query returns.
 */
module AgentHistory {

  const HISTORY_MAX_POINTS := 600

  function CeilDiv(a: nat, b: nat): nat
    requires b > 0
  {
    (a + b - 1) / b
  }

  // ---- The query ----

  /** Whether row `rn` of `n`, counted from 1, is returned when at most `k` are wanted. */
  predicate Keeps(rn: nat, n: nat, k: nat)
    requires 1 <= rn <= n
  {
    n <= k || CeilDiv(rn * k, n) != CeilDiv((rn - 1) * k, n)
  }

  /** The numbers of the returned rows among the first `upTo` of `n`. */
  function KeptUpTo(upTo: nat, n: nat, k: nat): seq<nat>
    requires upTo <= n
  {
    if upTo == 0 then [] else KeptUpTo(upTo - 1, n, k) + if Keeps(upTo, n, k) then [upTo] else []
  }

  function KeptRows(n: nat, k: nat): seq<nat> {
    KeptUpTo(n, n, k)
  }

  /** The first rows of the first `count` of `k` equal parts of `n` rows. */
  function PartStarts(count: nat, n: nat, k: nat): seq<nat>
    requires k > 0
  {
    seq(count, j requires 0 <= j < count => j * n / k + 1)
  }

  lemma TimesIsMonotone(a: int, b: int, c: nat)
    ensures a <= b ==> a * c <= b * c
  {
  }

  lemma DivBounds(a: nat, b: nat, q: nat)
    requires b > 0 && q * b <= a < (q + 1) * b
    ensures a / b == q
  {
    TimesIsMonotone(a / b + 1, q, b);
    TimesIsMonotone(q + 1, a / b, b);
  }

  lemma CeilDivBounds(a: nat, b: nat)
    requires b > 0
    ensures a <= CeilDiv(a, b) * b < a + b
  {
  }

  /** Going on one row, the quotient stays or grows by one; where it grows from `j`, part `j` begins. */
  lemma QuotientGrows(rn: nat, n: nat, k: nat)
    requires 1 <= rn <= n && 1 <= k < n
    ensures var before, after := CeilDiv((rn - 1) * k, n), CeilDiv(rn * k, n);
            before == after || (before + 1 == after && before * n / k + 1 == rn)
  {
    var before, after := CeilDiv((rn - 1) * k, n), CeilDiv(rn * k, n);
    CeilDivBounds((rn - 1) * k, n);
    CeilDivBounds(rn * k, n);
    assert rn * k == (rn - 1) * k + k;
    OrderOfMultiples(before, after, n, (rn - 1) * k, k);
    if before != after {
      assert before * n < rn * k;
      DivBounds(before * n, k, rn - 1);
    }
  }

  lemma OrderOfMultiples(before: nat, after: nat, n: nat, a: nat, k: nat)
    requires 1 <= k < n
    requires a <= before * n < a + n && a + k <= after * n < a + k + n
    ensures before == after || (before + 1 == after && before * n < a + k)
  {
    TimesIsMonotone(after + 1, before, n);
    TimesIsMonotone(before + 2, after, n);
  }

  lemma PartStartsMore(count: nat, n: nat, k: nat)
    requires k > 0
    ensures PartStarts(count + 1, n, k) == PartStarts(count, n, k) + [count * n / k + 1]
  {
  }

  lemma {:induction false} KeptArePartStarts(upTo: nat, n: nat, k: nat)
    requires upTo <= n && 1 <= k < n
    ensures KeptUpTo(upTo, n, k) == PartStarts(CeilDiv(upTo * k, n), n, k)
  {
    if upTo == 0 {
    } else {
      KeptArePartStarts(upTo - 1, n, k);
      QuotientGrows(upTo, n, k);
      PartStartsMore(CeilDiv((upTo - 1) * k, n), n, k);
    }
  }

  lemma WholeQuotient(n: nat, k: nat)
    requires n > 0
    ensures CeilDiv(n * k, n) == k
  {
    DivBounds(n * k + n - 1, n, k);
  }

  lemma {:induction false} AllKept(upTo: nat, n: nat, k: nat)
    requires upTo <= n <= k
    ensures KeptUpTo(upTo, n, k) == seq(upTo, i => i + 1)
  {
    if upTo == 0 {
    } else {
      AllKept(upTo - 1, n, k);
    }
  }

  /** Up to `k` rows all are returned; of more, exactly the first rows of `k` equal parts. */
  lemma QueryKeeps(n: nat, k: nat)
    requires k >= 1
    ensures n <= k ==> KeptRows(n, k) == seq(n, i => i + 1)
    ensures n > k ==> KeptRows(n, k) == PartStarts(k, n, k) && |KeptRows(n, k)| == k && KeptRows(n, k)[0] == 1
  {
    if n <= k {
      AllKept(n, n, k);
    } else {
      KeptArePartStarts(n, n, k);
      WholeQuotient(n, k);
    }
  }

  /** The last part has more than one row, so the newest row is returned only when all are. */
  lemma NewestIsKeptIff(n: nat, k: nat)
    requires n >= 1 && k >= 1
    ensures n in KeptRows(n, k) <==> n <= k
  {
    QueryKeeps(n, k);
    if n <= k {
      assert KeptRows(n, k)[n - 1] == n;
    } else {
      forall j | 0 <= j < k
        ensures j * n / k + 1 < n
      {
        PartStartsBeforeLast(j, n, k);
      }
    }
  }

  lemma PartStartsBeforeLast(j: nat, n: nat, k: nat)
    requires 0 <= j < k < n
    ensures j * n / k + 1 < n
  {
    TimesIsMonotone(j, k - 1, n);
    assert (k - 1) * n == k * n - n && (n - 1) * k == k * n - k;
    TimesIsMonotone(n - 1, j * n / k, k);
    assert j * n / k * k <= j * n;
  }

  // ---- Sampling ----

  /** The distance of the sampled points. */
  function Step(len: nat, max: nat): nat
    requires max >= 2
  {
    CeilDiv(if len == 0 then 0 else len - 1, max - 1)
  }

  /** How many points are on the steps. */
  function OnSteps(len: nat, max: nat): nat
    requires len > max >= 2
  {
    StepIsPositive(len, max);
    (len - 1) / Step(len, max) + 1
  }

  lemma StepIsPositive(len: nat, max: nat)
    requires len > max >= 2
    ensures Step(len, max) >= 1
  {
    DivBounds(max - 1, max - 1, 1);
    CeilDivBounds(len - 1, max - 1);
  }

  /** The step is the least with which `max` points get past the end. */
  lemma StepIsLeast(len: nat, max: nat)
    requires len > max >= 2
    ensures (Step(len, max) - 1) * (max - 1) < len - 1 <= Step(len, max) * (max - 1)
  {
    CeilDivBounds(len - 1, max - 1);
    assert (Step(len, max) - 1) * (max - 1) == Step(len, max) * (max - 1) - (max - 1);
  }

  /** The points on the steps and then the last one, unless the last of them has its value. */
  predicate OnStepsThenLast<T(==)>(sampled: seq<T>, points: seq<T>, max: nat)
    requires |points| > max >= 2
  {
    var last, n, step := points[|points| - 1], OnSteps(|points|, max), Step(|points|, max);
    && n <= |sampled|
    && (forall i | 0 <= i < n :: 0 <= i * step < |points| && sampled[i] == points[i * step])
    && sampled[n..] == if sampled[n - 1] == last then [] else [last]
  }

  lemma OnlyStep(step: nat, len: nat, max: nat)
    requires len > max >= 2 && (step - 1) * (max - 1) < len - 1 <= step * (max - 1)
    ensures step == Step(len, max)
  {
    StepIsLeast(len, max);
    TimesIsMonotone(step, Step(len, max) - 1, max - 1);
    TimesIsMonotone(Step(len, max), step - 1, max - 1);
  }

  lemma BeforeTheEnd(i: nat, len: nat, step: nat)
    requires step >= 1 && i * step < len
    ensures i < (len - 1) / step + 1
  {
    var q := (len - 1) / step;
    TimesIsMonotone(q + 1, i, step);
    assert (q + 1) * step == q * step + step;
  }

  /** Of more than `max` points every `step`-th is sampled, for the least step with which `max` points reach the end. */
  lemma SampledOnSteps<T>(sampled: seq<T>, points: seq<T>, max: nat, step: nat, i: nat)
    requires |points| > max >= 2 && OnStepsThenLast(sampled, points, max)
    requires (step - 1) * (max - 1) < |points| - 1 <= step * (max - 1) && i * step < |points|
    ensures i < |sampled| && sampled[i] == points[i * step]
  {
    OnlyStep(step, |points|, max);
    StepIsPositive(|points|, max);
    BeforeTheEnd(i, |points|, step);
  }

  /** Every `step`-th point, from the first one on. */
  method StepBy<T>(points: seq<T>, step: nat) returns (sampled: seq<T>)
    requires points != [] && step >= 1
    ensures |sampled| == (|points| - 1) / step + 1
    ensures forall i | 0 <= i < |sampled| :: 0 <= i * step < |points| && sampled[i] == points[i * step]
  {
    sampled := [];
    var i := 0;
    while i < |points|
      invariant i == |sampled| * step
      invariant forall j | 0 <= j < |sampled| :: 0 <= j * step < |points| && sampled[j] == points[j * step]
      invariant |sampled| > 0 ==> (|sampled| - 1) * step < |points|
      decreases |points| - i
    {
      sampled := sampled + [points[i]];
      assert (|sampled| - 1) * step == i;
      i := i + step;
    }
    assert |sampled| > 0;
    DivBounds(|points| - 1, step, |sampled| - 1);
  }

  method SampleSeries<T(==)>(points: seq<T>, maxPoints: nat) returns (sampled: seq<T>)
    ensures |points| <= maxPoints || maxPoints < 2 ==> sampled == points
    ensures |points| > maxPoints >= 2 ==>
              OnStepsThenLast(sampled, points, maxPoints) && IsSample(sampled, points, maxPoints)
  {
    if |points| <= maxPoints || maxPoints < 2 {
      return points;
    }
    StepIsPositive(|points|, maxPoints);
    sampled := StepBy(points, CeilDiv(|points| - 1, maxPoints - 1));
    var last := points[|points| - 1];
    if sampled[|sampled| - 1] != last {
      sampled := sampled + [last];
    }
    SampleIsSelection(sampled, points, maxPoints);
  }

  /** The points on the steps and the last one are at most `max`: when the steps alone are as many, they end on it. */
  lemma SampleFits(len: nat, max: nat)
    requires len > max >= 2
    ensures var n, step := OnSteps(len, max), Step(len, max);
            n < max || (n == max && (n - 1) * step == len - 1)
  {
    StepIsPositive(len, max);
    var step := Step(len, max);
    var n := (len - 1) / step;
    CeilDivBounds(len - 1, max - 1);
    assert n * step <= len - 1 <= step * (max - 1);
    TimesIsMonotone(max, n, step);
  }

  /** In order, not too many, the first point first and the value of the last one last. */
  ghost predicate IsSample<T>(sampled: seq<T>, points: seq<T>, max: nat)
    requires points != []
  {
    && 1 <= |sampled| <= max
    && sampled[0] == points[0] && sampled[|sampled| - 1] == points[|points| - 1]
    && exists chosen: seq<nat> :: Chooses(chosen, sampled, points)
  }

  predicate Chooses<T(==)>(chosen: seq<nat>, sampled: seq<T>, points: seq<T>) {
    && |chosen| == |sampled|
    && (forall i | 0 <= i < |chosen| :: chosen[i] < |points| && sampled[i] == points[chosen[i]])
    && forall i, j | 0 <= i < j < |chosen| :: chosen[i] < chosen[j]
  }

  predicate Increases(steps: seq<nat>, limit: nat) {
    && (forall i | 0 <= i < |steps| :: steps[i] < limit)
    && forall i, j | 0 <= i < j < |steps| :: steps[i] < steps[j]
  }

  function Steps(n: nat, step: nat): seq<nat> {
    seq(n, i requires 0 <= i < n => i * step)
  }

  lemma StepsIncrease(n: nat, step: nat, limit: nat)
    requires n >= 1 && step >= 1 && (n - 1) * step < limit
    ensures Increases(Steps(n, step), limit)
  {
    forall i | 0 <= i < n
      ensures i * step < limit
    {
      TimesIsMonotone(i, n - 1, step);
    }
    forall i, j | 0 <= i < j < n
      ensures i * step < j * step
    {
      TimesIsMonotone(i + 1, j, step);
    }
  }

  lemma StepsThenLast<T>(steps: seq<nat>, sampled: seq<T>, points: seq<T>)
    requires steps != [] && Increases(steps, |points|) && steps[0] == 0 && |steps| <= |sampled|
    requires forall i | 0 <= i < |steps| :: sampled[i] == points[steps[i]]
    requires sampled[|steps|..] == if sampled[|steps| - 1] == points[|points| - 1] then [] else [points[|points| - 1]]
    ensures sampled[0] == points[0] && sampled[|sampled| - 1] == points[|points| - 1]
    ensures |sampled| == |steps| || (|sampled| == |steps| + 1 && steps[|steps| - 1] < |points| - 1)
    ensures exists chosen: seq<nat> :: Chooses(chosen, sampled, points)
  {
    var n, last := |steps|, |points| - 1;
    if |sampled| == n {
      assert Chooses(steps, sampled, points);
    } else {
      assert sampled[n] == sampled[n..][0] == points[last];
      assert steps[n - 1] != last;
      assert Chooses(steps + [last], sampled, points);
    }
  }

  /** Sampling keeps at most `max` points, in their order, from the first to the value of the last. */
  lemma SampleIsSelection<T>(sampled: seq<T>, points: seq<T>, max: nat)
    requires |points| > max >= 2 && OnStepsThenLast(sampled, points, max)
    ensures IsSample(sampled, points, max)
  {
    var n, step := OnSteps(|points|, max), Step(|points|, max);
    SampleFits(|points|, max);
    StepIsPositive(|points|, max);
    StepsIncrease(n, step, |points|);
    StepsThenLast(Steps(n, step), sampled, points);
  }

  lemma {:induction false} KeptAreRows(upTo: nat, n: nat, k: nat)
    requires upTo <= n
    ensures forall i | 0 <= i < |KeptUpTo(upTo, n, k)| :: 1 <= KeptUpTo(upTo, n, k)[i] <= n
  {
    if upTo == 0 {
    } else {
      KeptAreRows(upTo - 1, n, k);
    }
  }

  /** The rows that the query returns. */
  function Returned<T>(rows: seq<T>, k: nat): seq<T> {
    KeptAreRows(|rows|, |rows|, k);
    var kept := KeptRows(|rows|, k);
    seq(|kept|, i requires 0 <= i < |kept| => rows[kept[i] - 1])
  }

  /** The points of a curve: sampling leaves alone what the query returns. */
  method GetHistory<T(==)>(rows: seq<T>) returns (items: seq<T>)
    ensures |items| <= 600
    ensures items == Returned(rows, 600)
  {
    QueryKeeps(|rows|, HISTORY_MAX_POINTS);
    var points := Returned(rows, HISTORY_MAX_POINTS);
    items := SampleSeries(points, HISTORY_MAX_POINTS);
  }
}
