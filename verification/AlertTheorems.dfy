/**
 What the alert settings promise (crates/foims-agent-service/src/alert_episode.rs).

 The trail a run leaves in memory follows the diagram if and only if every restart reads back what memory
 held (`RuntimeFollowsIff`); writes may fail for any records and at any time. The theorems state the
 promises for the runtime under that condition, which holds in particular when no restart follows a failed
 write (`GoodWritesServe`). Evaluations may carry any thresholds, windows and deliveries unless a theorem
 says otherwise.
 */
module AlertTheorems {
  import opened Wrappers
  import opened AlertEpisode
  import opened AlertRuns
  import opened AlertDiagram

  function CourseIn(e: EpisodeState): Course {
    Course(e.status, e.startedAt, e.resolvedAt, if e.notifyIds != [] then e.lastNotifiedAt else None)
  }

  function CourseOf(s: Store, k: Key): Option<Course> {
    if k in s.episodes then Some(CourseIn(s.episodes[k])) else None
  }

  /** One step with its effects, seen from the diagram. */
  ghost predicate FollowsDiagram(e: EpisodeState, ev: Evaluation, delivery: Option<seq<Uuid>>) {
    var (e', fx) := Advanced(e, ev.value, ev.threshold, ev.windows, ev.now);
    var c := Some(CourseIn(e));
    && (fx.notifyOpen <==> OpensOn(c, ev))
    && (fx.renotify <==> ResendsOn(c, ev))
    && (fx.notifyResolved <==> ResolvesOn(c, ev))
    && !e'.IsPlaceholder()
    && NextCourse(c, ev, delivery)
       == if fx.delete then None else Some(CourseIn(Delivered(e', fx, ev.now, delivery)))
  }

  lemma PendingFollowsDiagram(e: EpisodeState, ev: Evaluation, delivery: Option<seq<Uuid>>)
    requires Shaped(e) && e.status == Pending
    ensures FollowsDiagram(e, ev, delivery)
  {
    if ev.value.Some? && EvLevel(ev) == Some(Over) {
      var e1 := e.(threshold := ev.threshold).WithExcess(ev.value.value, ev.now);
      assert CourseIn(e1) == CourseIn(e);
    }
  }

  lemma ActiveFollowsDiagram(e: EpisodeState, ev: Evaluation, delivery: Option<seq<Uuid>>)
    requires Shaped(e) && e.status == Active
    ensures FollowsDiagram(e, ev, delivery)
  {
    if ev.value.Some? && EvLevel(ev) == Some(Over) {
      var e1 := e.(threshold := ev.threshold).WithExcess(ev.value.value, ev.now);
      assert CourseIn(e1) == CourseIn(e);
      assert e1.InQuietWindow(ev.now, ev.windows) <==> QuietAt(CourseIn(e), ev);
    }
  }

  lemma ResolvedFollowsDiagram(e: EpisodeState, ev: Evaluation, delivery: Option<seq<Uuid>>)
    requires Shaped(e) && e.status == Resolved
    ensures FollowsDiagram(e, ev, delivery)
  {
    if ev.value.Some? && EvLevel(ev) == Some(Over) {
      var e1 := e.(threshold := ev.threshold).Reborn(ev.value.value, ev.now);
      assert CourseIn(e1) == Exceeded(Some(CourseIn(e)), ev.now);
    }
  }

  lemma AdvancedFollowsDiagram(s: Store, ev: Evaluation, delivery: Option<seq<Uuid>>, writeOk: bool)
    requires ev.key in s.episodes && FollowsDiagram(s.episodes[ev.key], ev, delivery)
    ensures CourseOf(Evaluated(s, ev, delivery, writeOk), ev.key) == NextCourse(CourseOf(s, ev.key), ev, delivery)
    ensures var fx := EffectsOf(s, ev);
            && (fx.notifyOpen <==> OpensOn(CourseOf(s, ev.key), ev))
            && (fx.renotify <==> ResendsOn(CourseOf(s, ev.key), ev))
            && (fx.notifyResolved <==> ResolvesOn(CourseOf(s, ev.key), ev))
  {
    assert StepOf(s, ev) == Advanced(s.episodes[ev.key], ev.value, ev.threshold, ev.windows, ev.now);
  }

  lemma PristineFollowsDiagram(s: Store, ev: Evaluation, delivery: Option<seq<Uuid>>, writeOk: bool)
    requires ev.key !in s.episodes
    ensures CourseOf(Evaluated(s, ev, delivery, writeOk), ev.key) == NextCourse(None, ev, delivery)
    ensures var fx := EffectsOf(s, ev);
            (fx.notifyOpen <==> OpensOn(None, ev)) && !fx.renotify && !fx.notifyResolved
  {
  }

  // ---- Restarts ----

  /** What a restart makes of the row of `k`. */
  function ReadBack(s: Store, readOk: bool, k: Key): Option<EpisodeState> {
    if readOk && k in s.table then IntoEpisode(k, s.table[k]) else None
  }

  /** A restart reads back the course that memory holds for `k`, or nothing if no alert of `k` is open. */
  predicate Serves(s: Store, readOk: bool, k: Key) {
    var row := ReadBack(s, readOk, k);
    if row.Some? then k in s.episodes && CourseIn(row.value) == CourseIn(s.episodes[k])
    else k in s.episodes ==> s.episodes[k].status != Active
  }

  predicate RestartsServe(ops: seq<Op>, k: Key) {
    forall j | 0 <= j < |ops| && ops[j].Restart? :: Serves(Run(ops[..j]), ops[j].readOk, k)
  }

  lemma RestartMovesIff(s: Store, readOk: bool, k: Key)
    ensures Moves(CourseOf(s, k), Restart(readOk), CourseOf(Apply(s, Restart(readOk)), k), k) <==> Serves(s, readOk, k)
  {
  }

  lemma CoherentServes(s: Store, readOk: bool, k: Key)
    requires CoherentAt(s, k) && WritesOk(s, Restart(readOk), k)
    ensures Serves(s, readOk, k)
  {
    if k in s.table {
      ReloadedRow(k, s.table[k], s.episodes[k]);
    }
  }

  /** No restart comes after a write for `k` that failed, or fails to read its row. */
  predicate RestartsOk(ops: seq<Op>, k: Key) {
    forall j | 0 <= j < |ops| && ops[j].Restart? :: AllWritesOk(ops[..j + 1], k)
  }

  /** Restarts serve wherever memory and table agree, as they do while writes work and after a flush has made good. */
  lemma AgreementServes(ops: seq<Op>, k: Key)
    requires forall j | 0 <= j < |ops| && ops[j].Restart? ::
               CoherentAt(Run(ops[..j]), k) && WritesOk(Run(ops[..j]), ops[j], k)
    ensures RestartsServe(ops, k)
  {
    forall j | 0 <= j < |ops| && ops[j].Restart?
      ensures Serves(Run(ops[..j]), ops[j].readOk, k)
    {
      CoherentServes(Run(ops[..j]), ops[j].readOk, k);
    }
  }

  lemma GoodWritesServe(ops: seq<Op>, k: Key)
    requires RestartsOk(ops, k)
    ensures RestartsServe(ops, k)
  {
    forall j | 0 <= j < |ops| && ops[j].Restart?
      ensures CoherentAt(Run(ops[..j]), k) && WritesOk(Run(ops[..j]), ops[j], k)
    {
      var upTo := ops[..j + 1];
      assert forall i | 0 <= i <= j :: upTo[..i] == ops[..i] && upTo[i] == ops[i];
      assert forall i | 0 <= i < j :: ops[..j][..i] == ops[..i];
      RunIsCoherent(ops[..j], k);
    }
    AgreementServes(ops, k);
  }

  /** One operation of the runtime is one move of the diagram, with the same notifications. */
  lemma CourseStep(s: Store, op: Op, k: Key)
    requires ShapedAt(s, k)
    ensures Evaluates(op, k) ==>
              && CourseOf(Apply(s, op), k) == NextCourse(CourseOf(s, k), op.ev, op.delivery)
              && var fx := EffectsOf(s, op.ev);
                 && (fx.notifyOpen <==> OpensOn(CourseOf(s, k), op.ev))
                 && (fx.renotify <==> ResendsOn(CourseOf(s, k), op.ev))
                 && (fx.notifyResolved <==> ResolvesOn(CourseOf(s, k), op.ev))
    ensures !Evaluates(op, k) && !op.Restart? ==> Moves(CourseOf(s, k), op, CourseOf(Apply(s, op), k), k)
  {
    if Evaluates(op, k) {
      if k in s.episodes {
        var e := s.episodes[k];
        match e.status {
          case Pending => PendingFollowsDiagram(e, op.ev, op.delivery);
          case Active => ActiveFollowsDiagram(e, op.ev, op.delivery);
          case Resolved => ResolvedFollowsDiagram(e, op.ev, op.delivery);
        }
        AdvancedFollowsDiagram(s, op.ev, op.delivery, op.writeOk);
      } else {
        PristineFollowsDiagram(s, op.ev, op.delivery, op.writeOk);
      }
    }
  }

  // ---- The trail of a run ----

  function TrailOf(ops: seq<Op>, k: Key): (cs: Trail)
    ensures |cs| == |ops| + 1
  {
    (if ops == [] then [] else TrailOf(ops[..|ops| - 1], k)) + [CourseOf(Run(ops), k)]
  }

  /** Whether operation `i` of the run makes the runtime notify about an opened alert of `k`. */
  predicate OpensAt(ops: seq<Op>, i: nat, k: Key)
    requires i < |ops|
  {
    Evaluates(ops[i], k) && EffectsOf(Run(ops[..i]), ops[i].ev).notifyOpen
  }

  predicate ResendsAt(ops: seq<Op>, i: nat, k: Key)
    requires i < |ops|
  {
    Evaluates(ops[i], k) && EffectsOf(Run(ops[..i]), ops[i].ev).renotify
  }

  predicate RecoversAt(ops: seq<Op>, i: nat, k: Key)
    requires i < |ops|
  {
    Evaluates(ops[i], k) && EffectsOf(Run(ops[..i]), ops[i].ev).notifyResolved
  }

  /** Whether operation `i` removes the record of `k` from memory. */
  predicate ForgetsAt(ops: seq<Op>, i: nat, k: Key)
    requires i < |ops|
  {
    k in Run(ops[..i]).episodes && k !in Run(ops[..i + 1]).episodes
  }

  predicate ForgottenWithin(ops: seq<Op>, i: nat, j: nat, k: Key)
    requires j <= |ops|
  {
    exists x | i < x < j :: ForgetsAt(ops, x, k)
  }

  lemma {:induction false} TrailAt(ops: seq<Op>, i: nat, k: Key)
    requires i <= |ops|
    ensures TrailOf(ops, k)[i] == CourseOf(Run(ops[..i]), k)
  {
    if i == |ops| {
      assert ops[..i] == ops;
    } else {
      TrailAt(ops[..|ops| - 1], i, k);
      assert ops[..|ops| - 1][..i] == ops[..i];
    }
  }

  /** Whether operation `i` notifies and forgets in the runtime as on its trail. */
  ghost predicate SameAt(ops: seq<Op>, i: nat, k: Key)
    requires i < |ops|
  {
    var cs := TrailOf(ops, k);
    && (OpensAt(ops, i, k) <==> Opens(cs, ops, i, k))
    && (ResendsAt(ops, i, k) <==> Resends(cs, ops, i, k))
    && (RecoversAt(ops, i, k) <==> Recovers(cs, ops, i, k))
    && (ForgetsAt(ops, i, k) <==> Forgets(cs, i))
  }

  lemma RuntimeMoves(ops: seq<Op>, i: nat, k: Key)
    requires i < |ops|
    ensures SameAt(ops, i, k)
    ensures Moves(TrailOf(ops, k)[i], ops[i], TrailOf(ops, k)[i + 1], k)
       <==> (ops[i].Restart? ==> Serves(Run(ops[..i]), ops[i].readOk, k))
  {
    TrailAt(ops, i, k);
    TrailAt(ops, i + 1, k);
    assert ops[..i + 1][..i] == ops[..i];
    RunIsShaped(ops[..i], k);
    CourseStep(Run(ops[..i]), ops[i], k);
    if ops[i].Restart? {
      RestartMovesIff(Run(ops[..i]), ops[i].readOk, k);
    }
  }

  lemma TrailStartsEmpty(ops: seq<Op>, k: Key)
    ensures TrailOf(ops, k)[0] == None
  {
    TrailAt(ops, 0, k);
  }

  /** In every run the runtime refines the diagram if and only if its restarts read back what memory held. */
  lemma RuntimeFollowsIff(ops: seq<Op>, k: Key)
    ensures Follows(TrailOf(ops, k), ops, k) <==> RestartsServe(ops, k)
  {
    hide Moves, Serves, SameAt, Run;
    var cs := TrailOf(ops, k);
    TrailStartsEmpty(ops, k);
    forall i | 0 <= i < |ops|
      ensures Moves(cs[i], ops[i], cs[i + 1], k) <==> (ops[i].Restart? ==> Serves(Run(ops[..i]), ops[i].readOk, k))
    {
      RuntimeMoves(ops, i, k);
    }
    if RestartsServe(ops, k) {
      assert forall i | 0 <= i < |ops| :: Moves(cs[i], ops[i], cs[i + 1], k);
    }
    if Follows(cs, ops, k) {
      forall j | 0 <= j < |ops| && ops[j].Restart?
        ensures Serves(Run(ops[..j]), ops[j].readOk, k)
      {
        assert Moves(cs[j], ops[j], cs[j + 1], k);
      }
    }
  }

  /** The runtime refines the diagram, notification by notification. */
  lemma RuntimeFollows(ops: seq<Op>, k: Key)
    requires RestartsServe(ops, k)
    ensures var cs := TrailOf(ops, k);
            && Follows(cs, ops, k)
            && forall i | 0 <= i < |ops| ::
                 && (OpensAt(ops, i, k) <==> Opens(cs, ops, i, k))
                 && (ResendsAt(ops, i, k) <==> Resends(cs, ops, i, k))
                 && (RecoversAt(ops, i, k) <==> Recovers(cs, ops, i, k))
                 && (ForgetsAt(ops, i, k) <==> Forgets(cs, i))
  {
    RuntimeFollowsIff(ops, k);
    forall i | 0 <= i < |ops|
      ensures OpensAt(ops, i, k) <==> Opens(TrailOf(ops, k), ops, i, k)
      ensures ResendsAt(ops, i, k) <==> Resends(TrailOf(ops, k), ops, i, k)
      ensures RecoversAt(ops, i, k) <==> Recovers(TrailOf(ops, k), ops, i, k)
      ensures ForgetsAt(ops, i, k) <==> Forgets(TrailOf(ops, k), i)
    {
      RuntimeMoves(ops, i, k);
    }
  }

  // ---- The promises ----

  /**
   Every alert was preceded by for_secs of readings above the threshold, missing readings aside. From 2^63
   on the cast of the source makes the window n - 2^64.
   */
  lemma SustainedExcess(ops: seq<Op>, i: nat, k: Key) returns (j: nat)
    requires RestartsServe(ops, k) && i < |ops| && OpensAt(ops, i, k)
    ensures Unbroken(ops, j, i + 1, k)
    ensures var n := ops[i].ev.windows.forSecs;
            && (n < 0x8000_0000_0000_0000 ==> ops[i].ev.now - ops[j].ev.now >= n)
            && (n >= 0x8000_0000_0000_0000 ==> ops[i].ev.now - ops[j].ev.now >= n - 0x1_0000_0000_0000_0000)
  {
    RuntimeFollows(ops, k);
    j := OpeningIsSustained(TrailOf(ops, k), ops, i, k);
  }

  /** Between two openings of `k`, restarts or not, it recovered or its host was cleaned away. */
  lemma OpensOnce(ops: seq<Op>, i: nat, j: nat, k: Key)
    requires RestartsServe(ops, k) && i < j < |ops| && OpensAt(ops, i, k) && OpensAt(ops, j, k)
    ensures exists x | i < x < j :: RecoversAt(ops, x, k) || (ops[x].Cleanup? && ForgetsAt(ops, x, k))
  {
    var cs := TrailOf(ops, k);
    RuntimeFollows(ops, k);
    OpeningsAlternate(cs, ops, i, j, k);
    var x :| i < x < j && (Recovers(cs, ops, x, k) || (ops[x].Cleanup? && Forgets(cs, x)));
    assert RecoversAt(ops, x, k) || ForgetsAt(ops, x, k);
  }

  lemma ForgottenOnTrail(ops: seq<Op>, i: nat, j: nat, k: Key)
    requires j <= |ops|
    ensures ForgottenWithin(ops, i, j, k) <==> ForgottenBetween(TrailOf(ops, k), i, j)
  {
    forall x | i < x < j
      ensures ForgetsAt(ops, x, k) <==> Forgets(TrailOf(ops, k), x)
    {
      RuntimeMoves(ops, x, k);
    }
  }

  /**
   The cooldown exactly. Let `k` recover at `i` and not again before `j`, where an excess that is
   sustained is found and no alert is open: it opens an alert if and only if cooldown_secs have passed
   since `i`, or the record was deleted in between. An excess is sustained for_secs after its Pending began.
   */
  lemma CooldownExactly(ops: seq<Op>, i: nat, j: nat, k: Key)
    requires RestartsServe(ops, k) && i < j < |ops| && RecoversAt(ops, i, k)
    requires forall x | i < x < j :: !RecoversAt(ops, x, k)
    requires Evaluates(ops[j], k) && ops[j].ev.Exceeding()
    requires var was, n := Run(ops[..j]).episodes, ops[j].ev.windows.forSecs;
             && (k in was ==> was[k].status != Active)
             && ops[j].ev.now - (if k in was && was[k].status == Pending then was[k].startedAt else ops[j].ev.now)
                >= if n < 0x8000_0000_0000_0000 then n else n - 0x1_0000_0000_0000_0000
    ensures var n := ops[j].ev.windows.cooldownSecs;
            && (n < 0x8000_0000_0000_0000 ==>
                  (OpensAt(ops, j, k) <==> ForgottenWithin(ops, i, j, k) || ops[j].ev.now - ops[i].ev.now >= n))
            && (n >= 0x8000_0000_0000_0000 ==>
                  (OpensAt(ops, j, k) <==>
                   ForgottenWithin(ops, i, j, k) || ops[j].ev.now - ops[i].ev.now >= n - 0x1_0000_0000_0000_0000))
  {
    RuntimeFollows(ops, k);
    ForgottenOnTrail(ops, i, j, k);
    TrailAt(ops, j, k);
    CooldownDecides(TrailOf(ops, k), ops, i, j, k);
  }

  /** While the record lives, every alert opens at least cooldown_secs after every earlier recovery. */
  lemma CooldownHolds(ops: seq<Op>, i: nat, j: nat, k: Key)
    requires RestartsServe(ops, k) && Monotone(ops, k) && i < j < |ops| && RecoversAt(ops, i, k) && OpensAt(ops, j, k)
    requires !ForgottenWithin(ops, i, j, k)
    ensures var n := ops[j].ev.windows.cooldownSecs;
            && (n < 0x8000_0000_0000_0000 ==> ops[j].ev.now - ops[i].ev.now >= n)
            && (n >= 0x8000_0000_0000_0000 ==> ops[j].ev.now - ops[i].ev.now >= n - 0x1_0000_0000_0000_0000)
  {
    RuntimeFollows(ops, k);
    ForgottenOnTrail(ops, i, j, k);
    CooldownKept(TrailOf(ops, k), ops, i, j, k);
  }

  /** Two notices of `k` are at least min(quiet_secs, for_secs) apart, whatever happens in between. */
  lemma NoticesApart(ops: seq<Op>, i: nat, j: nat, k: Key, m: int)
    requires RestartsServe(ops, k) && Monotone(ops, k) && SendsOk(ops, k) && WindowsAtLeast(ops, k, m)
    requires i < j < |ops|
    requires (OpensAt(ops, i, k) || ResendsAt(ops, i, k)) && (OpensAt(ops, j, k) || ResendsAt(ops, j, k))
    ensures ops[j].ev.now - ops[i].ev.now >= m
  {
    RuntimeFollows(ops, k);
    NoticesOfPair(TrailOf(ops, k), ops, i, j, k, m);
  }

  lemma SpanHolds(xs: seq<int>, m: int, a: nat, b: nat, span: int)
    requires Spaced(xs, m) && m > 0 && a <= b < |xs| && xs[b] - xs[a] <= span
    ensures b - a + 1 <= 1 + span / m
  {
    SpacedFar(xs, m, a, b);
    DivAtLeast(span, m, b - a);
  }

  /** A span of `span` seconds holds at most 1 + span / min(quiet_secs, for_secs) notices of `k`. */
  lemma NotificationRate(ops: seq<Op>, k: Key, m: int, a: nat, b: nat, span: int)
    requires RestartsServe(ops, k) && Monotone(ops, k) && SendsOk(ops, k) && WindowsAtLeast(ops, k, m) && m > 0
    requires var notices := Notices(TrailOf(ops, k), ops, |ops|, k);
             a <= b < |notices| && notices[b] - notices[a] <= span
    ensures b - a + 1 <= 1 + span / m
  {
    hide Follows, RestartsServe, Notices, Monotone, SendsOk, WindowsAtLeast, Spaced;
    RuntimeFollows(ops, k);
    NoticesAreSpaced(TrailOf(ops, k), ops, |ops|, k, m);
    SpanHolds(Notices(TrailOf(ops, k), ops, |ops|, k), m, a, b, span);
  }

  /**
   Hysteresis bounds flapping: N recoveries take readings that travel at least (2N - 1) bands, however
   often the record was dissolved, purged, cleaned or reloaded on the way.
   */
  lemma HysteresisBoundsFlapping(ops: seq<Op>, k: Key, threshold: Byte, hysteresisPct: Byte)
    requires RestartsServe(ops, k) && FixedLevels(ops, k, threshold, hysteresisPct)
    requires Recoveries(TrailOf(ops, k), ops, |ops|, k) >= 1
    ensures Variation(ops, |ops|, k)
         >= (2.0 * Recoveries(TrailOf(ops, k), ops, |ops|, k) as real - 1.0)
            * (threshold as real * hysteresisPct as real / 100.0)
  {
    hide Follows, RestartsServe, Recoveries, Variation, FixedLevels;
    RuntimeFollows(ops, k);
    FlappingTravels(TrailOf(ops, k), ops, k, threshold, hysteresisPct);
  }

  // ---- The cooldown can be forgotten ----

  /** A reading held against 80 with no sustain time and a cooldown of 600 seconds. */
  function Reading(k: Key, value: real, now: int, ids: seq<Uuid>): Op {
    Evaluate(Evaluation(k, 80, Some(value), Windows(0, 300, 600, 5), now), Some(ids), true)
  }

  function FlickerOps(k: Key, ids: seq<Uuid>): seq<Op> {
    [Reading(k, 90.0, 0, ids), Reading(k, 10.0, 10, ids), Reading(k, 90.0, 20, ids), Reading(k, 10.0, 30, ids),
     Reading(k, 90.0, 40, ids)]
  }

  lemma FlickerTrail(cs: Trail, k: Key, ids: seq<Uuid>)
    requires Follows(cs, FlickerOps(k, ids), k)
    ensures Recovers(cs, FlickerOps(k, ids), 1, k) && Opens(cs, FlickerOps(k, ids), 4, k)
  {
    var ops := FlickerOps(k, ids);
    assert Moves(cs[0], ops[0], cs[1], k);
    assert IsActive(cs[1]);
    assert Moves(cs[1], ops[1], cs[2], k);
    assert cs[2].Some? && cs[2].value.status == Resolved && cs[2].value.resolvedAt == Some(10);
    assert Moves(cs[2], ops[2], cs[3], k);
    assert IsPending(cs[3]);
    assert Moves(cs[3], ops[3], cs[4], k);
    assert cs[4].None?;
  }

  /** The cooldown is not kept in general: a dissolved Pending takes the recovery it remembered with it. */
  lemma CooldownIsForgotten(k: Key, ids: seq<Uuid>)
    ensures var ops := FlickerOps(k, ids);
            && AllWritesOk(ops, k) && RestartsServe(ops, k) && Monotone(ops, k)
            && RecoversAt(ops, 1, k) && OpensAt(ops, 4, k)
            && ops[4].ev.now - ops[1].ev.now < 600 == ops[4].ev.windows.cooldownSecs
  {
    var ops := FlickerOps(k, ids);
    RuntimeFollows(ops, k);
    FlickerTrail(TrailOf(ops, k), k, ids);
  }

  // ---- Restarts that read back something else ----

  /** A reading held against 80 with a hysteresis band of 4 and no sustain time, whose write may fail. */
  function Stored(k: Key, value: real, now: int, cooldownSecs: U64, ids: seq<Uuid>, writeOk: bool): Op {
    Evaluate(Evaluation(k, 80, Some(value), Windows(0, 300, cooldownSecs, 5), now), Some(ids), writeOk)
  }

  lemma RunPrefix(ops: seq<Op>, i: nat)
    requires i < |ops|
    ensures Run(ops[..i + 1]) == Apply(Run(ops[..i]), ops[i]) && Run(ops[..0]) == Store(map[], map[])
  {
    assert ops[..i + 1][..i] == ops[..i];
  }

  lemma OpensAtOnce(k: Key, cooldownSecs: U64, ids: seq<Uuid>)
    ensures var s := Apply(Store(map[], map[]), Stored(k, 81.0, 0, cooldownSecs, ids, true));
            && k in s.episodes && s.episodes[k].status == Active && s.episodes[k].persisted
            && k in s.table && s.table[k].status == Word(Active) && s.table[k].threshold == 80
  {
    LevelsCutTheLine(81.0, 80, 5);
  }

  lemma RecoversAtOnce(s: Store, k: Key, now: int, cooldownSecs: U64, ids: seq<Uuid>, writeOk: bool)
    requires k in s.episodes && s.episodes[k].status == Active && s.episodes[k].key == k
    ensures EffectsOf(s, Stored(k, 76.0, now, cooldownSecs, ids, writeOk).ev).notifyResolved
    ensures var s' := Apply(s, Stored(k, 76.0, now, cooldownSecs, ids, writeOk));
            && k in s'.episodes && s'.episodes[k].status == Resolved && s'.episodes[k].resolvedAt == Some(now)
            && s'.episodes[k].dirty == s.episodes[k].dirty && s'.episodes[k].persisted == s.episodes[k].persisted
            && s'.table == if writeOk then s.table[k := RowOf(s'.episodes[k])] else s.table
  {
    assert BandWidth(80, 5) == 4.0;
    LevelsCutTheLine(76.0, 80, 5);
  }

  lemma ReloadsActive(s: Store, k: Key)
    requires k in s.table && s.table[k].status == Word(Active) && 0 <= s.table[k].threshold < 256
    ensures var s' := Apply(s, Restart(true));
            k in s'.episodes && s'.episodes[k].status == Active && s'.episodes[k].key == k
  {
  }

  function LostOps(k: Key, ids: seq<Uuid>): seq<Op> {
    [Stored(k, 81.0, 0, 600, ids, true), Stored(k, 76.0, 10, 600, ids, false), Restart(true),
     Stored(k, 76.0, 20, 600, ids, true)]
  }

  lemma LostVariation(k: Key, ids: seq<Uuid>)
    ensures Variation(LostOps(k, ids), 4, k) == 5.0
  {
    var ops := LostOps(k, ids);
    assert LastReading(ops, 1, k) == Some(81.0) && Variation(ops, 1, k) == 0.0;
    assert LastReading(ops, 2, k) == Some(76.0) && Variation(ops, 2, k) == 5.0;
    assert LastReading(ops, 3, k) == Some(76.0) && Variation(ops, 3, k) == 5.0;
  }

  lemma LostRun(k: Key, ids: seq<Uuid>)
    ensures RecoversAt(LostOps(k, ids), 1, k) && RecoversAt(LostOps(k, ids), 3, k)
    ensures var s := Run(LostOps(k, ids)[..2]);
            && k in s.episodes && s.episodes[k].status == Resolved
            && k in s.table && s.table[k].status == Word(Active) && s.table[k].threshold == 80
  {
    hide Apply, EffectsOf;
    var ops := LostOps(k, ids);
    RunPrefix(ops, 0);
    RunPrefix(ops, 1);
    RunPrefix(ops, 2);
    OpensAtOnce(k, 600, ids);
    RunIsShaped(ops[..1], k);
    RecoversAtOnce(Run(ops[..1]), k, 10, 600, ids, false);
    ReloadsActive(Run(ops[..2]), k);
    RecoversAtOnce(Run(ops[..3]), k, 20, 600, ids, true);
  }

  lemma StaleRowDoesNotServe(s: Store, k: Key)
    requires k in s.episodes && s.episodes[k].status != Active
    requires k in s.table && s.table[k].status == Word(Active) && 0 <= s.table[k].threshold < 256
    ensures !Serves(s, true, k)
  {
  }

  /** A recovery whose write fails happens again after a restart, without the readings that should lie between. */
  lemma LostWriteRepeatsRecovery(k: Key, ids: seq<Uuid>)
    ensures var ops := LostOps(k, ids);
            && !RestartsServe(ops, k) && FixedLevels(ops, k, 80, 5)
            && RecoversAt(ops, 1, k) && RecoversAt(ops, 3, k)
            && Variation(ops, 4, k) < (2.0 * 2.0 - 1.0) * BandWidth(80, 5)
  {
    hide Serves, RecoversAt, Run, Variation;
    var ops := LostOps(k, ids);
    LostRun(k, ids);
    LostVariation(k, ids);
    StaleRowDoesNotServe(Run(ops[..2]), k);
    assert ops[2] == Restart(true);
  }

  // ---- A purge by two clocks ----

  /** The process runs 400 seconds ahead of the database. */
  function PurgeOps(k: Key, ids: seq<Uuid>): seq<Op> {
    [Stored(k, 81.0, 0, 10000, ids, true), Stored(k, 76.0, 10, 10000, ids, true), Purge(4000, 3600, true),
     Restart(true), Stored(k, 81.0, 4010, 10000, ids, true)]
  }

  lemma PurgedInMemoryOnly(s: Store, k: Key)
    requires k in s.episodes && s.episodes[k].status == Resolved && s.episodes[k].resolvedAt == Some(10)
    requires k in s.table && s.table[k] == RowOf(s.episodes[k])
    ensures var s' := Apply(s, Purge(4000, 3600, true));
            && k !in s'.episodes && k in s'.table && s'.table[k] == s.table[k] && !Serves(s', true, k)
  {
  }

  lemma ReloadedIsNotCooled(s: Store, k: Key, ids: seq<Uuid>)
    requires k !in s.episodes && k in s.table && s.table[k].status == Word(Resolved)
    requires s.table[k].resolvedAt == Some(10) && 0 <= s.table[k].threshold < 256
    ensures !EffectsOf(Apply(s, Restart(true)), Stored(k, 81.0, 4010, 10000, ids, true).ev).notifyOpen
  {
    LevelsCutTheLine(81.0, 80, 5);
  }

  /**
   No write fails and the record is deleted from memory, yet after the restart the recovery is remembered
   and the alert that is due does not open: the restart reads back what memory no longer held.
   */
  lemma PurgedRecoveryComesBack(k: Key, ids: seq<Uuid>)
    ensures var ops := PurgeOps(k, ids);
            && !RestartsServe(ops, k) && RecoversAt(ops, 1, k) && ForgetsAt(ops, 2, k)
            && ops[4].ev.Exceeding() && !OpensAt(ops, 4, k)
  {
    hide Apply, EffectsOf, Serves;
    var ops := PurgeOps(k, ids);
    RunPrefix(ops, 0);
    RunPrefix(ops, 1);
    RunPrefix(ops, 2);
    RunPrefix(ops, 3);
    OpensAtOnce(k, 10000, ids);
    RunIsShaped(ops[..1], k);
    RecoversAtOnce(Run(ops[..1]), k, 10, 10000, ids, true);
    RunIsShaped(ops[..2], k);
    PurgedInMemoryOnly(Run(ops[..2]), k);
    ReloadedIsNotCooled(Run(ops[..3]), k, ids);
    assert ops[3] == Restart(true);
  }

  // ---- A failed transition is not retried ----

  function UnsettledOps(k: Key, ids: seq<Uuid>): seq<Op> {
    [Stored(k, 81.0, 0, 600, ids, true), Flush({}), Stored(k, 76.0, 10, 600, ids, false), Flush({})]
  }

  lemma FlushCleans(s: Store, k: Key)
    requires k in s.episodes && s.episodes[k].key == k && k in s.table
    ensures var s' := Apply(s, Flush({}));
            && k in s'.episodes && s'.episodes[k].status == s.episodes[k].status && s'.episodes[k].key == k
            && !NeedsFlush(s'.episodes[k])
            && k in s'.table
            && s'.table[k] == if NeedsFlush(s.episodes[k]) then RowOf(s.episodes[k]) else s.table[k]
  {
  }

  /** After a recovery whose upsert failed, flushes that work leave the row as it was: open. */
  lemma FailedTransitionIsNotRetried(k: Key, ids: seq<Uuid>)
    ensures var s := Run(UnsettledOps(k, ids));
            && k in s.episodes && s.episodes[k].status == Resolved
            && k in s.table && s.table[k].status == Word(Active)
            && !Settled(s)
  {
    hide Apply;
    var ops := UnsettledOps(k, ids);
    RunPrefix(ops, 0);
    RunPrefix(ops, 1);
    RunPrefix(ops, 2);
    RunPrefix(ops, 3);
    OpensAtOnce(k, 600, ids);
    RunIsShaped(ops[..1], k);
    FlushCleans(Run(ops[..1]), k);
    RecoversAtOnce(Run(ops[..2]), k, 10, 600, ids, false);
    RunIsShaped(ops[..3], k);
    FlushCleans(Run(ops[..3]), k);
    assert ops[..4] == ops;
    assert k in Run(ops).table.Keys + Run(ops).episodes.Keys;
  }
}
