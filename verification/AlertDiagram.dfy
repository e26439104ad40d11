/**
 The state diagram of one alert record, and what it guarantees
 (crates/foims-agent-service/src/alert_episode.rs, module comment and `Episode::step`).

 `NextCourse` is the diagram for one host and metric, without the table, the flags and the counters.
 A trail is the record before every operation of a run; the lemmas hold for every trail that follows
 the diagram, and AlertTheorems.dfy shows that the runtime produces such trails.
 */
module AlertDiagram {
  import opened Wrappers
  import opened AlertEpisode
  import opened AlertRuns

  /** `armed` is the instant the quiet window counts from: the last delivery, while its notifications are known. */
  datatype Course = Course(status: Status, startedAt: int, resolvedAt: Option<int>, armed: Option<int>)

  function EvLevel(ev: Evaluation): Option<Level> {
    if ev.value.None? then None else Some(LevelOf(ev.value.value, ev.threshold, ev.windows.hysteresisPct))
  }

  predicate OverNow(ev: Evaluation) {
    EvLevel(ev) == Some(Over)
  }

  /** The record an excess is counted on: the running one, or a new one from now. */
  function Exceeded(c: Option<Course>, now: int): Course {
    if c.None? then Course(Pending, now, None, None)
    else if c.value.status == Resolved then Course(Pending, now, c.value.resolvedAt, None)
    else c.value
  }

  predicate SustainedAt(c: Course, ev: Evaluation) {
    ev.now - c.startedAt >= AsI64(ev.windows.forSecs)
  }

  predicate CooledAt(c: Course, ev: Evaluation) {
    c.resolvedAt.Some? ==> ev.now - c.resolvedAt.value >= AsI64(ev.windows.cooldownSecs)
  }

  predicate QuietAt(c: Course, ev: Evaluation) {
    c.armed.Some? && ev.now - c.armed.value < AsI64(ev.windows.quietSecs)
  }

  function Rearmed(c: Course, now: int, delivery: Option<seq<Uuid>>): Course {
    if delivery.None? then c
    else c.(armed := if delivery.value == [] then None else Some(now))
  }

  predicate OpensOn(c: Option<Course>, ev: Evaluation) {
    OverNow(ev) && var e := Exceeded(c, ev.now); e.status == Pending && SustainedAt(e, ev) && CooledAt(e, ev)
  }

  predicate ResendsOn(c: Option<Course>, ev: Evaluation) {
    OverNow(ev) && c.Some? && c.value.status == Active && !QuietAt(c.value, ev)
  }

  predicate ResolvesOn(c: Option<Course>, ev: Evaluation) {
    EvLevel(ev) == Some(Under) && c.Some? && c.value.status == Active
  }

  function NextCourse(c: Option<Course>, ev: Evaluation, delivery: Option<seq<Uuid>>): Option<Course> {
    if OpensOn(c, ev) then Some(Rearmed(Exceeded(c, ev.now), ev.now, delivery).(status := Active))
    else if ResendsOn(c, ev) then Some(Rearmed(c.value, ev.now, delivery))
    else if OverNow(ev) then Some(Exceeded(c, ev.now))
    else if ResolvesOn(c, ev) then
      Some(c.value.(status := Resolved, resolvedAt := Some(ev.now),
           armed := if delivery.Some? then None else c.value.armed))
    else if ev.value.Some? && c.Some? && c.value.status == Pending then None
    else c
  }

  // ---- Trails ----

  type Trail = seq<Option<Course>>

  predicate IsActive(c: Option<Course>) {
    c.Some? && c.value.status == Active
  }

  predicate IsPending(c: Option<Course>) {
    c.Some? && c.value.status == Pending
  }

  /** Only an evaluation of `k` moves its record; anything else may forget it, an open alert only by cleanup. */
  predicate Moves(c: Option<Course>, op: Op, c': Option<Course>, k: Key) {
    if Evaluates(op, k) then c' == NextCourse(c, op.ev, op.delivery)
    else c' == c || (c'.None? && (IsActive(c) ==> op.Cleanup?))
  }

  predicate Follows(cs: Trail, ops: seq<Op>, k: Key) {
    && |cs| == |ops| + 1
    && cs[0].None?
    && forall i | 0 <= i < |ops| :: Moves(cs[i], ops[i], cs[i + 1], k)
  }

  predicate Opens(cs: Trail, ops: seq<Op>, i: nat, k: Key)
    requires i < |ops| < |cs|
  {
    Evaluates(ops[i], k) && OpensOn(cs[i], ops[i].ev)
  }

  predicate Resends(cs: Trail, ops: seq<Op>, i: nat, k: Key)
    requires i < |ops| < |cs|
  {
    Evaluates(ops[i], k) && ResendsOn(cs[i], ops[i].ev)
  }

  predicate Recovers(cs: Trail, ops: seq<Op>, i: nat, k: Key)
    requires i < |ops| < |cs|
  {
    Evaluates(ops[i], k) && ResolvesOn(cs[i], ops[i].ev)
  }

  predicate Forgets(cs: Trail, i: nat)
    requires i + 1 < |cs|
  {
    cs[i].Some? && cs[i + 1].None?
  }

  /** Evaluations of `k` come in the order of their clock readings. */
  predicate Monotone(ops: seq<Op>, k: Key) {
    forall i, j | 0 <= i < j < |ops| && Evaluates(ops[i], k) && Evaluates(ops[j], k) :: ops[i].ev.now <= ops[j].ev.now
  }

  // ---- Alerts open only on sustained excess ----

  /** From operation `j` on, and before `i`, every reading of `k` was above the threshold it was held against. */
  predicate Unbroken(ops: seq<Op>, j: nat, i: nat, k: Key)
    requires i <= |ops|
  {
    && j < i
    && Evaluates(ops[j], k) && ops[j].ev.Exceeding()
    && forall x | j <= x < i && Evaluates(ops[x], k) && ops[x].ev.value.Some? :: ops[x].ev.Exceeding()
  }

  lemma {:induction false} PendingIsUnbroken(cs: Trail, ops: seq<Op>, i: nat, k: Key) returns (j: nat)
    requires Follows(cs, ops, k) && i <= |ops| && IsPending(cs[i])
    ensures Unbroken(ops, j, i, k) && ops[j].ev.now == cs[i].value.startedAt
  {
    assert Moves(cs[i - 1], ops[i - 1], cs[i], k);
    if IsPending(cs[i - 1]) {
      j := PendingIsUnbroken(cs, ops, i - 1, k);
    } else {
      j := i - 1;
    }
  }

  lemma OpeningIsSustained(cs: Trail, ops: seq<Op>, i: nat, k: Key) returns (j: nat)
    requires Follows(cs, ops, k) && i < |ops| && Opens(cs, ops, i, k)
    ensures Unbroken(ops, j, i + 1, k)
    ensures ops[j].ev.now <= ops[i].ev.now - AsI64(ops[i].ev.windows.forSecs)
  {
    if IsPending(cs[i]) {
      j := PendingIsUnbroken(cs, ops, i, k);
    } else {
      j := i;
    }
  }

  // ---- An alert opens once ----

  lemma {:induction false} StaysActive(cs: Trail, ops: seq<Op>, i: nat, j: nat, k: Key)
    requires Follows(cs, ops, k) && i < j <= |ops| && IsActive(cs[i + 1])
    requires forall x | i < x < j :: !Recovers(cs, ops, x, k) && !(ops[x].Cleanup? && Forgets(cs, x))
    ensures IsActive(cs[j])
  {
    if i + 1 < j {
      StaysActive(cs, ops, i, j - 1, k);
      assert Moves(cs[j - 1], ops[j - 1], cs[j], k);
    }
  }

  lemma OpeningsAlternate(cs: Trail, ops: seq<Op>, i: nat, j: nat, k: Key)
    requires Follows(cs, ops, k) && i < j < |ops| && Opens(cs, ops, i, k) && Opens(cs, ops, j, k)
    ensures exists x | i < x < j :: Recovers(cs, ops, x, k) || (ops[x].Cleanup? && Forgets(cs, x))
  {
    assert Moves(cs[i], ops[i], cs[i + 1], k);
    if forall x | i < x < j :: !Recovers(cs, ops, x, k) && !(ops[x].Cleanup? && Forgets(cs, x)) {
      StaysActive(cs, ops, i, j, k);
    }
  }

  // ---- The cooldown ----

  /** When `k` last recovered, as far as its record reaches back. */
  function LastRecovery(cs: Trail, ops: seq<Op>, i: nat, k: Key): Option<int>
    requires i <= |ops| < |cs|
  {
    if i == 0 || cs[i].None? then None
    else if Recovers(cs, ops, i - 1, k) then Some(ops[i - 1].ev.now)
    else LastRecovery(cs, ops, i - 1, k)
  }

  lemma {:induction false} RecordKeepsLastRecovery(cs: Trail, ops: seq<Op>, i: nat, k: Key)
    requires Follows(cs, ops, k) && i <= |ops| && cs[i].Some?
    ensures cs[i].value.resolvedAt == LastRecovery(cs, ops, i, k)
  {
    assert Moves(cs[i - 1], ops[i - 1], cs[i], k);
    if cs[i - 1].Some? {
      RecordKeepsLastRecovery(cs, ops, i - 1, k);
    }
  }

  /** Whether the record was deleted after operation `i` and before `j`: dissolved, purged, cleaned or lost. */
  predicate ForgottenBetween(cs: Trail, i: nat, j: nat)
    requires j < |cs|
  {
    exists x | i < x < j :: Forgets(cs, x)
  }

  lemma {:induction false} LastRecoverySince(cs: Trail, ops: seq<Op>, i: nat, j: nat, k: Key)
    requires Follows(cs, ops, k) && i < j <= |ops| && Recovers(cs, ops, i, k)
    requires forall x | i < x < j :: !Recovers(cs, ops, x, k)
    ensures LastRecovery(cs, ops, j, k) == if ForgottenBetween(cs, i, j) then None else Some(ops[i].ev.now)
    ensures !ForgottenBetween(cs, i, j) ==> cs[j].Some?
  {
    if i + 1 == j {
      assert Moves(cs[i], ops[i], cs[j], k);
    } else {
      LastRecoverySince(cs, ops, i, j - 1, k);
      assert ForgottenBetween(cs, i, j) <==> ForgottenBetween(cs, i, j - 1) || Forgets(cs, j - 1);
    }
  }

  lemma CooldownDecides(cs: Trail, ops: seq<Op>, i: nat, j: nat, k: Key)
    requires Follows(cs, ops, k) && i < j < |ops| && Recovers(cs, ops, i, k)
    requires forall x | i < x < j :: !Recovers(cs, ops, x, k)
    requires Evaluates(ops[j], k) && OverNow(ops[j].ev) && !IsActive(cs[j])
    requires SustainedAt(Exceeded(cs[j], ops[j].ev.now), ops[j].ev)
    ensures Opens(cs, ops, j, k) <==>
            ForgottenBetween(cs, i, j) || ops[j].ev.now - ops[i].ev.now >= AsI64(ops[j].ev.windows.cooldownSecs)
  {
    LastRecoverySince(cs, ops, i, j, k);
    if cs[j].Some? {
      RecordKeepsLastRecovery(cs, ops, j, k);
    }
  }

  lemma {:induction false} LastRecoveryBefore(cs: Trail, ops: seq<Op>, i: nat, j: nat, k: Key) returns (r: nat)
    requires i < j <= |ops| < |cs| && Recovers(cs, ops, i, k)
    ensures i <= r < j && Recovers(cs, ops, r, k) && forall x | r < x < j :: !Recovers(cs, ops, x, k)
    decreases j
  {
    if Recovers(cs, ops, j - 1, k) {
      r := j - 1;
    } else {
      r := LastRecoveryBefore(cs, ops, i, j - 1, k);
    }
  }

  lemma CooldownKept(cs: Trail, ops: seq<Op>, i: nat, j: nat, k: Key)
    requires Follows(cs, ops, k) && Monotone(ops, k) && i < j < |ops|
    requires Recovers(cs, ops, i, k) && Opens(cs, ops, j, k) && !ForgottenBetween(cs, i, j)
    ensures ops[j].ev.now - ops[i].ev.now >= AsI64(ops[j].ev.windows.cooldownSecs)
  {
    var r := LastRecoveryBefore(cs, ops, i, j, k);
    LastRecoverySince(cs, ops, r, j, k);
    RecordKeepsLastRecovery(cs, ops, j, k);
  }

  // ---- How often notifications are sent ----

  predicate Notifies(cs: Trail, ops: seq<Op>, i: nat, k: Key)
    requires i < |ops| < |cs|
  {
    Opens(cs, ops, i, k) || Resends(cs, ops, i, k)
  }

  /** Every delivery for `k` reaches somebody. */
  predicate SendsOk(ops: seq<Op>, k: Key) {
    forall i | 0 <= i < |ops| && Evaluates(ops[i], k) :: ops[i].delivery.Some? && ops[i].delivery.value != []
  }

  /** Both windows are at least `m`, and below 2^63, from where on they would count as negative. */
  predicate WindowsAtLeast(ops: seq<Op>, k: Key, m: int) {
    forall i | 0 <= i < |ops| && Evaluates(ops[i], k) ::
      var w := ops[i].ev.windows;
      m <= w.quietSecs < 0x8000_0000_0000_0000 && m <= w.forSecs < 0x8000_0000_0000_0000
  }

  /** The instants at which the first `i` operations open or resend an alert for `k`. */
  function Notices(cs: Trail, ops: seq<Op>, i: nat, k: Key): seq<int>
    requires i <= |ops| < |cs|
  {
    if i == 0 then []
    else Notices(cs, ops, i - 1, k) + if Notifies(cs, ops, i - 1, k) then [ops[i - 1].ev.now] else []
  }

  function Last(xs: seq<int>): int
    requires xs != []
  {
    xs[|xs| - 1]
  }

  lemma {:induction false} NoticesArePast(cs: Trail, ops: seq<Op>, i: nat, j: nat, k: Key)
    requires Monotone(ops, k) && i <= j < |ops| < |cs| && Evaluates(ops[j], k)
    ensures Notices(cs, ops, i, k) != [] ==> Last(Notices(cs, ops, i, k)) <= ops[j].ev.now
  {
    if i == 0 {
    } else {
      NoticesArePast(cs, ops, i - 1, j, k);
    }
  }

  /** What the record knows of the last notice: its instant while open, a later start while pending. */
  predicate RemembersNotice(c: Option<Course>, notices: seq<int>) {
    && (IsActive(c) ==> notices != [] && c.value.armed == Some(Last(notices)))
    && (IsPending(c) && notices != [] ==> c.value.startedAt >= Last(notices))
  }

  /** One evaluation whose delivery reaches somebody keeps what the record knows. */
  lemma NoticeKept(c: Option<Course>, ev: Evaluation, delivery: Option<seq<Uuid>>, notices: seq<int>)
    requires RemembersNotice(c, notices) && (notices != [] ==> Last(notices) <= ev.now)
    requires delivery.Some? && delivery.value != []
    ensures RemembersNotice(NextCourse(c, ev, delivery),
                            notices + if OpensOn(c, ev) || ResendsOn(c, ev) then [ev.now] else [])
  {
  }

  lemma {:induction false} NoticeRemembered(cs: Trail, ops: seq<Op>, i: nat, k: Key)
    requires Follows(cs, ops, k) && Monotone(ops, k) && SendsOk(ops, k) && i <= |ops|
    ensures RemembersNotice(cs[i], Notices(cs, ops, i, k))
  {
    if i == 0 {
    } else {
      NoticeRemembered(cs, ops, i - 1, k);
      assert Moves(cs[i - 1], ops[i - 1], cs[i], k);
      var notices := Notices(cs, ops, i - 1, k);
      if Evaluates(ops[i - 1], k) {
        NoticesArePast(cs, ops, i - 1, i - 1, k);
        NoticeKept(cs[i - 1], ops[i - 1].ev, ops[i - 1].delivery, notices);
      } else {
        assert Notices(cs, ops, i, k) == notices;
      }
    }
  }

  predicate Spaced(xs: seq<int>, m: int) {
    forall i | 0 <= i < |xs| - 1 :: xs[i + 1] - xs[i] >= m
  }

  lemma {:induction false} NoticesAreSpaced(cs: Trail, ops: seq<Op>, i: nat, k: Key, m: int)
    requires Follows(cs, ops, k) && Monotone(ops, k) && SendsOk(ops, k) && WindowsAtLeast(ops, k, m) && i <= |ops|
    ensures Spaced(Notices(cs, ops, i, k), m)
  {
    if i == 0 {
    } else {
      NoticesAreSpaced(cs, ops, i - 1, k, m);
      NoticeRemembered(cs, ops, i - 1, k);
      if Notifies(cs, ops, i - 1, k) {
        NoticesArePast(cs, ops, i - 1, i - 1, k);
      }
    }
  }

  lemma {:induction false} SpacedFar(xs: seq<int>, m: int, a: nat, b: nat)
    requires Spaced(xs, m) && a <= b < |xs|
    ensures xs[b] - xs[a] >= (b - a) * m
  {
    if a < b {
      SpacedFar(xs, m, a, b - 1);
      assert (b - a) * m == (b - 1 - a) * m + m;
    }
  }

  /** The notices after the first `i` operations are all at least `m` after an earlier one. */
  lemma {:induction false} NoticesOfPair(cs: Trail, ops: seq<Op>, i: nat, j: nat, k: Key, m: int)
    requires Follows(cs, ops, k) && Monotone(ops, k) && SendsOk(ops, k) && WindowsAtLeast(ops, k, m)
    requires i < j < |ops| && Notifies(cs, ops, i, k) && Notifies(cs, ops, j, k)
    ensures ops[j].ev.now - ops[i].ev.now >= m
  {
    NoticeSurvives(cs, ops, i, j, k);
    NoticesAreSpaced(cs, ops, j + 1, k, m);
    var n := |Notices(cs, ops, j, k)|;
    var notices := Notices(cs, ops, j + 1, k);
    assert notices[n - 1] == Last(Notices(cs, ops, j, k)) && notices[n - 1 + 1] == ops[j].ev.now;
  }

  lemma {:induction false} NoticeSurvives(cs: Trail, ops: seq<Op>, i: nat, j: nat, k: Key)
    requires Monotone(ops, k) && i < j <= |ops| < |cs| && Notifies(cs, ops, i, k)
    ensures Notices(cs, ops, j, k) != [] && Last(Notices(cs, ops, j, k)) >= ops[i].ev.now
  {
    if i + 1 < j {
      NoticeSurvives(cs, ops, i, j - 1, k);
    }
  }

  lemma MulMonotone(a: int, b: int, m: int)
    ensures m > 0 && a <= b ==> a * m <= b * m
  {
  }

  lemma DivAtLeast(x: int, m: int, n: int)
    requires m > 0 && x >= n * m
    ensures x / m >= n
  {
    var q := x / m;
    MulMonotone(q + 1, n, m);
    assert (q + 1) * m == q * m + m;
  }

  // ---- Hysteresis against flapping ----

  function Recoveries(cs: Trail, ops: seq<Op>, i: nat, k: Key): nat
    requires i <= |ops| < |cs|
  {
    if i == 0 then 0 else Recoveries(cs, ops, i - 1, k) + if Recovers(cs, ops, i - 1, k) then 1 else 0
  }

  predicate Reads(op: Op, k: Key) {
    Evaluates(op, k) && op.ev.value.Some?
  }

  function LastReading(ops: seq<Op>, i: nat, k: Key): Option<real>
    requires i <= |ops|
  {
    if i == 0 then None
    else if Reads(ops[i - 1], k) then ops[i - 1].ev.value
    else LastReading(ops, i - 1, k)
  }

  function Abs(x: real): real {
    if x < 0.0 then -x else x
  }

  /** The total variation of the readings of `k`: how far they travelled up and down. */
  function Variation(ops: seq<Op>, i: nat, k: Key): real
    requires i <= |ops|
  {
    if i == 0 then 0.0
    else
      Variation(ops, i - 1, k)
      + if Reads(ops[i - 1], k) && LastReading(ops, i - 1, k).Some?
        then Abs(ops[i - 1].ev.value.value - LastReading(ops, i - 1, k).value) else 0.0
  }

  predicate FixedLevels(ops: seq<Op>, k: Key, threshold: Byte, hysteresisPct: Byte) {
    forall i | 0 <= i < |ops| && Evaluates(ops[i], k) ::
      ops[i].ev.threshold == threshold && ops[i].ev.windows.hysteresisPct == hysteresisPct
  }

  /** The travel already made, given that `twice` is two bands for every recovery so far. */
  predicate Travelled(n: nat, active: bool, travel: real, reading: Option<real>, twice: real, t: real, band: real) {
    && travel >= 0.0
    && (active || n > 0 ==> reading.Some?)
    && (active && n == 0 ==> travel >= t - reading.value)
    && (active && n > 0 ==> travel >= twice + Abs(reading.value - t))
    && (!active && n > 0 ==> travel >= twice - band + Abs(reading.value - (t - band)))
  }

  lemma TravelReads(n: nat, active: bool, travel: real, last: Option<real>, twice: real, t: real, band: real,
                    v: real, active': bool, resolves: bool)
    requires Travelled(n, active, travel, last, twice, t, band) && band >= 0.0 && (n == 0 ==> twice == 0.0)
    requires resolves ==> active && !active' && v <= t - band
    requires active && !active' ==> resolves
    requires !active && active' ==> v > t
    ensures Travelled(if resolves then n + 1 else n, active', travel + if last.Some? then Abs(v - last.value) else 0.0,
                      Some(v), if resolves then twice + 2.0 * band else twice, t, band)
  {
  }

  lemma TravelForgets(n: nat, active: bool, travel: real, last: Option<real>, twice: real, t: real, band: real)
    requires Travelled(n, active, travel, last, twice, t, band) && band >= 0.0
    ensures Travelled(n, false, travel, last, twice, t, band)
  {
  }

  /** Two band widths for every recovery among the first `i` operations. */
  function TwoBands(cs: Trail, ops: seq<Op>, i: nat, k: Key, band: real): real
    requires i <= |ops| < |cs|
  {
    if i == 0 then 0.0
    else TwoBands(cs, ops, i - 1, k, band) + if Recovers(cs, ops, i - 1, k) then 2.0 * band else 0.0
  }

  lemma TwoBandsMore(n: real, band: real)
    ensures 2.0 * (n + 1.0) * band == 2.0 * n * band + 2.0 * band
  {
  }

  lemma {:induction false} TwoBandsCount(cs: Trail, ops: seq<Op>, i: nat, k: Key, band: real)
    requires i <= |ops| < |cs|
    ensures TwoBands(cs, ops, i, k, band) == 2.0 * Recoveries(cs, ops, i, k) as real * band
  {
    if i == 0 {
    } else {
      TwoBandsCount(cs, ops, i - 1, k, band);
      TwoBandsMore(Recoveries(cs, ops, i - 1, k) as real, band);
    }
  }

  ghost predicate TravelledAt(cs: Trail, ops: seq<Op>, i: nat, k: Key, t: real, band: real)
    requires i <= |ops| < |cs|
  {
    var n := Recoveries(cs, ops, i, k);
    && Travelled(n, IsActive(cs[i]), Variation(ops, i, k), LastReading(ops, i, k),
                 TwoBands(cs, ops, i, k, band), t, band)
    && (n == 0 ==> TwoBands(cs, ops, i, k, band) == 0.0)
  }

  lemma NothingTravelled(t: real, band: real)
    ensures Travelled(0, false, 0.0, None, 0.0, t, band)
  {
  }

  lemma {:induction false} TravelSoFar(cs: Trail, ops: seq<Op>, i: nat, k: Key, threshold: Byte, hysteresisPct: Byte)
    requires Follows(cs, ops, k) && FixedLevels(ops, k, threshold, hysteresisPct) && i <= |ops|
    ensures TravelledAt(cs, ops, i, k, threshold as real, BandWidth(threshold, hysteresisPct))
  {
    hide Travelled;
    var t, band := threshold as real, BandWidth(threshold, hysteresisPct);
    LevelsCutTheLine(t, threshold, hysteresisPct);
    if i == 0 {
      NothingTravelled(t, band);
    } else {
      var j := i - 1;
      TravelSoFar(cs, ops, j, k, threshold, hysteresisPct);
      assert Moves(cs[j], ops[j], cs[i], k);
      if Reads(ops[j], k) {
        var v := ops[j].ev.value.value;
        LevelsCutTheLine(v, threshold, hysteresisPct);
        TravelReads(Recoveries(cs, ops, j, k), IsActive(cs[j]), Variation(ops, j, k), LastReading(ops, j, k),
                    TwoBands(cs, ops, j, k, band), t, band, v, IsActive(cs[i]), Recovers(cs, ops, j, k));
      } else {
        TravelForgets(Recoveries(cs, ops, j, k), IsActive(cs[j]), Variation(ops, j, k), LastReading(ops, j, k),
                      TwoBands(cs, ops, j, k, band), t, band);
      }
    }
  }

  lemma OneBandLess(n: real, band: real)
    ensures (2.0 * n - 1.0) * band == 2.0 * n * band - band
  {
  }

  lemma BandsOfRecoveries(cs: Trail, ops: seq<Op>, i: nat, k: Key, band: real)
    requires i <= |ops| < |cs|
    ensures (2.0 * Recoveries(cs, ops, i, k) as real - 1.0) * band == TwoBands(cs, ops, i, k, band) - band
  {
    TwoBandsCount(cs, ops, i, k, band);
    OneBandLess(Recoveries(cs, ops, i, k) as real, band);
  }

  lemma TravelledEnough(n: nat, active: bool, travel: real, last: Option<real>, twice: real, t: real, band: real)
    requires Travelled(n, active, travel, last, twice, t, band) && band >= 0.0 && n > 0
    ensures travel >= twice - band
  {
  }

  lemma TravelBound(cs: Trail, ops: seq<Op>, k: Key, threshold: Byte, hysteresisPct: Byte)
    requires Follows(cs, ops, k) && FixedLevels(ops, k, threshold, hysteresisPct)
    requires Recoveries(cs, ops, |ops|, k) >= 1
    ensures var band := BandWidth(threshold, hysteresisPct);
            Variation(ops, |ops|, k) >= TwoBands(cs, ops, |ops|, k, band) - band
  {
    var t, band := threshold as real, BandWidth(threshold, hysteresisPct);
    TravelSoFar(cs, ops, |ops|, k, threshold, hysteresisPct);
    LevelsCutTheLine(t, threshold, hysteresisPct);
    TravelledEnough(Recoveries(cs, ops, |ops|, k), IsActive(cs[|ops|]), Variation(ops, |ops|, k),
                    LastReading(ops, |ops|, k), TwoBands(cs, ops, |ops|, k, band), t, band);
  }

  lemma FlappingTravels(cs: Trail, ops: seq<Op>, k: Key, threshold: Byte, hysteresisPct: Byte)
    requires Follows(cs, ops, k) && FixedLevels(ops, k, threshold, hysteresisPct)
    requires Recoveries(cs, ops, |ops|, k) >= 1
    ensures Variation(ops, |ops|, k)
         >= (2.0 * Recoveries(cs, ops, |ops|, k) as real - 1.0) * BandWidth(threshold, hysteresisPct)
  {
    TravelBound(cs, ops, k, threshold, hysteresisPct);
    BandsOfRecoveries(cs, ops, |ops|, k, BandWidth(threshold, hysteresisPct));
  }
}
