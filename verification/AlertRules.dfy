/**
 The rules of one evaluation, in numbers (crates/foims-agent-service/src/alert_episode.rs, `Episode::step`
 and `apply_effects`).

 Each lemma speaks about an evaluation at any point of any run, whatever writes have failed before and
 whenever the process was restarted: what memory holds of a host and metric decides what is sent, what
 memory holds afterwards and what is written.
 */
module AlertRules {
  import opened Wrappers
  import opened AlertEpisode
  import opened AlertRuns
  import opened AlertDiagram
  import opened AlertTheorems

  /** Whether operation `i` of the run refreshes the notifications of an open alert of `k`. */
  predicate RefreshesAt(ops: seq<Op>, i: nat, k: Key)
    requires i < |ops|
  {
    Evaluates(ops[i], k) && EffectsOf(Run(ops[..i]), ops[i].ev).refresh
  }

  /**
   An alert opens exactly when a reading above the threshold comes, none is open, the sustain time has
   passed since the Pending began, be it now, and the cooldown has passed since the recovery on record.
   */
  lemma OpensIff(ops: seq<Op>, i: nat, k: Key)
    requires i < |ops| && Evaluates(ops[i], k)
    ensures var was, ev := Run(ops[..i]).episodes, ops[i].ev;
            var n, m := ev.windows.forSecs, ev.windows.cooldownSecs;
            OpensAt(ops, i, k) <==>
            && ev.value.Some? && ev.value.value > ev.threshold as real
            && (k in was ==> was[k].status != Active)
            && (if k in was && was[k].status == Pending then ev.now - was[k].startedAt else 0)
               >= (if n < 0x8000_0000_0000_0000 then n else n - 0x1_0000_0000_0000_0000)
            && (k in was && was[k].resolvedAt.Some? ==>
                  ev.now - was[k].resolvedAt.value
                  >= if m < 0x8000_0000_0000_0000 then m else m - 0x1_0000_0000_0000_0000)
  {
  }

  /** An open alert seen again is sent again when its last notification is quiet_secs old or there is none. */
  lemma ResendsIff(ops: seq<Op>, i: nat, k: Key)
    requires i < |ops| && Evaluates(ops[i], k)
    ensures var was, ev := Run(ops[..i]).episodes, ops[i].ev;
            var n := ev.windows.quietSecs;
            ResendsAt(ops, i, k) <==>
            && ev.value.Some? && ev.value.value > ev.threshold as real
            && k in was && was[k].status == Active
            && (|| was[k].lastNotifiedAt == None
                || was[k].notifyIds == []
                || ev.now - was[k].lastNotifiedAt.value
                   >= if n < 0x8000_0000_0000_0000 then n else n - 0x1_0000_0000_0000_0000)
  {
  }

  /** Otherwise its notifications are refreshed, but not within 60 seconds of the last refresh. */
  lemma RefreshesIff(ops: seq<Op>, i: nat, k: Key)
    requires i < |ops| && Evaluates(ops[i], k)
    ensures var was, ev := Run(ops[..i]).episodes, ops[i].ev;
            RefreshesAt(ops, i, k) <==>
            && ev.value.Some? && ev.value.value > ev.threshold as real
            && k in was && was[k].status == Active && !ResendsAt(ops, i, k)
            && (was[k].lastRefreshAt == None || ev.now - was[k].lastRefreshAt.value >= 60)
  {
  }

  /** An open alert recovers exactly when a reading is `hysteresisPct` percent below the threshold, or lower. */
  lemma RecoversIff(ops: seq<Op>, i: nat, k: Key)
    requires i < |ops| && Evaluates(ops[i], k)
    ensures var was, ev := Run(ops[..i]).episodes, ops[i].ev;
            RecoversAt(ops, i, k) <==>
            && ev.value.Some?
            && ev.value.value <= ev.threshold as real - ev.threshold as real * ev.windows.hysteresisPct as real / 100.0
            && k in was && was[k].status == Active
  {
    var ev := ops[i].ev;
    if ev.value.Some? {
      LevelsCutTheLine(ev.value.value, ev.threshold, ev.windows.hysteresisPct);
    }
  }

  lemma OneMore(ops: seq<Op>, i: nat)
    requires i < |ops|
    ensures Run(ops[..i + 1]) == Apply(Run(ops[..i]), ops[i])
  {
    assert ops[..i + 1][..i] == ops[..i];
  }

  // ---- What an evaluation leaves in memory ----

  /**
   A reading above the threshold is counted, on a new record if there is none or the last one has
   recovered; a delivery that works leaves its ids and its instant.
   */
  lemma ExcessLeaves(ops: seq<Op>, i: nat, k: Key)
    requires i < |ops| && Evaluates(ops[i], k)
    requires ops[i].ev.value.Some? && ops[i].ev.value.value > ops[i].ev.threshold as real
    ensures var was, after, ev := Run(ops[..i]).episodes, Run(ops[..i + 1]).episodes, ops[i].ev;
            var runs := k in was && was[k].status != Resolved;
            var notified := (OpensAt(ops, i, k) || ResendsAt(ops, i, k)) && ops[i].delivery.Some?;
            && k in after
            && after[k] == EpisodeState(
                 key := k,
                 status := if OpensAt(ops, i, k) || (runs && was[k].status == Active) then Active else Pending,
                 startedAt := if runs then was[k].startedAt else ev.now,
                 openedAt := if OpensAt(ops, i, k) then Some(ev.now) else if runs then was[k].openedAt else None,
                 resolvedAt := if k in was then was[k].resolvedAt else None,
                 lastExceedAt := ev.now,
                 lastNotifiedAt := if notified then Some(ev.now) else if runs then was[k].lastNotifiedAt else None,
                 lastRefreshAt :=
                   if RefreshesAt(ops, i, k) then Some(ev.now) else if runs then was[k].lastRefreshAt else None,
                 lastValue := ev.value.value,
                 threshold := ev.threshold,
                 exceedCount := if runs then was[k].exceedCount + 1 else 1,
                 notifyIds := if notified then ops[i].delivery.value else if runs then was[k].notifyIds else [],
                 persisted := (k in was && was[k].persisted) || OpensAt(ops, i, k) || ResendsAt(ops, i, k)
                   || (k in was && was[k].threshold != ev.threshold && !RefreshesAt(ops, i, k)),
                 dirty := k in was && was[k].status == Resolved ==> was[k].dirty)
  {
    hide Run;
    RunIsShaped(ops[..i], k);
    OneMore(ops, i);
  }

  /** A recovery ends the alert, and its notifications once the delivery works. */
  lemma RecoveryLeaves(ops: seq<Op>, i: nat, k: Key)
    requires i < |ops| && RecoversAt(ops, i, k)
    ensures var was, after, ev := Run(ops[..i]).episodes, Run(ops[..i + 1]).episodes, ops[i].ev;
            && k in was && k in after
            && after[k] == was[k].(status := Resolved, resolvedAt := Some(ev.now), threshold := ev.threshold,
                                   notifyIds := if ops[i].delivery.Some? then [] else was[k].notifyIds)
  {
    hide Run;
    RunIsShaped(ops[..i], k);
    OneMore(ops, i);
  }

  /** Any other evaluation dissolves a Pending that it finds not above its threshold, and keeps the rest. */
  lemma OthersLeave(ops: seq<Op>, i: nat, k: Key)
    requires i < |ops| && Evaluates(ops[i], k) && !RecoversAt(ops, i, k)
    requires ops[i].ev.value.Some? ==> ops[i].ev.value.value <= ops[i].ev.threshold as real
    ensures var was, after, ev := Run(ops[..i]).episodes, Run(ops[..i + 1]).episodes, ops[i].ev;
            && (k in after <==> k in was && (ev.value.Some? ==> was[k].status != Pending))
            && (k in after ==> after[k] == was[k].(threshold := ev.threshold,
                                                   persisted := was[k].persisted || was[k].threshold != ev.threshold))
  {
    hide Run;
    RunIsShaped(ops[..i], k);
    OneMore(ops, i);
  }

  // ---- What it writes ----

  /**
   The row is deleted with a written Pending; it is written when an alert opens, is sent again or recovers,
   when a record starts over, and, unless a refresh comes before, when the threshold is another one.
   */
  lemma RowAfter(ops: seq<Op>, i: nat, k: Key)
    requires i < |ops| && Evaluates(ops[i], k)
    ensures var was, after, ev := Run(ops[..i]).episodes, Run(ops[..i + 1]).episodes, ops[i].ev;
            var rows, rows' := Run(ops[..i]).table, Run(ops[..i + 1]).table;
            var over := ev.value.Some? && ev.value.value > ev.threshold as real;
            if k in was && was[k].status == Pending && ev.value.Some? && !over then
              if was[k].persisted && ops[i].writeOk then k !in rows' else Same(rows, rows', k)
            else if (|| OpensAt(ops, i, k) || ResendsAt(ops, i, k) || RecoversAt(ops, i, k)
                     || (k in was && was[k].status == Resolved && over)
                     || (k in was && was[k].threshold != ev.threshold && !RefreshesAt(ops, i, k)))
                    && ops[i].writeOk then
              && k in after && k in rows'
              && var e := after[k];
                 rows'[k] == EpisodeRow(
                   status := Word(e.status), startedAt := e.startedAt, openedAt := e.openedAt,
                   resolvedAt := e.resolvedAt, lastExceedAt := e.lastExceedAt, lastNotifiedAt := e.lastNotifiedAt,
                   lastValue := Some(e.lastValue), threshold := e.threshold, exceedCount := e.exceedCount,
                   notifyIds := JoinIds(e.notifyIds))
            else Same(rows, rows', k)
  {
    hide Run;
    RunIsShaped(ops[..i], k);
    OneMore(ops, i);
  }

  predicate Same<T(==)>(before: map<Key, T>, after: map<Key, T>, k: Key) {
    (k in after <==> k in before) && (k in after ==> after[k] == before[k])
  }

  /** An evaluation leaves every other host and metric alone. */
  lemma OthersUntouched(ops: seq<Op>, i: nat, k: Key)
    requires i < |ops| && ops[i].Evaluate? && ops[i].ev.key != k
    ensures Same(Run(ops[..i]).episodes, Run(ops[..i + 1]).episodes, k)
    ensures Same(Run(ops[..i]).table, Run(ops[..i + 1]).table, k)
  {
    OneMore(ops, i);
  }

  // ---- Refreshes of one alert ----

  /** What the record of an open alert knows of a refresh at `since`. */
  predicate RefreshedSince(s: Store, k: Key, since: int) {
    && k in s.episodes && s.episodes[k].status == Active
    && s.episodes[k].lastRefreshAt.Some? && s.episodes[k].lastRefreshAt.value >= since
  }

  lemma RefreshKept(ops: seq<Op>, i: nat, k: Key, since: int)
    requires i < |ops| && RefreshedSince(Run(ops[..i]), k, since)
    requires !ops[i].Restart? && !RecoversAt(ops, i, k) && !ForgetsAt(ops, i, k)
    requires Evaluates(ops[i], k) ==> ops[i].ev.now >= since
    ensures RefreshedSince(Run(ops[..i + 1]), k, since)
  {
    OneMore(ops, i);
    if Evaluates(ops[i], k) {
      if ops[i].ev.value.Some? && ops[i].ev.value.value > ops[i].ev.threshold as real {
        ExcessLeaves(ops, i, k);
      } else {
        OthersLeave(ops, i, k);
      }
    } else if ops[i].Evaluate? {
      OthersUntouched(ops, i, k);
    }
  }

  lemma {:induction false} RefreshRemembered(ops: seq<Op>, i: nat, j: nat, k: Key)
    requires i < j <= |ops| && Monotone(ops, k) && RefreshesAt(ops, i, k)
    requires forall x | i < x < j :: !ops[x].Restart? && !RecoversAt(ops, x, k) && !ForgetsAt(ops, x, k)
    ensures RefreshedSince(Run(ops[..j]), k, ops[i].ev.now)
  {
    hide Run, Apply, RefreshedSince, RecoversAt, ForgetsAt;
    if i + 1 == j {
      RefreshBegins(ops, i, k);
    } else {
      RefreshRemembered(ops, i, j - 1, k);
      RefreshKept(ops, j - 1, k, ops[i].ev.now);
    }
  }

  lemma RefreshBegins(ops: seq<Op>, i: nat, k: Key)
    requires i < |ops| && RefreshesAt(ops, i, k)
    ensures RefreshedSince(Run(ops[..i + 1]), k, ops[i].ev.now)
  {
    RefreshesIff(ops, i, k);
    ExcessLeaves(ops, i, k);
  }

  /** While an alert stays open and the process runs, its notifications are refreshed at most once in 60 seconds. */
  lemma RefreshesApart(ops: seq<Op>, i: nat, j: nat, k: Key)
    requires i < j < |ops| && Monotone(ops, k) && RefreshesAt(ops, i, k) && RefreshesAt(ops, j, k)
    requires forall x | i < x < j :: !ops[x].Restart? && !RecoversAt(ops, x, k) && !ForgetsAt(ops, x, k)
    ensures ops[j].ev.now - ops[i].ev.now >= 60
  {
    RefreshRemembered(ops, i, j, k);
    RefreshesIff(ops, j, k);
  }
}
