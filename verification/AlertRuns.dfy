/**
 Whole runs of the alert runtime (crates/foims-agent-service/src/alert_episode.rs).

 A run is a sequence of operations, each one atomic step, in any order and starting from an empty
 store; `Replay` carries a run out with the methods of `AlertRuntime`. A property of a run speaks
 about one host and metric, `k`, and lets everything else happen around it.
 */
module AlertRuns {
  import opened Wrappers
  import opened AlertEpisode

  datatype Op =
    | Evaluate(ev: Evaluation, delivery: Option<seq<Uuid>>, writeOk: bool)
    | Flush(failed: set<Key>)
    | Cleanup(active: Option<set<Uuid>>, deleteFails: set<Key>)
    | Purge(now: int, tableNow: int, deleteOk: bool)
    | Restart(readOk: bool)

  function Apply(s: Store, op: Op): Store {
    match op
    case Evaluate(ev, delivery, writeOk) => Evaluated(s, ev, delivery, writeOk)
    case Flush(failed) => Flushed(s, failed)
    case Cleanup(active, deleteFails) => Cleaned(s, active, deleteFails)
    case Purge(now, tableNow, deleteOk) => Purged(s, now, tableNow, deleteOk)
    case Restart(readOk) => Hydrated(Store(map[], s.table), readOk)
  }

  function Run(ops: seq<Op>): Store {
    if ops == [] then Store(map[], map[]) else Apply(Run(ops[..|ops| - 1]), ops[|ops| - 1])
  }

  predicate Evaluates(op: Op, k: Key) {
    op.Evaluate? && op.ev.key == k
  }

  // ---- What one step does, field by field ----

  /** A step never touches the key or the persisted flag. */
  lemma AdvancedKeepsIdentity(e: EpisodeState, value: Option<real>, threshold: Byte, w: Windows, now: int)
    ensures var e' := Advanced(e, value, threshold, w, now).0; e'.key == e.key && e'.persisted == e.persisted
  {
  }

  lemma StepKeepsIdentity(s: Store, ev: Evaluation)
    ensures var e' := StepOf(s, ev).0;
            if ev.key in s.episodes
            then e'.key == s.episodes[ev.key].key && e'.persisted == s.episodes[ev.key].persisted
            else e'.key == ev.key && !e'.persisted
  {
    AdvancedKeepsIdentity(if ev.key in s.episodes then s.episodes[ev.key] else Pristine(ev.key, ev.threshold, ev.now),
                          ev.value, ev.threshold, ev.windows, ev.now);
  }

  // ---- Replaying a run with the methods ----

  predicate WellKeyed(s: Store) {
    forall k | k in s.episodes :: s.episodes[k].key == k
  }

  lemma EvaluateKeepsKey(s: Store, ev: Evaluation, delivery: Option<seq<Uuid>>, writeOk: bool)
    requires WellKeyed(s)
    ensures var s' := Evaluated(s, ev, delivery, writeOk); ev.key in s'.episodes ==> s'.episodes[ev.key].key == ev.key
  {
    StepKeepsIdentity(s, ev);
  }

  lemma ApplyKeepsKeys(s: Store, op: Op)
    requires WellKeyed(s)
    ensures WellKeyed(Apply(s, op))
  {
    if op.Evaluate? {
      EvaluateKeepsKey(s, op.ev, op.delivery, op.writeOk);
    }
  }

  method Replay(ops: seq<Op>) returns (runtime: AlertRuntime)
    ensures fresh(runtime) && runtime.Snapshot() == Run(ops)
  {
    runtime := new AlertRuntime(map[]);
    for i := 0 to |ops|
      invariant fresh(runtime) && runtime.Snapshot() == Run(ops[..i]) && WellKeyed(runtime.Snapshot())
    {
      assert ops[..i + 1][..i] == ops[..i];
      ApplyKeepsKeys(runtime.Snapshot(), ops[i]);
      match ops[i] {
        case Evaluate(ev, delivery, writeOk) => runtime.EvaluateMetric(ev, delivery, writeOk);
        case Flush(failed) => runtime.FlushDirty(failed);
        case Cleanup(active, deleteFails) => runtime.CleanupMissing(active, deleteFails);
        case Purge(now, tableNow, deleteOk) => runtime.PurgeResolved(now, tableNow, deleteOk);
        case Restart(readOk) =>
          runtime := new AlertRuntime(runtime.table);
          runtime.Hydrate(readOk);
      }
    }
    assert ops[..|ops|] == ops;
  }

  // ---- Memory and table stay coherent ----

  /** The row holds the episode but for the last reading, the counters and the threshold. */
  predicate RowFollows(row: EpisodeRow, e: EpisodeState) {
    && row.status == Word(e.status)
    && row.startedAt == e.startedAt
    && row.openedAt == e.openedAt
    && row.resolvedAt == e.resolvedAt
    && row.lastNotifiedAt == e.lastNotifiedAt
    && row.notifyIds == JoinIds(e.notifyIds)
    && row.lastValue.Some?
    && 0 <= row.threshold < 256
  }

  /** An episode never written is a first Pending that has been seen above its threshold. */
  predicate Shaped(e: EpisodeState) {
    && (!e.persisted ==> e.status == Pending && e.resolvedAt.None? && e.exceedCount > 0)
    && (e.status == Active ==> e.openedAt.Some?)
    && (e.status == Resolved ==> e.resolvedAt.Some?)
  }

  predicate EntryCoherent(k: Key, e: EpisodeState, table: map<Key, EpisodeRow>) {
    && e.key == k
    && Shaped(e)
    && (e.persisted ==> k in table && RowFollows(table[k], e) && (!e.dirty ==> table[k] == RowOf(e)))
    && (!e.persisted ==> k !in table)
  }

  /** Memory and table agree on `k`. */
  predicate CoherentAt(s: Store, k: Key) {
    && (k in s.table ==> k in s.episodes)
    && (k in s.episodes ==> EntryCoherent(k, s.episodes[k], s.table))
  }

  /** The part of an episode that a restart brings back. */
  predicate SameCourse(e: EpisodeState, e': EpisodeState) {
    && e'.status == e.status
    && e'.startedAt == e.startedAt
    && e'.openedAt == e.openedAt
    && e'.resolvedAt == e.resolvedAt
    && e'.lastNotifiedAt == e.lastNotifiedAt
    && e'.notifyIds == e.notifyIds
  }

  lemma ReloadedRow(k: Key, row: EpisodeRow, e: EpisodeState)
    requires RowFollows(row, e)
    ensures IntoEpisode(k, row).Some?
    ensures var e' := IntoEpisode(k, row).value;
            SameCourse(e, e') && RowOf(e') == row && e'.persisted && !e'.dirty && e'.key == k
  {
    SplitJoinRoundTrip(e.notifyIds);
  }

  /** A restart keeps exactly the written record, with its status, its instants and its notifications. */
  lemma RestartKeepsCoherence(s: Store, k: Key)
    requires CoherentAt(s, k)
    ensures var s' := Apply(s, Restart(true));
            && CoherentAt(s', k)
            && (k in s'.episodes <==> k in s.episodes && s.episodes[k].persisted)
            && (k in s'.episodes ==> SameCourse(s.episodes[k], s'.episodes[k]))
  {
    if k in s.table {
      ReloadedRow(k, s.table[k], s.episodes[k]);
    }
  }

  // ---- Writes that work keep memory and table coherent, and make good what failed ----

  /** Whether an evaluation upserts or deletes the row of its key. */
  predicate TouchesRow(s: Store, ev: Evaluation) {
    var fx := EffectsOf(s, ev);
    if fx.delete then StepOf(s, ev).0.persisted else Upserts(fx)
  }

  /**
   The table does for `k` what it has to. A purge, which goes by the clock of the process in memory and
   by that of the database in the table, has to take a recovered `k` out of both or of neither.
   */
  predicate WritesOk(s: Store, op: Op, k: Key) {
    match op
    case Evaluate(ev, _, writeOk) => ev.key == k && TouchesRow(s, ev) ==> writeOk
    case Flush(_) => true
    case Cleanup(active, deleteFails) => k in deleteFails && k in s.table && active.Some? ==> k.host in active.value
    case Purge(now, tableNow, deleteOk) =>
      k in s.episodes && s.episodes[k].status == Resolved ==>
        (ExpiredEpisode(s.episodes[k], now) <==> deleteOk && ExpiredEpisode(s.episodes[k], tableNow))
    case Restart(readOk) => k in s.table ==> readOk
  }

  /** From operation `i` of the run on. */
  predicate WritesOkFrom(ops: seq<Op>, i: nat, k: Key) {
    forall j | i <= j < |ops| :: WritesOk(Run(ops[..j]), ops[j], k)
  }

  predicate AllWritesOk(ops: seq<Op>, k: Key) {
    WritesOkFrom(ops, 0, k)
  }

  /** A step that leaves the row alone changes nothing but what the dirty flag covers. */
  lemma AdvancedKeepsShape(e: EpisodeState, value: Option<real>, threshold: Byte, w: Windows, now: int)
    requires Shaped(e) || (e.exceedCount == 0 && e == Pristine(e.key, e.threshold, e.startedAt))
    ensures var (e', fx) := Advanced(e, value, threshold, w, now);
            && var over := value.Some? && LevelOf(value.value, threshold, w.hysteresisPct) == Over;
            && (over ==> e'.exceedCount > 0 || e.persisted)
            && (e'.exceedCount == e.exceedCount || over)
            && (!fx.delete && !Upserts(fx) ==> SameCourse(e, e') && (e' == e || e'.dirty))
            && (!e.persisted && fx.notifyResolved ==> false)
            && (e'.status == Active ==> e'.openedAt.Some?)
            && (e'.status == Resolved ==> e'.resolvedAt.Some?)
  {
  }

  lemma DeliveredKeepsShape(e: EpisodeState, fx: Effects, now: int, delivery: Option<seq<Uuid>>)
    ensures var e' := Delivered(e, fx, now, delivery);
            && e'.key == e.key && e'.status == e.status && e'.openedAt == e.openedAt && e'.resolvedAt == e.resolvedAt
            && (!Upserts(fx) ==> e' == e)
            && (e'.persisted <==> e.persisted || (Upserts(fx) && (fx.notifyOpen || fx.renotify || !fx.notifyResolved)))
  {
  }

  lemma EvaluateKeepsCoherence(s: Store, ev: Evaluation, delivery: Option<seq<Uuid>>, writeOk: bool)
    requires CoherentAt(s, ev.key) && (TouchesRow(s, ev) ==> writeOk)
    ensures CoherentAt(Evaluated(s, ev, delivery, writeOk), ev.key)
  {
    var e := if ev.key in s.episodes then s.episodes[ev.key] else Pristine(ev.key, ev.threshold, ev.now);
    var (e', fx) := StepOf(s, ev);
    StepKeepsIdentity(s, ev);
    AdvancedKeepsShape(e, ev.value, ev.threshold, ev.windows, ev.now);
    DeliveredKeepsShape(e', fx, ev.now, delivery);
  }

  lemma FlushKeepsCoherence(s: Store, failed: set<Key>, k: Key)
    requires CoherentAt(s, k)
    ensures CoherentAt(Flushed(s, failed), k)
    ensures k in s.episodes && k !in failed ==>
              && var e := Flushed(s, failed).episodes[k];
              && e.persisted && !e.dirty && k in Flushed(s, failed).table && Flushed(s, failed).table[k] == RowOf(e)
  {
  }

  lemma PurgeKeepsCoherence(s: Store, now: int, tableNow: int, deleteOk: bool, k: Key)
    requires CoherentAt(s, k) && WritesOk(s, Purge(now, tableNow, deleteOk), k)
    ensures CoherentAt(Purged(s, now, tableNow, deleteOk), k)
  {
  }

  lemma ApplyKeepsCoherence(s: Store, op: Op, k: Key)
    requires CoherentAt(s, k) && WritesOk(s, op, k)
    ensures CoherentAt(Apply(s, op), k)
  {
    match op
    case Evaluate(ev, delivery, writeOk) =>
      if ev.key == k {
        EvaluateKeepsCoherence(s, ev, delivery, writeOk);
      }
    case Flush(failed) => FlushKeepsCoherence(s, failed, k);
    case Cleanup(_, _) =>
    case Purge(now, tableNow, deleteOk) => PurgeKeepsCoherence(s, now, tableNow, deleteOk, k);
    case Restart(readOk) =>
      if readOk {
        RestartKeepsCoherence(s, k);
      }
  }

  /** Once memory and table agree on `k`, they do as long as its writes work. */
  lemma {:induction false} CoherenceLasts(ops: seq<Op>, i: nat, k: Key)
    requires i <= |ops| && CoherentAt(Run(ops[..i]), k) && WritesOkFrom(ops, i, k)
    ensures CoherentAt(Run(ops), k)
  {
    if i == |ops| {
      assert ops[..i] == ops;
    } else {
      var init := ops[..|ops| - 1];
      assert forall j | 0 <= j <= |init| :: init[..j] == ops[..j];
      CoherenceLasts(init, i, k);
      ApplyKeepsCoherence(Run(init), ops[|ops| - 1], k);
    }
  }

  /** While writes for `k` work, memory and table agree on all of it but what the dirty flag covers. */
  lemma RunIsCoherent(ops: seq<Op>, k: Key)
    requires AllWritesOk(ops, k)
    ensures CoherentAt(Run(ops), k)
  {
    CoherenceLasts(ops, 0, k);
  }

  // ---- Records keep their shape, whatever fails ----

  predicate RowShaped(row: EpisodeRow) {
    && row.status.Word? && 0 <= row.threshold < 256
    && (row.status.status == Active ==> row.openedAt.Some?)
    && (row.status.status == Resolved ==> row.resolvedAt.Some?)
  }

  predicate ShapedAt(s: Store, k: Key) {
    && (k in s.episodes ==> s.episodes[k].key == k && Shaped(s.episodes[k]))
    && (k in s.table ==> RowShaped(s.table[k]))
  }

  lemma EvaluateKeepsShape(s: Store, ev: Evaluation, delivery: Option<seq<Uuid>>, writeOk: bool)
    requires ShapedAt(s, ev.key)
    ensures ShapedAt(Evaluated(s, ev, delivery, writeOk), ev.key)
  {
    var e := if ev.key in s.episodes then s.episodes[ev.key] else Pristine(ev.key, ev.threshold, ev.now);
    var (e', fx) := StepOf(s, ev);
    StepKeepsIdentity(s, ev);
    AdvancedKeepsShape(e, ev.value, ev.threshold, ev.windows, ev.now);
    DeliveredKeepsShape(e', fx, ev.now, delivery);
  }

  lemma ApplyKeepsShape(s: Store, op: Op, k: Key)
    requires ShapedAt(s, k)
    ensures ShapedAt(Apply(s, op), k)
  {
    if Evaluates(op, k) {
      EvaluateKeepsShape(s, op.ev, op.delivery, op.writeOk);
    }
  }

  /** In every run, whatever writes fail, every record in memory and every row came from a step of the machine. */
  lemma {:induction false} RunIsShaped(ops: seq<Op>, k: Key)
    ensures ShapedAt(Run(ops), k)
  {
    if ops == [] {
    } else {
      RunIsShaped(ops[..|ops| - 1], k);
      ApplyKeepsShape(Run(ops[..|ops| - 1]), ops[|ops| - 1], k);
    }
  }

  // ---- What makes a failed write good ----

  /** An upsert that works makes the row agree, whatever the table held before. */
  lemma UpsertRestores(s: Store, ev: Evaluation, delivery: Option<seq<Uuid>>)
    requires ShapedAt(s, ev.key) && Upserts(EffectsOf(s, ev)) && !EffectsOf(s, ev).delete
    ensures CoherentAt(Evaluated(s, ev, delivery, true), ev.key)
  {
    var e := if ev.key in s.episodes then s.episodes[ev.key] else Pristine(ev.key, ev.threshold, ev.now);
    var (e', fx) := StepOf(s, ev);
    StepKeepsIdentity(s, ev);
    AdvancedKeepsShape(e, ev.value, ev.threshold, ev.windows, ev.now);
    DeliveredKeepsShape(e', fx, ev.now, delivery);
  }

  /** So does a flush of an entry that is dirty or unwritten. */
  lemma FlushRestores(s: Store, failed: set<Key>, k: Key)
    requires ShapedAt(s, k) && k in s.episodes && NeedsFlush(s.episodes[k]) && k !in failed
    ensures CoherentAt(Flushed(s, failed), k)
  {
  }

  /** A purge by any clocks, working or not, leaves an entry alone that is pending or open. */
  lemma PurgeLeavesUnresolved(s: Store, now: int, tableNow: int, deleteOk: bool, k: Key)
    requires CoherentAt(s, k) && (k in s.episodes ==> s.episodes[k].status != Resolved)
    ensures CoherentAt(Purged(s, now, tableNow, deleteOk), k)
  {
  }

  // ---- What a flush settles ----

  /** Memory and table hold the same for `k`. */
  predicate SettledAt(s: Store, k: Key) {
    && (k in s.table <==> k in s.episodes)
    && (k in s.episodes ==> !NeedsFlush(s.episodes[k]) && s.table[k] == RowOf(s.episodes[k]))
  }

  predicate Settled(s: Store) {
    forall k | k in s.table.Keys + s.episodes.Keys :: SettledAt(s, k)
  }

  function Unthrottled(episodes: map<Key, EpisodeState>): map<Key, EpisodeState> {
    map k | k in episodes :: episodes[k].(lastRefreshAt := None)
  }

  lemma RestartOfSettledAt(s: Store, k: Key)
    requires SettledAt(s, k) && (k in s.episodes ==> s.episodes[k].key == k)
    ensures var after := Apply(s, Restart(true)).episodes;
            && (k in after <==> k in s.episodes)
            && (k in after ==> after[k] == s.episodes[k].(lastRefreshAt := None))
  {
    if k in s.episodes {
      RowRoundTrip(s.episodes[k]);
    }
  }

  /** A restart of a settled store changes nothing but the refresh throttle. */
  lemma RestartOfSettled(s: Store)
    requires WellKeyed(s) && Settled(s)
    ensures Apply(s, Restart(true)) == s.(episodes := Unthrottled(s.episodes))
  {
    var after := Apply(s, Restart(true)).episodes;
    forall k
      ensures k in after <==> k in s.episodes
      ensures k in after ==> after[k] == s.episodes[k].(lastRefreshAt := None)
    {
      assert k in s.table.Keys + s.episodes.Keys ==> SettledAt(s, k);
      RestartOfSettledAt(s, k);
    }
    SameMaps(after, Unthrottled(s.episodes));
  }

  /** The flush passes over an entry that is written and clean; it has to be equal to its row already. */
  predicate CleanEntryStored(s: Store, k: Key) {
    && (k in s.table ==> k in s.episodes)
    && (k in s.episodes && !NeedsFlush(s.episodes[k]) ==> k in s.table && s.table[k] == RowOf(s.episodes[k]))
  }

  predicate CleanEntriesStored(s: Store) {
    forall k | k in s.table.Keys + s.episodes.Keys :: CleanEntryStored(s, k)
  }

  lemma FlushSettlesAt(s: Store, k: Key)
    ensures SettledAt(Flushed(s, {}), k) <==> CleanEntryStored(s, k)
    ensures k in Flushed(s, {}).table.Keys + Flushed(s, {}).episodes.Keys <==> k in s.table.Keys + s.episodes.Keys
  {
  }

  /** After a flush whose writes work memory and table hold the same if and only if the clean entries already did. */
  lemma FlushSettlesIff(s: Store)
    ensures Settled(Flushed(s, {})) <==> CleanEntriesStored(s)
  {
    hide Flushed, SettledAt, CleanEntryStored;
    forall k
      ensures SettledAt(Flushed(s, {}), k) <==> CleanEntryStored(s, k)
      ensures k in Flushed(s, {}).table.Keys + Flushed(s, {}).episodes.Keys <==> k in s.table.Keys + s.episodes.Keys
    {
      FlushSettlesAt(s, k);
    }
  }

  lemma CoherentIsStored(s: Store, k: Key)
    requires CoherentAt(s, k)
    ensures CleanEntryStored(s, k)
  {
  }

  /** In particular after a run whose writes have worked. */
  lemma FlushSettles(ops: seq<Op>)
    requires forall k :: AllWritesOk(ops, k)
    ensures Settled(Apply(Run(ops), Flush({}))) && WellKeyed(Apply(Run(ops), Flush({})))
  {
    hide Run, Flushed, CleanEntryStored, AllWritesOk;
    var s := Run(ops);
    forall k
      ensures CleanEntryStored(s, k)
    {
      RunIsCoherent(ops, k);
      CoherentIsStored(s, k);
    }
    FlushSettlesIff(s);
    forall k | k in Apply(s, Flush({})).episodes
      ensures Apply(s, Flush({})).episodes[k].key == k
    {
      RunIsShaped(ops, k);
      ApplyKeepsShape(s, Flush({}), k);
    }
  }
}
