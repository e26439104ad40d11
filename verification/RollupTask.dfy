/**
 The hourly roll-up task: selection of the hours to roll up, reading, upserting
 (crates/foims-agent-service/src/tasks.rs).

 Five-minute rows may be inserted at any moment, also between a read and its upsert, and several
 reads may be under way. Ids grow in the order of insertion.
 */
module RollupTask {
  import opened Wrappers
  import opened MetricsRollup

  const HOUR_SECS := 3600
  const CLOSING_DELAY_SECS := 900
  const ROLLUP_HOURS_PER_RUN := 500

  type AgentId = nat

  /** Agent and instant of a five-minute row; at most one row has them. */
  datatype SourceKey = SourceKey(agent: AgentId, at: int)

  datatype HourKey = HourKey(agent: AgentId, hour: int)

  type Source = map<SourceKey, SourceRow>
  type Hours = map<HourKey, map<string, Cell>>

  /** The rows of one hour that a run has read and not yet rolled up. */
  datatype Reading = Reading(key: HourKey, rows: seq<SourceRow>)

  datatype State = State(src: Source, hours: Hours, readings: seq<Reading>, lastId: nat)

  const INITIAL := State(map[], map[], [], 0)

  function HourOf(key: SourceKey): HourKey {
    HourKey(key.agent, key.at / HOUR_SECS * HOUR_SECS)
  }

  // ---- The queries ----

  /** The rows of an agent from `lo` up to `hi`, in the order of their instants. */
  function RowsBetween(src: Source, agent: AgentId, lo: int, hi: int): seq<SourceRow>
    decreases hi - lo
  {
    if hi <= lo then []
    else
      RowsBetween(src, agent, lo, hi - 1)
      + if SourceKey(agent, hi - 1) in src then [src[SourceKey(agent, hi - 1)]] else []
  }

  function RowsOf(src: Source, key: HourKey): seq<SourceRow> {
    RowsBetween(src, key.agent, key.hour, key.hour + HOUR_SECS)
  }

  predicate Closed(key: HourKey, now: int) {
    key.hour + HOUR_SECS <= now - CLOSING_DELAY_SECS
  }

  /** Whether the hourly row records the greatest id among the five-minute rows of its hour. */
  predicate RecordsLatest(src: Source, hours: Hours, key: HourKey) {
    key in hours && SRC_MAX_ID in hours[key] && hours[key][SRC_MAX_ID] == MaxId(MaxIdOf(RowsOf(src, key)))
  }

  /** The hours a run at `now` has to roll up. */
  function Due(src: Source, hours: Hours, now: int): set<HourKey> {
    set key | key in src && Closed(HourOf(key), now) && !RecordsLatest(src, hours, HourOf(key)) :: HourOf(key)
  }

  /** A result of `ORDER BY hour LIMIT 500`; hours of the same instant may come in any order. */
  predicate IsSelection(sel: seq<HourKey>, due: set<HourKey>) {
    && |sel| <= ROLLUP_HOURS_PER_RUN
    && (forall i | 0 <= i < |sel| :: sel[i] in due)
    && (forall i, j | 0 <= i < j < |sel| :: sel[i] != sel[j] && sel[i].hour <= sel[j].hour)
    && forall key | key in due && key !in sel ::
         |sel| == ROLLUP_HOURS_PER_RUN && forall i | 0 <= i < |sel| :: sel[i].hour <= key.hour
  }

  /** The hourly rows after a run nobody interrupts. */
  function Executed(src: Source, hours: Hours, sel: seq<HourKey>): Hours {
    map key | key in hours.Keys + (set k | k in sel) :: if key in sel then Rollup(RowsOf(src, key)) else hours[key]
  }

  lemma ExecutedExtends(src: Source, hours: Hours, sel: seq<HourKey>, key: HourKey)
    ensures Executed(src, hours, sel + [key]) == Executed(src, hours, sel)[key := Rollup(RowsOf(src, key))]
  {
    SameMaps(Executed(src, hours, sel + [key]), Executed(src, hours, sel)[key := Rollup(RowsOf(src, key))]);
  }

  lemma ExecutedNothing(src: Source, hours: Hours)
    ensures Executed(src, hours, []) == hours
  {
    SameMaps(Executed(src, hours, []), hours);
  }

  datatype TaskError = RollupFailed

  /** `n` is the first selected hour that fails. */
  predicate StopsAt(sel: seq<HourKey>, failing: set<HourKey>, n: nat)
    requires n < |sel|
  {
    sel[n] in failing && forall i | 0 <= i < n :: sel[i] !in failing
  }

  class Database {
    var src: Source
    var hours: Hours
    var lastId: nat

    constructor ()
      ensures src == map[] && hours == map[] && lastId == 0
    {
      src, hours, lastId := map[], map[], 0;
    }

    /** `ON CONFLICT DO NOTHING`: the first row of a key stays, but the id is used up. */
    method InsertRow(key: SourceKey, metrics: RowJson, gap: nat)
      modifies this`src, this`lastId
      ensures forall readings ::
          State(src, hours, readings, lastId)
          == Next(State(old(src), hours, readings, old(lastId)), Insert(key, metrics, gap))
      ensures lastId == old(lastId) + 1 + gap
      ensures src == if key in old(src) then old(src) else old(src)[key := SourceRow(lastId, metrics)]
    {
      lastId := lastId + 1 + gap;
      if key !in src {
        src := src[key := SourceRow(lastId, metrics)];
      }
    }

    /**
     One run of the task: hour by hour, read, roll up, upsert. The run ends at the first query that fails;
     `selected` is None if that is the selection, and `failing` are the hours whose read or upsert fails.
     */
    method Execute(now: int, selected: Option<seq<HourKey>>, failing: set<HourKey>) returns (r: Result<nat, TaskError>)
      requires selected.Some? ==> IsSelection(selected.value, Due(src, hours, now))
      modifies this`hours
      ensures selected.None? ==> r.Err? && hours == old(hours)
      ensures selected.Some? && r.Ok? ==>
                && (forall key | key in selected.value :: key !in failing)
                && r.value == |selected.value| && hours == Executed(src, old(hours), selected.value)
                && hours.Keys == old(hours).Keys + (set key | key in selected.value)
                && forall key | key in hours ::
                     hours[key] == if key in selected.value then Rollup(RowsOf(src, key)) else old(hours)[key]
      ensures selected.Some? && r.Err? ==>
                exists n | 0 <= n < |selected.value| :: StopsAt(selected.value, failing, n)
                                                        && hours == Executed(src, old(hours), selected.value[..n])
    {
      if selected.None? {
        return Err(RollupFailed);
      }
      var sel := selected.value;
      ExecutedNothing(src, hours);
      assert sel[..0] == [];
      for i := 0 to |sel|
        invariant hours == Executed(src, old(hours), sel[..i])
        invariant forall j | 0 <= j < i :: sel[j] !in failing
      {
        if sel[i] in failing {
          assert StopsAt(sel, failing, i);
          return Err(RollupFailed);
        }
        assert sel[..i + 1] == sel[..i] + [sel[i]];
        ExecutedExtends(src, old(hours), sel[..i], sel[i]);
        var rows := RowsOf(src, sel[i]);
        var metrics := RollupMetrics(rows);
        hours := hours[sel[i] := metrics];
      }
      assert sel[..|sel|] == sel;
      r := Ok(|sel|);
    }
  }

  // ---- Runs with inserts in between ----

  datatype Op =
    | Insert(key: SourceKey, metrics: RowJson, gap: nat)
    | Read(hour: HourKey)
    | Upsert(reading: nat, ok: bool)

  predicate Enabled(s: State, op: Op) {
    match op
    case Insert(_, _, _) => true
    case Read(hour) => RowsOf(s.src, hour) != []
    case Upsert(reading, _) => reading < |s.readings|
  }

  /** An insert takes the next id even when the row is already there; a failed upsert drops what was read. */
  function Next(s: State, op: Op): State
    requires Enabled(s, op)
  {
    match op
    case Insert(key, metrics, gap) =>
      var id := s.lastId + 1 + gap;
      s.(src := if key in s.src then s.src else s.src[key := SourceRow(id, metrics)], lastId := id)
    case Read(hour) => s.(readings := s.readings + [Reading(hour, RowsOf(s.src, hour))])
    case Upsert(reading, ok) =>
      var r := s.readings[reading];
      s.(readings := s.readings[..reading] + s.readings[reading + 1..],
         hours := if ok then s.hours[r.key := Rollup(r.rows)] else s.hours)
  }

  function Run(ops: seq<Op>): State {
    if ops == [] then INITIAL
    else
      var s, op := Run(ops[..|ops| - 1]), ops[|ops| - 1];
      if Enabled(s, op) then Next(s, op) else s
  }

  /** An hour of a run is a read and its upsert with nothing in between. */
  lemma ExecutedHour(s: State, key: HourKey)
    requires RowsOf(s.src, key) != []
    ensures var s' := Next(s, Read(key));
            Next(s', Upsert(|s.readings|, true)) == s.(hours := Executed(s.src, s.hours, [key]))
  {
    assert Executed(s.src, s.hours, [key]) == s.hours[key := Rollup(RowsOf(s.src, key))];
  }

  /** The five-minute rows with an id up to `limit`. */
  function Known(src: Source, limit: int): Source {
    map key | key in src && src[key].id <= limit :: src[key]
  }

  /** `rows` is what its hour held when its greatest id was the last one. */
  predicate WasRead(s: State, key: HourKey, rows: seq<SourceRow>) {
    rows != [] && MaxIdOf(rows) <= s.lastId && rows == RowsOf(Known(s.src, MaxIdOf(rows)), key)
  }

  /** The hourly row is the roll-up of the rows with an id up to the one it records. */
  predicate IsRollup(s: State, key: HourKey, metrics: map<string, Cell>) {
    && SRC_MAX_ID in metrics && metrics[SRC_MAX_ID].MaxId?
    && var rows := RowsOf(Known(s.src, metrics[SRC_MAX_ID].id), key);
    metrics == Rollup(rows) && WasRead(s, key, rows)
  }

  predicate Invariant(s: State) {
    && (forall key | key in s.src :: 0 < s.src[key].id <= s.lastId)
    && (forall r | r in s.readings :: WasRead(s, r.key, r.rows))
    && forall key | key in s.hours :: IsRollup(s, key, s.hours[key])
  }

  // ---- Reading ----

  /** Two tables with the same rows between two instants. */
  lemma {:induction false} SameRows(a: Source, b: Source, agent: AgentId, lo: int, hi: int)
    requires forall at | lo <= at < hi ::
        (SourceKey(agent, at) in a <==> SourceKey(agent, at) in b)
        && (SourceKey(agent, at) in a ==> a[SourceKey(agent, at)] == b[SourceKey(agent, at)])
    ensures RowsBetween(a, agent, lo, hi) == RowsBetween(b, agent, lo, hi)
    decreases hi - lo
  {
    if hi <= lo {
    } else {
      SameRows(a, b, agent, lo, hi - 1);
    }
  }

  lemma {:induction false} RowIsRead(src: Source, key: SourceKey, lo: int, hi: int)
    requires key in src && lo <= key.at < hi
    ensures src[key] in RowsBetween(src, key.agent, lo, hi)
    decreases hi - lo
  {
    if key.at < hi - 1 {
      RowIsRead(src, key, lo, hi - 1);
    }
  }

  lemma {:induction false} ReadIsRow(src: Source, agent: AgentId, lo: int, hi: int, row: SourceRow)
    requires row in RowsBetween(src, agent, lo, hi)
    ensures exists at :: lo <= at < hi && SourceKey(agent, at) in src && src[SourceKey(agent, at)] == row
    decreases hi - lo
  {
    if row in RowsBetween(src, agent, lo, hi - 1) {
      ReadIsRow(src, agent, lo, hi - 1, row);
    }
  }

  /** What is read now is what is known up to the greatest id read. */
  lemma ReadIsKnown(src: Source, key: HourKey)
    ensures RowsOf(Known(src, MaxIdOf(RowsOf(src, key))), key) == RowsOf(src, key)
  {
    var m, lo, hi := MaxIdOf(RowsOf(src, key)), key.hour, key.hour + HOUR_SECS;
    forall at | lo <= at < hi && SourceKey(key.agent, at) in src
      ensures src[SourceKey(key.agent, at)].id <= m
    {
      RowIsRead(src, SourceKey(key.agent, at), lo, hi);
    }
    SameRows(Known(src, m), src, key.agent, lo, hi);
  }

  lemma ReadWasRead(s: State, key: HourKey)
    requires Invariant(s) && RowsOf(s.src, key) != []
    ensures WasRead(s, key, RowsOf(s.src, key))
  {
    var rows := RowsOf(s.src, key);
    ReadIsKnown(s.src, key);
    if MaxIdOf(rows) != 0 {
      var i :| 0 <= i < |rows| && rows[i].id == MaxIdOf(rows);
      ReadIsRow(s.src, key.agent, key.hour, key.hour + HOUR_SECS, rows[i]);
    }
  }

  // ---- The invariant ----

  lemma RollupKept(s: State, s': State, key: HourKey, metrics: map<string, Cell>)
    requires IsRollup(s, key, metrics) && s.lastId <= s'.lastId
    requires forall limit | limit <= s.lastId :: Known(s'.src, limit) == Known(s.src, limit)
    ensures IsRollup(s', key, metrics)
  {
    hide RowsOf, Known, Aggregates;
  }

  lemma InsertKeepsInvariant(s: State, op: Op)
    requires op.Insert? && Invariant(s)
    ensures Invariant(Next(s, op))
  {
    hide RowsOf, IsRollup;
    var s' := Next(s, op);
    forall limit | limit <= s.lastId
      ensures Known(s'.src, limit) == Known(s.src, limit)
    {
    }
    forall key | key in s'.hours
      ensures IsRollup(s', key, s'.hours[key])
    {
      assert IsRollup(s, key, s.hours[key]);
      RollupKept(s, s', key, s.hours[key]);
    }
  }

  lemma RollupOfRead(s: State, key: HourKey, rows: seq<SourceRow>)
    requires WasRead(s, key, rows)
    ensures IsRollup(s, key, Rollup(rows))
  {
  }

  lemma StepKeepsInvariant(s: State, op: Op)
    requires Enabled(s, op) && Invariant(s)
    ensures Invariant(Next(s, op))
  {
    var s' := Next(s, op);
    match op
    case Insert(_, _, _) => InsertKeepsInvariant(s, op);
    case Read(hour) => ReadWasRead(s, hour);
    case Upsert(reading, ok) =>
      var r := s.readings[reading];
      RollupOfRead(s, r.key, r.rows);
      forall key | key in s'.hours
        ensures IsRollup(s', key, s'.hours[key])
      {
        assert key != r.key ==> IsRollup(s, key, s.hours[key]);
      }
  }

  /** In every reachable state each hourly row is the roll-up of the rows with an id up to `_src_max_id`. */
  lemma {:induction false} HourlyRowsAreRollups(ops: seq<Op>)
    ensures Invariant(Run(ops))
  {
    if ops == [] {
    } else {
      var s, op := Run(ops[..|ops| - 1]), ops[|ops| - 1];
      HourlyRowsAreRollups(ops[..|ops| - 1]);
      if Enabled(s, op) {
        StepKeepsInvariant(s, op);
      }
    }
  }

  lemma LatestIsComplete(s: State, key: HourKey)
    requires Invariant(s) && key in s.hours
    ensures RecordsLatest(s.src, s.hours, key) <==> s.hours[key] == Rollup(RowsOf(s.src, key))
  {
    assert IsRollup(s, key, s.hours[key]);
    ReadIsKnown(s.src, key);
  }

  lemma HourOfIs(key: SourceKey, hour: HourKey)
    ensures hour == HourOf(key)
       <==> hour.agent == key.agent && hour.hour % 3600 == 0 && hour.hour <= key.at < hour.hour + 3600
  {
    assert key.at == key.at / 3600 * 3600 + key.at % 3600;
    if hour.hour % 3600 == 0 && hour.hour <= key.at < hour.hour + 3600 {
      assert hour.hour == hour.hour / 3600 * 3600;
    }
  }

  /** `at` are the instants of the rows of an agent in an hour, one after the other. */
  predicate AreInstants(at: seq<int>, src: Source, agent: AgentId, lo: int, hi: int) {
    && (forall i | 0 <= i < |at| :: lo <= at[i] < hi && SourceKey(agent, at[i]) in src)
    && (forall i, j | 0 <= i < j < |at| :: at[i] < at[j])
    && forall t | lo <= t < hi && SourceKey(agent, t) in src :: t in at
  }

  lemma {:induction false} InstantsBetween(src: Source, agent: AgentId, lo: int, hi: int) returns (at: seq<int>)
    ensures AreInstants(at, src, agent, lo, hi) && |at| == |RowsBetween(src, agent, lo, hi)|
    ensures forall i | 0 <= i < |at| :: RowsBetween(src, agent, lo, hi)[i] == src[SourceKey(agent, at[i])]
    decreases hi - lo
  {
    if hi <= lo {
      at := [];
    } else {
      var before := InstantsBetween(src, agent, lo, hi - 1);
      at := before + if SourceKey(agent, hi - 1) in src then [hi - 1] else [];
      assert SourceKey(agent, hi - 1) in src ==> at[|before|] == hi - 1;
      assert forall i | 0 <= i < |before| :: at[i] == before[i];
    }
  }

  /** What is read of an hour are the rows of its 3600 seconds, in their order and none left out. */
  lemma RowsOfHour(src: Source, key: HourKey) returns (at: seq<int>)
    ensures AreInstants(at, src, key.agent, key.hour, key.hour + 3600) && |at| == |RowsOf(src, key)|
    ensures forall i | 0 <= i < |at| :: RowsOf(src, key)[i] == src[SourceKey(key.agent, at[i])]
  {
    at := InstantsBetween(src, key.agent, key.hour, key.hour + 3600);
  }

  /**
   An hour is selected exactly when it has a five-minute row, ended 15 minutes ago or earlier, and its
   hourly row is not the roll-up of all its rows, be it missing or older than a late row.
   */
  lemma DueIffOutOfDate(ops: seq<Op>, key: HourKey, now: int)
    ensures var s := Run(ops);
            key in Due(s.src, s.hours, now) <==>
            && key.hour % 3600 == 0
            && (exists at :: key.hour <= at < key.hour + 3600 && SourceKey(key.agent, at) in s.src)
            && key.hour + 3600 <= now - 900
            && !(key in s.hours && s.hours[key] == Rollup(RowsOf(s.src, key)))
  {
    hide Run, RowsOf, Rollup;
    var s := Run(ops);
    HourlyRowsAreRollups(ops);
    if key in s.hours {
      LatestIsComplete(s, key);
    }
    if at :| key.hour <= at < key.hour + 3600 && SourceKey(key.agent, at) in s.src && key.hour % 3600 == 0 {
      HourOfIs(SourceKey(key.agent, at), key);
    }
    if source :| source in s.src && HourOf(source) == key {
      HourOfIs(source, key);
      assert SourceKey(key.agent, source.at) in s.src;
    }
  }

  // ---- Convergence ----

  function Keys(sel: seq<HourKey>): set<HourKey> {
    set key | key in sel
  }

  lemma ExecutedAt(src: Source, hours: Hours, sel: seq<HourKey>, key: HourKey)
    ensures RecordsLatest(src, Executed(src, hours, sel), key) <==> key in sel || RecordsLatest(src, hours, key)
  {
  }

  /** A run takes what it has selected out of the backlog and puts nothing in. */
  lemma ExecutedIsNotDue(src: Source, hours: Hours, sel: seq<HourKey>, now: int)
    ensures Due(src, Executed(src, hours, sel), now) == Due(src, hours, now) - Keys(sel)
  {
    forall key | key in src
      ensures RecordsLatest(src, Executed(src, hours, sel), HourOf(key))
         <==> HourOf(key) in sel || RecordsLatest(src, hours, HourOf(key))
    {
      ExecutedAt(src, hours, sel, HourOf(key));
    }
  }

  lemma {:induction false} KeysCount(sel: seq<HourKey>)
    requires forall i, j | 0 <= i < j < |sel| :: sel[i] != sel[j]
    ensures |Keys(sel)| == |sel|
  {
    if sel == [] {
    } else {
      var n := |sel| - 1;
      KeysCount(sel[..n]);
      assert Keys(sel) == Keys(sel[..n]) + {sel[n]};
    }
  }

  /** Hours closed at `t0` come before those that close later, so a full selection takes 500 of them or all. */
  lemma SelectionTakesOldest(src: Source, hours: Hours, now: int, t0: int, sel: seq<HourKey>)
    requires t0 <= now && IsSelection(sel, Due(src, hours, now))
    ensures var before, after := Due(src, hours, t0), Due(src, hours, t0) - Keys(sel);
            after == {} || |after| + 500 == |before|
  {
    var before := Due(src, hours, t0);
    assert before <= Due(src, hours, now);
    var after := before - Keys(sel);
    if key :| key in after {
      assert key in Due(src, hours, now) && key !in sel;
      assert forall i | 0 <= i < |sel| :: Closed(sel[i], t0);
      assert Keys(sel) <= before;
      KeysCount(sel);
      assert |before - Keys(sel)| == |before| - |Keys(sel)|;
    }
  }

  datatype Round = Round(now: int, sel: seq<HourKey>)

  /** The hourly rows after some runs, one after the other, without new five-minute rows. */
  function AfterRounds(src: Source, hours: Hours, rounds: seq<Round>): Hours {
    if rounds == [] then hours
    else Executed(src, AfterRounds(src, hours, rounds[..|rounds| - 1]), rounds[|rounds| - 1].sel)
  }

  /** Every run comes at `t0` or later and selects as the query does. */
  predicate AreRounds(src: Source, hours: Hours, rounds: seq<Round>, t0: int) {
    rounds == []
    || var n := |rounds| - 1;
       && AreRounds(src, hours, rounds[..n], t0)
       && t0 <= rounds[n].now
       && IsSelection(rounds[n].sel, Due(src, AfterRounds(src, hours, rounds[..n]), rounds[n].now))
  }

  /** Each run shortens the backlog of `t0` by 500 hours or empties it. */
  lemma {:induction false} RoundsShrinkBacklog(src: Source, hours: Hours, rounds: seq<Round>, t0: int)
    requires AreRounds(src, hours, rounds, t0)
    ensures var left := Due(src, AfterRounds(src, hours, rounds), t0);
            left == {} || |left| + 500 * |rounds| == |Due(src, hours, t0)|
  {
    if rounds == [] {
    } else {
      var n := |rounds| - 1;
      var hours', last := AfterRounds(src, hours, rounds[..n]), rounds[n];
      RoundsShrinkBacklog(src, hours, rounds[..n], t0);
      SelectionTakesOldest(src, hours', last.now, t0, last.sel);
      ExecutedIsNotDue(src, hours', last.sel, t0);
      if Due(src, hours', t0) == {} {
        assert Due(src, AfterRounds(src, hours, rounds), t0) == {};
      }
    }
  }

  /** A backlog of P hours is empty after P/500 runs, rounded up; further runs at `t0` change nothing. */
  lemma BacklogIsWorkedOff(src: Source, hours: Hours, rounds: seq<Round>, t0: int)
    requires AreRounds(src, hours, rounds, t0)
    requires |Due(src, hours, t0)| <= 500 * |rounds|
    ensures Due(src, AfterRounds(src, hours, rounds), t0) == {}
    ensures forall sel | IsSelection(sel, Due(src, AfterRounds(src, hours, rounds), t0)) ::
              sel == [] && Executed(src, AfterRounds(src, hours, rounds), sel) == AfterRounds(src, hours, rounds)
  {
    RoundsShrinkBacklog(src, hours, rounds, t0);
    ExecutedNothing(src, AfterRounds(src, hours, rounds));
    forall sel | IsSelection(sel, Due(src, AfterRounds(src, hours, rounds), t0))
      ensures sel == []
    {
      assert sel != [] ==> sel[0] in Due(src, AfterRounds(src, hours, rounds), t0);
    }
  }

  /** An hourly row that records the greatest id is the roll-up of all its rows. */
  predicate LatestAreComplete(src: Source, hours: Hours) {
    forall key | key in hours && RecordsLatest(src, hours, key) :: hours[key] == Rollup(RowsOf(src, key))
  }

  lemma {:induction false} RoundsKeepComplete(src: Source, hours: Hours, rounds: seq<Round>)
    requires LatestAreComplete(src, hours)
    ensures LatestAreComplete(src, AfterRounds(src, hours, rounds))
  {
    if rounds == [] {
    } else {
      var n := |rounds| - 1;
      var hours' := AfterRounds(src, hours, rounds[..n]);
      RoundsKeepComplete(src, hours, rounds[..n]);
      forall key | RecordsLatest(src, Executed(src, hours', rounds[n].sel), key)
        ensures Executed(src, hours', rounds[n].sel)[key] == Rollup(RowsOf(src, key))
      {
        ExecutedAt(src, hours', rounds[n].sel, key);
      }
    }
  }

  /** After those runs every hour that ended 15 minutes before `t0` or earlier has the roll-up of all its rows. */
  lemma RoundsBringHoursUpToDate(ops: seq<Op>, rounds: seq<Round>, t0: int, key: SourceKey)
    requires AreRounds(Run(ops).src, Run(ops).hours, rounds, t0)
    requires |Due(Run(ops).src, Run(ops).hours, t0)| <= 500 * |rounds|
    requires key in Run(ops).src && HourOf(key).hour + 3600 <= t0 - 900
    ensures var s, hour := Run(ops), HourOf(key);
            var hours := AfterRounds(s.src, s.hours, rounds);
            hour in hours && hours[hour] == Rollup(RowsOf(s.src, hour))
  {
    var s := Run(ops);
    HourlyRowsAreRollups(ops);
    forall k | RecordsLatest(s.src, s.hours, k)
      ensures s.hours[k] == Rollup(RowsOf(s.src, k))
    {
      LatestIsComplete(s, k);
    }
    RoundsKeepComplete(s.src, s.hours, rounds);
    RoundsShrinkBacklog(s.src, s.hours, rounds, t0);
    assert HourOf(key) !in Due(s.src, AfterRounds(s.src, s.hours, rounds), t0);
  }
}
