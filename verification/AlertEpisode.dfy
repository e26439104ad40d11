/**
 Alert episodes (crates/foims-agent-service/src/alert_episode.rs).

 An episode is one sustained excess of one metric on one host. `Episode.Step` moves it through
 Pending, Active and Resolved; `AlertRuntime` keeps the episodes in memory as a working copy of
 the table `host_alert_episodes`. The functions `Advanced`, `Evaluated`, `Flushed`, `Cleaned`,
 `Purged` and `Hydrated` specify the methods; AlertRuns.dfy proves what whole runs of them keep.

 Instants and durations are whole seconds, readings are reals. Whether a write, a query or a
 delivery succeeded is a parameter of the call.
 */
module AlertEpisode {
  import opened Wrappers

  const NOTIFY_REFRESH_SECS := 60
  const RESOLVED_KEEP_SECS := 3600

  type Byte = n: nat | n < 256
  type U64 = n: nat | n < 0x1_0000_0000_0000_0000

  /** The cast `u64 as i64`: the number in the range of `i64` that differs by a multiple of 2^64. */
  function AsI64(n: U64): (i: int)
    ensures -0x8000_0000_0000_0000 <= i < 0x8000_0000_0000_0000
    ensures i == n || i == n - 0x1_0000_0000_0000_0000
  {
    if n < 0x8000_0000_0000_0000 then n else n - 0x1_0000_0000_0000_0000
  }

  predicate HexOrDash(c: char) {
    '0' <= c <= '9' || 'a' <= c <= 'f' || c == '-'
  }

  predicate IsUuidText(s: string) {
    |s| == 36 && forall i | 0 <= i < |s| :: HexOrDash(s[i])
  }

  /** A UUID, represented by its hyphenated lower-case text. */
  type Uuid = s: string | IsUuidText(s) witness "00000000-0000-0000-0000-000000000000"

  datatype Metric = Cpu | Mem | Disk | Temp

  datatype Key = Key(host: Uuid, metric: Metric)

  datatype Status = Pending | Active | Resolved

  /** The status column: one of the three words, or any other text. */
  datatype StatusColumn = Word(status: Status) | OtherText(text: string)

  function ParseStatus(column: StatusColumn): Option<Status> {
    if column.Word? then Some(column.status) else None
  }

  datatype Windows = Windows(forSecs: U64, quietSecs: U64, cooldownSecs: U64, hysteresisPct: Byte)

  // ---- Levels ----

  datatype Level = Over | Band | Under

  function RecoverLevel(threshold: Byte, hysteresisPct: Byte): real {
    threshold as real * (100.0 - hysteresisPct as real) / 100.0
  }

  function LevelOf(value: real, threshold: Byte, hysteresisPct: Byte): Level {
    if value > threshold as real then Over
    else if value <= RecoverLevel(threshold, hysteresisPct) then Under
    else Band
  }

  /** The width of the hysteresis band in the unit of the reading. */
  function BandWidth(threshold: Byte, hysteresisPct: Byte): real {
    threshold as real * hysteresisPct as real / 100.0
  }

  /** The three levels cut the line at the threshold and `hysteresisPct` percent of it below. */
  lemma LevelsCutTheLine(value: real, threshold: Byte, hysteresisPct: Byte)
    ensures LevelOf(value, threshold, hysteresisPct) == Over <==> value > threshold as real
    ensures LevelOf(value, threshold, hysteresisPct) == Under
       <==> value <= threshold as real - threshold as real * hysteresisPct as real / 100.0
    ensures BandWidth(threshold, hysteresisPct) == threshold as real * hysteresisPct as real / 100.0 >= 0.0
  {
    var t, h := threshold as real, hysteresisPct as real;
    assert t * (100.0 - h) == t * 100.0 - t * h;
    assert t * h >= 0.0;
  }

  // ---- One step of one episode ----

  datatype Effects = Effects(
    persist: bool, delete: bool, refresh: bool, notifyOpen: bool, renotify: bool, notifyResolved: bool)

  const NO_EFFECTS := Effects(false, false, false, false, false, false)

  /** The value of an episode: what `clone` copies and what the map in memory holds. */
  datatype EpisodeState = EpisodeState(
    key: Key,
    status: Status,
    startedAt: int,
    openedAt: Option<int>,
    resolvedAt: Option<int>,
    lastExceedAt: int,
    lastNotifiedAt: Option<int>,
    lastRefreshAt: Option<int>,
    lastValue: real,
    threshold: Byte,
    exceedCount: int,
    notifyIds: seq<Uuid>,
    persisted: bool,
    dirty: bool)
  {
    /** Never seen above its threshold: not kept, not written, not notified. */
    predicate IsPlaceholder() {
      status == Pending && exceedCount == 0 && !persisted
    }

    predicate Sustained(now: int, w: Windows) {
      now - startedAt >= AsI64(w.forSecs)
    }

    predicate Cooled(now: int, w: Windows) {
      resolvedAt.Some? ==> now - resolvedAt.value >= AsI64(w.cooldownSecs)
    }

    predicate InQuietWindow(now: int, w: Windows) {
      lastNotifiedAt.Some? && now - lastNotifiedAt.value < AsI64(w.quietSecs) && notifyIds != []
    }

    predicate RefreshDue(now: int) {
      lastRefreshAt.Some? ==> now - lastRefreshAt.value >= NOTIFY_REFRESH_SECS
    }

    function WithExcess(value: real, now: int): EpisodeState {
      this.(exceedCount := exceedCount + 1, lastValue := value, lastExceedAt := now, dirty := true)
    }

    function Opened(now: int): EpisodeState {
      this.(status := Active, openedAt := Some(now))
    }

    /** The first excess after a recovery: a new episode that remembers only `resolvedAt`. */
    function Reborn(value: real, now: int): EpisodeState {
      this.(status := Pending, startedAt := now, openedAt := None, lastNotifiedAt := None,
      lastRefreshAt := None, notifyIds := [], exceedCount := 1, lastValue := value, lastExceedAt := now)
    }

    function PromotedIfDue(now: int, w: Windows, fx: Effects): (EpisodeState, Effects) {
      if Sustained(now, w) && Cooled(now, w) then (Opened(now), fx.(notifyOpen := true)) else (this, fx)
    }
  }

  function Pristine(key: Key, threshold: Byte, now: int): EpisodeState {
    EpisodeState(key, Pending, now, None, None, now, None, None, 0.0, threshold, 0, [], false, false)
  }

  /** What `Episode.Step` computes: the next value of the episode and the side effects it asks for. */
  function Advanced(e: EpisodeState, value: Option<real>, threshold: Byte, w: Windows, now: int)
    : (EpisodeState, Effects)
  {
    var fx := NO_EFFECTS.(persist := e.threshold != threshold);
    var e := e.(threshold := threshold);
    if value.None? then (e, fx)
    else
      var level := LevelOf(value.value, threshold, w.hysteresisPct);
      match (e.status, level)
      case (Pending, Over) => e.WithExcess(value.value, now).PromotedIfDue(now, w, fx)
      case (Pending, _) => (e, fx.(delete := true))
      case (Active, Over) =>
        var e := e.WithExcess(value.value, now);
        if !e.InQuietWindow(now, w) then (e, fx.(renotify := true))
        else if e.RefreshDue(now) then (e.(lastRefreshAt := Some(now)), fx.(refresh := true))
        else (e, fx)
      case (Active, Band) => (e, fx)
      case (Active, Under) => (e.(status := Resolved, resolvedAt := Some(now)), fx.(notifyResolved := true))
      case (Resolved, Over) => e.Reborn(value.value, now).PromotedIfDue(now, w, fx.(persist := true))
      case (Resolved, _) => (e, fx)
  }

  class Episode {
    const key: Key
    var status: Status
    var startedAt: int
    var openedAt: Option<int>
    var resolvedAt: Option<int>
    var lastExceedAt: int
    var lastNotifiedAt: Option<int>
    var lastRefreshAt: Option<int>
    var lastValue: real
    var threshold: Byte
    var exceedCount: int
    var notifyIds: seq<Uuid>
    var persisted: bool
    var dirty: bool

    constructor (e: EpisodeState)
      ensures View() == e
    {
      key, status, startedAt, openedAt, resolvedAt := e.key, e.status, e.startedAt, e.openedAt, e.resolvedAt;
      lastExceedAt, lastNotifiedAt, lastRefreshAt := e.lastExceedAt, e.lastNotifiedAt, e.lastRefreshAt;
      lastValue, threshold, exceedCount := e.lastValue, e.threshold, e.exceedCount;
      notifyIds, persisted, dirty := e.notifyIds, e.persisted, e.dirty;
    }

    function View(): EpisodeState
      reads this
    {
      EpisodeState(key, status, startedAt, openedAt, resolvedAt, lastExceedAt, lastNotifiedAt, lastRefreshAt,
                   lastValue, threshold, exceedCount, notifyIds, persisted, dirty)
    }

    predicate Promotable(now: int, w: Windows)
      reads this
    {
      var sustained := now - startedAt >= AsI64(w.forSecs);
      var cooled := resolvedAt.None? || now - resolvedAt.value >= AsI64(w.cooldownSecs);
      sustained && cooled
    }

    method Open(now: int)
      modifies this
      ensures View() == old(View()).Opened(now)
    {
      status := Active;
      openedAt := Some(now);
    }

    method Resolve(now: int)
      modifies this
      ensures View() == old(View()).(status := Resolved, resolvedAt := Some(now))
    {
      status := Resolved;
      resolvedAt := Some(now);
    }

    /** Counts one reading above the threshold. */
    method Observe(value: real, now: int)
      modifies this
      ensures View() == old(View()).WithExcess(value, now)
    {
      exceedCount := exceedCount + 1;
      lastValue := value;
      lastExceedAt := now;
      dirty := true;
    }

    method Promote(now: int, w: Windows, fx: Effects) returns (fx': Effects)
      modifies this
      ensures (View(), fx') == old(View()).PromotedIfDue(now, w, fx)
    {
      fx' := fx;
      if Promotable(now, w) {
        Open(now);
        fx' := fx'.(notifyOpen := true);
      }
    }

    /** An active alert seen above its threshold again: refresh inside the quiet window, resend outside. */
    method Remind(now: int, w: Windows, fx: Effects) returns (fx': Effects)
      modifies this
      ensures fx' == if !old(View()).InQuietWindow(now, w) then fx.(renotify := true)
                     else if old(View()).RefreshDue(now) then fx.(refresh := true) else fx
      ensures View() == if old(View()).InQuietWindow(now, w) && old(View()).RefreshDue(now)
                        then old(View()).(lastRefreshAt := Some(now)) else old(View())
    {
      fx' := fx;
      if lastNotifiedAt.Some? && now - lastNotifiedAt.value < AsI64(w.quietSecs) && notifyIds != [] {
        if lastRefreshAt.None? || now - lastRefreshAt.value >= NOTIFY_REFRESH_SECS {
          lastRefreshAt := Some(now);
          fx' := fx'.(refresh := true);
        }
      } else {
        fx' := fx'.(renotify := true);
      }
    }

    method Restart(value: real, now: int)
      modifies this
      ensures View() == old(View()).Reborn(value, now)
    {
      status := Pending;
      startedAt := now;
      openedAt := None;
      lastNotifiedAt := None;
      lastRefreshAt := None;
      notifyIds := [];
      exceedCount := 1;
      lastValue := value;
      lastExceedAt := now;
    }

    /** Moves the episode by one reading; a missing reading changes nothing but the threshold. */
    method Step(value: Option<real>, newThreshold: Byte, w: Windows, now: int) returns (fx: Effects)
      modifies this
      ensures (View(), fx) == Advanced(old(View()), value, newThreshold, w, now)
    {
      fx := NO_EFFECTS;
      if threshold != newThreshold {
        threshold := newThreshold;
        fx := fx.(persist := true);
      }
      if value.None? {
        return;
      }
      var level := LevelOf(value.value, newThreshold, w.hysteresisPct);
      match status {
        case Pending =>
          if level == Over {
            Observe(value.value, now);
            fx := Promote(now, w, fx);
          } else {
            fx := fx.(delete := true);
          }
        case Active =>
          if level == Over {
            Observe(value.value, now);
            fx := Remind(now, w, fx);
          } else if level == Under {
            Resolve(now);
            fx := fx.(notifyResolved := true);
          }
        case Resolved =>
          if level != Over {
            return;
          }
          Restart(value.value, now);
          fx := Promote(now, w, fx.(persist := true));
      }
    }
  }

  // ---- Rows of host_alert_episodes ----

  /** A row; its primary key is the `Key` the table maps it from. */
  datatype EpisodeRow = EpisodeRow(
    status: StatusColumn,
    startedAt: int,
    openedAt: Option<int>,
    resolvedAt: Option<int>,
    lastExceedAt: int,
    lastNotifiedAt: Option<int>,
    lastValue: Option<real>,
    threshold: int,
    exceedCount: int,
    notifyIds: string)

  function JoinIds(ids: seq<Uuid>): string {
    if ids == [] then ""
    else if |ids| == 1 then ids[0]
    else ids[0] + "," + JoinIds(ids[1..])
  }

  /** The length of the part of `raw` before its first comma. */
  function PieceLength(raw: string): (n: nat)
    ensures n <= |raw|
    ensures ',' !in raw[..n]
    ensures n < |raw| ==> raw[n] == ','
  {
    if raw == "" || raw[0] == ',' then 0 else 1 + PieceLength(raw[1..])
  }

  function ParsePiece(piece: string): seq<Uuid> {
    if piece != "" && IsUuidText(piece) then [piece] else []
  }

  /** Splits the column at commas and keeps the pieces that are UUIDs. */
  function SplitIds(raw: string): seq<Uuid>
    decreases |raw|
  {
    var n := PieceLength(raw);
    ParsePiece(raw[..n]) + if n < |raw| then SplitIds(raw[n + 1..]) else []
  }

  lemma {:induction false} PieceOfText(text: string, rest: string)
    requires ',' !in text && (rest == "" || rest[0] == ',')
    ensures PieceLength(text + rest) == |text|
  {
    if text == "" {
      assert text + rest == rest;
    } else {
      assert (text + rest)[1..] == text[1..] + rest;
      PieceOfText(text[1..], rest);
    }
  }

  lemma UuidHasNoComma(id: Uuid)
    ensures ',' !in id
  {
    assert forall i | 0 <= i < |id| :: HexOrDash(id[i]);
  }

  /** The column written from a list of UUIDs reads back as the same list. */
  lemma {:induction false} SplitJoinRoundTrip(ids: seq<Uuid>)
    ensures SplitIds(JoinIds(ids)) == ids
  {
    if ids == [] {
    } else if |ids| == 1 {
      assert ids[0] + "" == ids[0];
      UuidHasNoComma(ids[0]);
      PieceOfText(ids[0], "");
    } else {
      var rest: string := "," + JoinIds(ids[1..]);
      UuidHasNoComma(ids[0]);
      PieceOfText(ids[0], rest);
      assert JoinIds(ids) == ids[0] + rest;
      assert (ids[0] + rest)[..36] == ids[0];
      assert (ids[0] + rest)[37..] == JoinIds(ids[1..]);
      SplitJoinRoundTrip(ids[1..]);
    }
  }

  /** The column holds the ids with one comma between two of them. */
  lemma {:induction false} JoinedByCommas(xs: seq<Uuid>, ys: seq<Uuid>)
    requires xs != [] && ys != []
    ensures JoinIds(xs + ys) == JoinIds(xs) + "," + JoinIds(ys) && JoinIds([xs[0]]) == xs[0]
    decreases |xs|
  {
    if |xs| == 1 {
      assert (xs + ys)[1..] == ys;
    } else {
      assert (xs + ys)[1..] == xs[1..] + ys;
      JoinedByCommas(xs[1..], ys);
    }
  }

  lemma SplitPiece(piece: string)
    requires ',' !in piece
    ensures SplitIds(piece) == if IsUuidText(piece) then [piece] else []
  {
    PieceOfText(piece, "");
    assert piece + "" == piece && piece[..|piece|] == piece;
  }

  lemma SplitFirst(piece: string, rest: string)
    requires ',' !in piece
    ensures SplitIds(piece + ("," + rest)) == SplitIds(piece) + SplitIds(rest)
  {
    var raw := piece + ("," + rest);
    PieceOfText(piece, "," + rest);
    SplitPiece(piece);
    assert raw[..|piece|] == piece && raw[|piece| + 1..] == rest;
    hide PieceLength, IsUuidText;
    assert SplitIds(raw) == ParsePiece(piece) + SplitIds(rest);
  }

  /** Any column is read piece by piece between its commas, and a piece that is no UUID is skipped. */
  lemma {:induction false} SplitAtComma(a: string, b: string)
    ensures SplitIds(a + ("," + b)) == SplitIds(a) + SplitIds(b)
    ensures ',' !in a ==> SplitIds(a) == if IsUuidText(a) then [a] else []
    decreases |a|
  {
    hide SplitIds, IsUuidText;
    var n := PieceLength(a);
    if n == |a| {
      assert a[..n] == a;
      SplitPiece(a);
      SplitFirst(a, b);
    } else {
      var piece, rest := a[..n], a[n + 1..];
      assert a == piece + ("," + rest);
      SplitAtComma(rest, b);
      SplitFirst(piece, rest);
      SplitFirst(piece, rest + ("," + b));
      Regroup(piece, "," + rest, "," + b);
      Regroup(",", rest, "," + b);
      Regroup(SplitIds(piece), SplitIds(rest), SplitIds(b));
    }
  }

  /** What `upsert` writes for an episode. */
  function RowOf(e: EpisodeState): EpisodeRow {
    EpisodeRow(Word(e.status), e.startedAt, e.openedAt, e.resolvedAt, e.lastExceedAt, e.lastNotifiedAt,
               Some(e.lastValue), e.threshold, e.exceedCount, JoinIds(e.notifyIds))
  }

  /** What `into_episode` makes of a row; None for a row that has to be skipped. */
  function IntoEpisode(key: Key, row: EpisodeRow): Option<EpisodeState> {
    var status := ParseStatus(row.status);
    if status.None? || !(0 <= row.threshold < 256) then None
    else Some(EpisodeState(
                key, status.value, row.startedAt, row.openedAt, row.resolvedAt, row.lastExceedAt, row.lastNotifiedAt,
                None, if row.lastValue.Some? then row.lastValue.value else 0.0, row.threshold, row.exceedCount,
                SplitIds(row.notifyIds), true, false))
  }

  /** Writing an episode and reading it back loses the refresh throttle only. */
  lemma RowRoundTrip(e: EpisodeState)
    ensures IntoEpisode(e.key, RowOf(e)) == Some(e.(lastRefreshAt := None, persisted := true, dirty := false))
  {
    SplitJoinRoundTrip(e.notifyIds);
  }

  // ---- The runtime: memory and table ----

  /** The working copy in memory and the table. */
  datatype Store = Store(episodes: map<Key, EpisodeState>, table: map<Key, EpisodeRow>)

  datatype Evaluation = Evaluation(key: Key, threshold: Byte, value: Option<real>, windows: Windows, now: int)
  {
    predicate Exceeding() {
      value.Some? && value.value > threshold as real
    }
  }

  /** The episode `evaluate_metric` starts from, and what one step makes of it. */
  function StepOf(s: Store, ev: Evaluation): (EpisodeState, Effects) {
    var e := if ev.key in s.episodes then s.episodes[ev.key] else Pristine(ev.key, ev.threshold, ev.now);
    Advanced(e, ev.value, ev.threshold, ev.windows, ev.now)
  }

  /** The effects the evaluation carries out; none when it leaves through the fast path. */
  function EffectsOf(s: Store, ev: Evaluation): Effects {
    if !ev.Exceeding() && ev.key !in s.episodes then NO_EFFECTS
    else if StepOf(s, ev).0.IsPlaceholder() then NO_EFFECTS
    else StepOf(s, ev).1
  }

  /** The episode after its effects; `delivery` holds the ids of the notifications created, if that worked. */
  function Delivered(e: EpisodeState, fx: Effects, now: int, delivery: Option<seq<Uuid>>): EpisodeState {
    if fx.notifyOpen || fx.renotify then
      var e := e.(persisted := true);
      if delivery.Some? then e.(notifyIds := delivery.value, lastNotifiedAt := Some(now)) else e
    else if fx.notifyResolved then
      if delivery.Some? then e.(notifyIds := []) else e
    else if fx.refresh then e
    else if fx.persist then e.(persisted := true)
    else e
  }

  /** Whether carrying out the effects upserts the row: a refresh returns before a pending persist. */
  predicate Upserts(fx: Effects) {
    fx.notifyOpen || fx.renotify || fx.notifyResolved || (fx.persist && !fx.refresh)
  }

  function Evaluated(s: Store, ev: Evaluation, delivery: Option<seq<Uuid>>, writeOk: bool): Store {
    if !ev.Exceeding() && ev.key !in s.episodes then s
    else
      var (e, fx) := StepOf(s, ev);
      if e.IsPlaceholder() then s
      else if fx.delete then
        Store(s.episodes - {ev.key}, if e.persisted && writeOk then s.table - {ev.key} else s.table)
      else
        var e := Delivered(e, fx, ev.now, delivery);
        Store(s.episodes[ev.key := e], if Upserts(fx) && writeOk then s.table[ev.key := RowOf(e)] else s.table)
  }

  predicate NeedsFlush(e: EpisodeState) {
    e.dirty || !e.persisted
  }

  /** The entries a flush writes; `failed` are the keys whose upsert fails. */
  function FlushTargets(s: Store, failed: set<Key>): set<Key> {
    set k | k in s.episodes && NeedsFlush(s.episodes[k]) && k !in failed
  }

  function MarkFlushed(episodes: map<Key, EpisodeState>, done: set<Key>): map<Key, EpisodeState> {
    map k | k in episodes :: if k in done then episodes[k].(dirty := false, persisted := true) else episodes[k]
  }

  function RowsOf(episodes: map<Key, EpisodeState>, done: set<Key>): map<Key, EpisodeRow> {
    map k | k in done && k in episodes :: RowOf(episodes[k])
  }

  function Flushed(s: Store, failed: set<Key>): Store {
    var done := FlushTargets(s, failed);
    Store(MarkFlushed(s.episodes, done), s.table + RowsOf(s.episodes, done))
  }

  lemma FlushedNone(s: Store, failed: set<Key>)
    requires FlushTargets(s, failed) == {}
    ensures Flushed(s, failed) == s
  {
  }

  lemma MarkOne(episodes: map<Key, EpisodeState>, done: set<Key>, key: Key)
    requires key in episodes
    ensures MarkFlushed(episodes, done + {key})
         == MarkFlushed(episodes, done)[key := episodes[key].(dirty := false, persisted := true)]
    ensures RowsOf(episodes, done + {key}) == RowsOf(episodes, done)[key := RowOf(episodes[key])]
  {
  }

  /** One more upsert that works flushes one more entry. */
  lemma FlushedOne(s: Store, failed: set<Key>, key: Key)
    requires key in s.episodes && NeedsFlush(s.episodes[key]) && key in failed
    ensures Flushed(s, failed - {key})
         == Store(Flushed(s, failed).episodes[key := s.episodes[key].(dirty := false, persisted := true)],
                  Flushed(s, failed).table[key := RowOf(s.episodes[key])])
  {
    var done := FlushTargets(s, failed);
    assert FlushTargets(s, failed - {key}) == done + {key};
    MarkOne(s.episodes, done, key);
    assert s.table + RowsOf(s.episodes, done)[key := RowOf(s.episodes[key])]
        == (s.table + RowsOf(s.episodes, done))[key := RowOf(s.episodes[key])];
  }

  /** `active` is the answer of the query for active hosts, None when it fails. */
  function Cleaned(s: Store, active: Option<set<Uuid>>, failed: set<Key>): Store {
    if active.None? then s
    else
      var stale := set k | k in s.episodes && k.host !in active.value;
      Store(s.episodes - stale, s.table - (stale - failed))
  }

  predicate ExpiredEpisode(e: EpisodeState, now: int) {
    e.status == Resolved && e.resolvedAt.Some? && e.resolvedAt.value < now - RESOLVED_KEEP_SECS
  }

  predicate ExpiredRow(row: EpisodeRow, now: int) {
    row.status == Word(Resolved) && row.resolvedAt.Some? && row.resolvedAt.value < now - RESOLVED_KEEP_SECS
  }

  /** Memory is purged by the clock of the process, the table by the clock of the database. */
  function Purged(s: Store, now: int, tableNow: int, deleteOk: bool): Store {
    Store(map k | k in s.episodes && !ExpiredEpisode(s.episodes[k], now) :: s.episodes[k],
          if deleteOk then map k | k in s.table && !ExpiredRow(s.table[k], tableNow) :: s.table[k] else s.table)
  }

  /** A purge takes what has been over for more than an hour, and nothing else. */
  lemma PurgedAt(s: Store, now: int, tableNow: int, deleteOk: bool, k: Key)
    ensures var after := Purged(s, now, tableNow, deleteOk).episodes;
            && (k in after <==> k in s.episodes
                                && (s.episodes[k].status != Resolved || s.episodes[k].resolvedAt == None
                                    || now - s.episodes[k].resolvedAt.value <= 3600))
            && (k in after ==> after[k] == s.episodes[k])
    ensures var after := Purged(s, now, tableNow, deleteOk).table;
            && (k in after <==> k in s.table
                                && (!deleteOk || s.table[k].status != Word(Resolved) || s.table[k].resolvedAt == None
                                    || tableNow - s.table[k].resolvedAt.value <= 3600))
            && (k in after ==> after[k] == s.table[k])
  {
  }

  function Hydrated(s: Store, readOk: bool): Store {
    if !readOk then s
    else
      s.(episodes := s.episodes
                     + map k | k in s.table && IntoEpisode(k, s.table[k]).Some? :: IntoEpisode(k, s.table[k]).value)
  }

  /** A row is read if its status is one of the three words and its threshold fits a byte, column by column. */
  lemma HydratedAt(s: Store, readOk: bool, k: Key)
    ensures var after := Hydrated(s, readOk).episodes;
            if readOk && k in s.table && s.table[k].status.Word? && 0 <= s.table[k].threshold < 256 then
              && k in after
              && var e, row := after[k], s.table[k];
                 && e.key == k && e.status == row.status.status && e.startedAt == row.startedAt
                 && e.openedAt == row.openedAt && e.resolvedAt == row.resolvedAt
                 && e.lastExceedAt == row.lastExceedAt && e.lastNotifiedAt == row.lastNotifiedAt
                 && e.lastRefreshAt == None && e.threshold == row.threshold && e.exceedCount == row.exceedCount
                 && e.lastValue == (if row.lastValue.Some? then row.lastValue.value else 0.0)
                 && e.notifyIds == SplitIds(row.notifyIds) && e.persisted && !e.dirty
            else (k in after <==> k in s.episodes) && (k in after ==> after[k] == s.episodes[k])
    ensures Hydrated(s, readOk).table == s.table
  {
  }

  class AlertRuntime {
    var episodes: map<Key, EpisodeState>
    var table: map<Key, EpisodeRow>

    /** A new process: nothing in memory, the table as the last process left it. */
    constructor (rows: map<Key, EpisodeRow>)
      ensures Snapshot() == Store(map[], rows)
    {
      episodes := map[];
      table := rows;
    }

    function Snapshot(): Store
      reads this
    {
      Store(episodes, table)
    }

    method Upsert(e: EpisodeState, writeOk: bool)
      modifies this`table
      ensures table == if writeOk then old(table)[e.key := RowOf(e)] else old(table)
    {
      if writeOk {
        table := table[e.key := RowOf(e)];
      }
    }

    method DeleteRow(key: Key, writeOk: bool)
      modifies this`table
      ensures table == if writeOk then old(table) - {key} else old(table)
    {
      if writeOk {
        table := table - {key};
      }
    }

    method ApplyEffects(episode: Episode, fx: Effects, now: int, delivery: Option<seq<Uuid>>, writeOk: bool)
      modifies this`table, episode
      ensures episode.View() == Delivered(old(episode.View()), fx, now, delivery)
      ensures table == if Upserts(fx) && writeOk then old(table)[episode.key := RowOf(episode.View())] else old(table)
    {
      if fx.notifyOpen || fx.renotify {
        if delivery.Some? {
          episode.notifyIds := delivery.value;
          episode.lastNotifiedAt := Some(now);
        }
        episode.persisted := true;
        Upsert(episode.View(), writeOk);
        return;
      }
      if fx.notifyResolved {
        if delivery.Some? {
          episode.notifyIds := [];
        }
        Upsert(episode.View(), writeOk);
        return;
      }
      if fx.refresh {
        return;
      }
      if fx.persist {
        episode.persisted := true;
        Upsert(episode.View(), writeOk);
      }
    }

    method EvaluateMetric(ev: Evaluation, delivery: Option<seq<Uuid>>, writeOk: bool)
      requires ev.key in episodes ==> episodes[ev.key].key == ev.key
      modifies this
      ensures Snapshot() == Evaluated(old(Snapshot()), ev, delivery, writeOk)
    {
      var key := ev.key;
      if !ev.Exceeding() && key !in episodes {
        return;
      }
      var current := if key in episodes then episodes[key] else Pristine(key, ev.threshold, ev.now);
      var episode := new Episode(current);
      var fx := episode.Step(ev.value, ev.threshold, ev.windows, ev.now);
      if episode.View().IsPlaceholder() {
        return;
      }
      episodes := episodes[key := episode.View()];
      if fx.delete {
        episodes := episodes - {key};
        if episode.persisted {
          DeleteRow(key, writeOk);
        }
        return;
      }
      if fx == NO_EFFECTS {
        return;
      }
      ApplyEffects(episode, fx, ev.now, delivery, writeOk);
      episodes := episodes[key := episode.View()];
    }

    method FlushEntry(key: Key, writeOk: bool)
      requires key in episodes && episodes[key].key == key
      modifies this
      ensures Snapshot()
           == if writeOk
              then Store(old(episodes)[key := old(episodes)[key].(dirty := false, persisted := true)],
                         old(table)[key := RowOf(old(episodes)[key])])
              else old(Snapshot())
    {
      var episode := new Episode(episodes[key]);
      Upsert(episode.View(), writeOk);
      if writeOk {
        episode.dirty := false;
        episode.persisted := true;
        episodes := episodes[episode.key := episode.View()];
      }
    }

    method FlushDirty(failed: set<Key>)
      requires forall k | k in episodes :: episodes[k].key == k
      modifies this
      ensures Snapshot() == Flushed(old(Snapshot()), failed)
      ensures episodes.Keys == old(episodes).Keys
      ensures forall k | k in episodes ::
                episodes[k] == if (old(episodes)[k].dirty || !old(episodes)[k].persisted) && k !in failed
                               then old(episodes)[k].(dirty := false, persisted := true) else old(episodes)[k]
      ensures forall k | k in old(table) || k in table ::
                if k in episodes && (old(episodes)[k].dirty || !old(episodes)[k].persisted) && k !in failed
                then k in table && table[k] == RowOf(episodes[k])
                else k in old(table) && k in table && table[k] == old(table)[k]
    {
      ghost var before := Snapshot();
      var todo := set k | k in episodes && NeedsFlush(episodes[k]);
      FlushedNone(before, failed + todo);
      while todo != {}
        invariant todo <= before.episodes.Keys
        invariant forall k | k in todo :: NeedsFlush(before.episodes[k])
        invariant Snapshot() == Flushed(before, failed + todo)
        decreases todo
      {
        var key :| key in todo;
        FlushedOne(before, failed + todo, key);
        assert failed + (todo - {key}) == if key in failed then failed + todo else failed + todo - {key};
        FlushEntry(key, key !in failed);
        todo := todo - {key};
      }
      assert failed + {} == failed;
    }

    method CleanupMissing(active: Option<set<Uuid>>, failed: set<Key>)
      modifies this
      ensures Snapshot() == Cleaned(old(Snapshot()), active, failed)
      ensures active.None? ==> episodes == old(episodes) && table == old(table)
      ensures active.Some? ==>
                && (forall k :: k in episodes <==> k in old(episodes) && k.host in active.value)
                && (forall k | k in episodes :: episodes[k] == old(episodes)[k])
                && (forall k :: k in table <==> k in old(table)
                                                && !(k in old(episodes) && k.host !in active.value && k !in failed))
                && forall k | k in table :: table[k] == old(table)[k]
    {
      if active.None? {
        return;
      }
      var stale := set k | k in episodes && k.host !in active.value;
      var todo := stale;
      while todo != {}
        invariant todo <= stale
        invariant episodes == old(episodes) - (stale - todo)
        invariant table == old(table) - (stale - todo - failed)
        decreases todo
      {
        var key :| key in todo;
        episodes := episodes - {key};
        DeleteRow(key, key !in failed);
        todo := todo - {key};
      }
    }

    method PurgeResolved(now: int, tableNow: int, deleteOk: bool)
      modifies this
      ensures Snapshot() == Purged(old(Snapshot()), now, tableNow, deleteOk)
    {
      var cutoff := now - RESOLVED_KEEP_SECS;
      episodes := map k | k in episodes
                          && (episodes[k].status != Resolved || episodes[k].resolvedAt.None?
                              || episodes[k].resolvedAt.value >= cutoff) :: episodes[k];
      if deleteOk {
        table := map k | k in table
                         && !(table[k].status == Word(Resolved) && table[k].resolvedAt.Some?
                              && table[k].resolvedAt.value < tableNow - RESOLVED_KEEP_SECS) :: table[k];
      }
    }

    method Hydrate(readOk: bool)
      modifies this`episodes
      ensures Snapshot() == Hydrated(old(Snapshot()), readOk)
    {
      if !readOk {
        return;
      }
      ghost var after := Hydrated(Snapshot(), true).episodes;
      var todo := table.Keys;
      while todo != {}
        invariant todo <= table.Keys
        invariant episodes.Keys <= after.Keys <= episodes.Keys + todo
        invariant forall k | k in old(episodes) && k in todo :: k in episodes && episodes[k] == old(episodes[k])
        invariant forall k | k in episodes && k in todo :: k in old(episodes)
        invariant forall k | k in after && k !in todo :: k in episodes && episodes[k] == after[k]
        decreases todo
      {
        var key :| key in todo;
        var episode := IntoEpisode(key, table[key]);
        if episode.Some? {
          episodes := episodes[episode.value.key := episode.value];
        }
        todo := todo - {key};
      }
    }
  }
}
