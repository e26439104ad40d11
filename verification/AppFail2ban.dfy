/**
 Banning after repeated login failures (crates/foims-auth/src/app_fail2ban.rs).

 Instants are whole seconds. A record keeps only the failures that may still count and the end of the
 latest ban; the full log of what happened to a key keeps everything since the key was last reset.
 */
module AppFail2ban {
  import opened Wrappers

  const IDENTIFIER_MAX_CHARS := 64

  /** The ranges are those that loading and updating the configuration enforce. */
  datatype RawConfig = Config(findtime: nat, maxRetry: nat, bantime: nat, enabled: bool)

  type Config = c: RawConfig | 60 <= c.findtime <= 86400 && 1 <= c.maxRetry <= 100 && 60 <= c.bantime <= 604800
    witness Config(600, 5, 1800, true)

  datatype FailRecord = FailRecord(failures: seq<int>, bannedUntil: Option<int>)

  const NEW_RECORD := FailRecord([], None)

  type Records = map<string, FailRecord>

  // ---- Keys ----

  /** Unicode category Cc. */
  predicate IsControl(c: char) {
    c as int <= 0x1F || 0x7F <= c as int <= 0x9F
  }

  function WithoutControls(raw: string): string {
    if raw == "" then ""
    else WithoutControls(raw[..|raw| - 1]) + if IsControl(raw[|raw| - 1]) then "" else [raw[|raw| - 1]]
  }

  function SanitizeIdentifier(raw: string): string {
    var kept := WithoutControls(raw);
    if |kept| <= IDENTIFIER_MAX_CHARS then kept else kept[..IDENTIFIER_MAX_CHARS]
  }

  lemma {:induction false} NoControlsLeft(raw: string)
    ensures forall i | 0 <= i < |WithoutControls(raw)| :: !IsControl(WithoutControls(raw)[i])
  {
    if raw == "" {
    } else {
      NoControlsLeft(raw[..|raw| - 1]);
    }
  }

  lemma {:induction false} NothingToRemove(s: string)
    requires forall i | 0 <= i < |s| :: !IsControl(s[i])
    ensures WithoutControls(s) == s
  {
    if s == "" {
    } else {
      NothingToRemove(s[..|s| - 1]);
      assert s == s[..|s| - 1] + [s[|s| - 1]];
    }
  }

  /** What the source keeps of an identifier: everything but the category Cc, which is U+0000-1F and U+007F-9F. */
  predicate IsPlain(c: char) {
    0x20 <= c as int < 0x7F || 0xA0 <= c as int
  }

  lemma {:induction false} PlainArePlaced(raw: string) returns (at: seq<nat>)
    ensures ArePlaces(at, raw, IsPlain) && |WithoutControls(raw)| == |at|
    ensures forall i | 0 <= i < |at| :: WithoutControls(raw)[i] == raw[at[i]]
  {
    if raw == "" {
      at := [];
    } else {
      var n := |raw| - 1;
      var before := PlainArePlaced(raw[..n]);
      OnePlaceMore(before, raw[..n], raw[n], IsPlain);
      assert raw[..n] + [raw[n]] == raw;
      at := before + if IsPlain(raw[n]) then [n] else [];
    }
  }

  /** A sanitized identifier is the first 64 plain characters of the text, or all of them if there are fewer. */
  lemma SanitizedIsPrefix(raw: string) returns (at: seq<nat>)
    ensures ArePlaces(at, raw, IsPlain)
    ensures |SanitizeIdentifier(raw)| == if |at| <= 64 then |at| else 64
    ensures forall i | 0 <= i < |SanitizeIdentifier(raw)| :: SanitizeIdentifier(raw)[i] == raw[at[i]]
  {
    at := PlainArePlaced(raw);
  }

  /** A text of at most 64 plain characters is its own key. */
  predicate IsClean(s: string) {
    |s| <= 64 && forall i | 0 <= i < |s| :: IsPlain(s[i])
  }

  lemma CleanKeys(s: string)
    requires IsClean(s)
    ensures SanitizeIdentifier(s) == s && IpKey(s) == "ip:" + s && UserKey(s) == "user:" + s
  {
    NothingToRemove(s);
  }

  /** A sanitized identifier has at most 64 characters, no control character, and is left alone by sanitizing again. */
  lemma SanitizedIsClean(raw: string)
    ensures |SanitizeIdentifier(raw)| <= IDENTIFIER_MAX_CHARS
    ensures forall i | 0 <= i < |SanitizeIdentifier(raw)| :: !IsControl(SanitizeIdentifier(raw)[i])
    ensures SanitizeIdentifier(SanitizeIdentifier(raw)) == SanitizeIdentifier(raw)
  {
    NoControlsLeft(raw);
    NothingToRemove(SanitizeIdentifier(raw));
  }

  function IpKey(ip: string): string {
    "ip:" + SanitizeIdentifier(ip)
  }

  function UserKey(username: string): string {
    "user:" + SanitizeIdentifier(username)
  }

  lemma KeysDiffer(ip: string, username: string)
    ensures IpKey(ip) != UserKey(username)
  {
    assert IpKey(ip)[0] == 'i' && UserKey(username)[0] == 'u';
  }

  // ---- The table ----

  /** The instants less than `window` seconds ago. */
  function Fresh(times: seq<int>, now: int, window: nat): seq<int> {
    if times == [] then []
    else
      var last := times[|times| - 1];
      Fresh(times[..|times| - 1], now, window) + if now - last < window then [last] else []
  }

  lemma {:induction false} FreshHolds(times: seq<int>, now: int, window: nat)
    ensures forall t :: t in Fresh(times, now, window) <==> t in times && now - t < window
    ensures Fresh(times, now, window) != [] <==> exists t :: t in times && now - t < window
  {
    if times == [] {
    } else {
      var n := |times| - 1;
      FreshHolds(times[..n], now, window);
      assert times == times[..n] + [times[n]];
      if Fresh(times, now, window) != [] {
        assert Fresh(times, now, window)[0] in Fresh(times, now, window);
      }
    }
  }

  function RecordOf(records: Records, key: string): FailRecord {
    if key in records then records[key] else NEW_RECORD
  }

  function Failed(c: Config, r: FailRecord, now: int): FailRecord {
    var failures := Fresh(r.failures, now, c.findtime) + [now];
    FailRecord(failures, if |failures| >= c.maxRetry then Some(now + c.bantime) else r.bannedUntil)
  }

  /** Whether one more failure now is the last of `maxRetry` that the record holds within `findtime`. */
  predicate Reaches(c: Config, r: FailRecord, now: int) {
    |Fresh(r.failures, now, c.findtime)| + 1 >= c.maxRetry
  }

  function Pruned(c: Config, r: FailRecord, now: int): FailRecord {
    FailRecord(Fresh(r.failures, now, c.findtime),
               if r.bannedUntil.Some? && now >= r.bannedUntil.value then None else r.bannedUntil)
  }

  function Cleaned(c: Config, records: Records, now: int): Records {
    map key | key in records && Pruned(c, records[key], now) != NEW_RECORD :: Pruned(c, records[key], now)
  }

  predicate BannedAt(r: FailRecord, now: int) {
    r.bannedUntil.Some? && now < r.bannedUntil.value
  }

  datatype Op =
    | Failure(ip: string, username: string, now: int)
    | Success(ip: string, username: string)
    | Cleanup(now: int)
    | Ban(ip: string, now: int)
    | Unban(ip: string)

  /** The table after one operation while the configuration is `c`. */
  function Next(c: Config, records: Records, op: Op): Records {
    match op
    case Failure(ip, username, now) =>
      if !c.enabled then records
      else
        var ipKey, userKey := IpKey(ip), UserKey(username);
        records[ipKey := Failed(c, RecordOf(records, ipKey), now)]
               [userKey := Failed(c, RecordOf(records, userKey), now)]
    case Success(ip, username) => records - {IpKey(ip), UserKey(username)}
    case Cleanup(now) => Cleaned(c, records, now)
    case Ban(ip, now) =>
      if !c.enabled then records
      else
        var key := IpKey(ip);
        records[key := RecordOf(records, key).(bannedUntil := Some(now + c.bantime))]
    case Unban(ip) => if IpKey(ip) in records then records[IpKey(ip) := NEW_RECORD] else records
  }

  function Max(a: nat, b: nat): (m: nat)
    ensures m >= a && m >= b && (m == a || m == b)
  {
    if a >= b then a else b
  }

  datatype BanError = DisabledBanRejected

  class AppFail2ban {
    var records: Records
    var config: Config

    constructor (config: Config)
      ensures records == map[] && this.config == config
    {
      records, this.config := map[], config;
    }

    /** Counts a failure under one key. */
    method FailUnder(key: string, now: int) returns (reached: bool)
      modifies this`records
      ensures records == old(records)[key := Failed(config, RecordOf(old(records), key), now)]
      ensures reached <==> Reaches(config, RecordOf(old(records), key), now)
    {
      var record := if key in records then records[key] else NEW_RECORD;
      record := record.(failures := Fresh(record.failures, now, config.findtime) + [now]);
      reached := |record.failures| >= config.maxRetry;
      if reached {
        record := record.(bannedUntil := Some(now + config.bantime));
      }
      records := records[key := record];
    }

    /** Counts a failure under both keys; returns whether one of them is banned by it. */
    method RecordLoginFailure(ip: string, username: string, now: int) returns (banned: bool)
      modifies this`records
      ensures records == Next(config, old(records), Failure(ip, username, now))
      ensures !config.enabled ==> records == old(records) && !banned
      ensures config.enabled ==>
                && records.Keys == old(records).Keys + {IpKey(ip), UserKey(username)}
                && (banned <==> |records[IpKey(ip)].failures| >= config.maxRetry
                                || |records[UserKey(username)].failures| >= config.maxRetry)
                && forall key | key in records ::
                     if key in {IpKey(ip), UserKey(username)}
                     then && records[key].failures
                             == Fresh(RecordOf(old(records), key).failures, now, config.findtime) + [now]
                          && records[key].bannedUntil
                             == if |records[key].failures| >= config.maxRetry then Some(now + config.bantime)
                                else RecordOf(old(records), key).bannedUntil
                     else key in old(records) && records[key] == old(records)[key]
    {
      banned := false;
      if !config.enabled {
        return;
      }
      KeysDiffer(ip, username);
      var keys := [IpKey(ip), UserKey(username)];
      ghost var first, second := RecordOf(records, keys[0]), RecordOf(records, keys[1]);
      for i := 0 to 2
        invariant i == 0 ==> records == old(records)
        invariant i == 1 ==> records == old(records)[keys[0] := Failed(config, first, now)]
        invariant i == 2 ==>
            records == old(records)[keys[0] := Failed(config, first, now)][keys[1] := Failed(config, second, now)]
        invariant banned <==> (i >= 1 && Reaches(config, first, now)) || (i >= 2 && Reaches(config, second, now))
      {
        var reached := FailUnder(keys[i], now);
        banned := banned || reached;
      }
    }

    method RecordLoginSuccess(ip: string, username: string)
      modifies this`records
      ensures records == Next(config, old(records), Success(ip, username))
      ensures forall key :: key in records <==> key in old(records) && key != IpKey(ip) && key != UserKey(username)
      ensures forall key | key in records :: records[key] == old(records)[key]
    {
      records := records - {IpKey(ip)};
      records := records - {UserKey(username)};
      assert records == old(records) - {IpKey(ip), UserKey(username)};
    }

    method CleanupExpiredRecords(now: int)
      modifies this`records
      ensures records == Next(config, old(records), Cleanup(now))
      ensures forall key :: key in records <==>
                && key in old(records)
                && ((exists t :: t in old(records)[key].failures && now - t < config.findtime)
                    || (old(records)[key].bannedUntil.Some? && now < old(records)[key].bannedUntil.value))
    {
      var todo := records.Keys;
      while todo != {}
        invariant todo <= old(records).Keys
        invariant forall key | key in records ::
            && key in old(records)
            && records[key] == if key in todo then old(records)[key] else Pruned(config, old(records)[key], now)
        invariant forall key | key in old(records) ::
            key in records <==> key in todo || Pruned(config, old(records)[key], now) != NEW_RECORD
        decreases todo
      {
        var key :| key in todo;
        var record := records[key];
        record := record.(failures := Fresh(record.failures, now, config.findtime));
        if record.bannedUntil.Some? && now >= record.bannedUntil.value {
          record := record.(bannedUntil := None);
        }
        if record.failures != [] || record.bannedUntil.Some? {
          records := records[key := record];
        } else {
          records := records - {key};
        }
        todo := todo - {key};
      }
      assert records == Cleaned(config, old(records), now);
      forall key | key in old(records)
        ensures Fresh(old(records)[key].failures, now, config.findtime) != []
           <==> exists t :: t in old(records)[key].failures && now - t < config.findtime
      {
        FreshHolds(old(records)[key].failures, now, config.findtime);
      }
    }

    method BanIp(ip: string, now: int) returns (r: Result<(), BanError>)
      modifies this`records
      ensures records == Next(config, old(records), Ban(ip, now))
      ensures if config.enabled
              then r == Ok(()) && records == old(records)[IpKey(ip) := FailRecord(
                       RecordOf(old(records), IpKey(ip)).failures, Some(now + config.bantime))]
              else r == Err(DisabledBanRejected) && records == old(records)
    {
      if !config.enabled {
        return Err(DisabledBanRejected);
      }
      var key := IpKey(ip);
      var record := if key in records then records[key] else NEW_RECORD;
      records := records[key := record.(bannedUntil := Some(now + config.bantime))];
      r := Ok(());
    }

    method UnbanIp(ip: string)
      modifies this`records
      ensures records == Next(config, old(records), Unban(ip))
      ensures records == if IpKey(ip) in old(records) then old(records)[IpKey(ip) := FailRecord([], None)]
                         else old(records)
    {
      var key := IpKey(ip);
      if key in records {
        records := records[key := records[key].(bannedUntil := None, failures := [])];
      }
    }

    predicate IsKeyBanned(key: string, now: int)
      reads this
      ensures !config.enabled ==> !IsKeyBanned(key, now)
    {
      config.enabled && key in records && BannedAt(records[key], now)
    }

    function CountOf(key: string, now: int): nat
      reads this
    {
      if key in records then |Fresh(records[key].failures, now, config.findtime)| else 0
    }

    function FailureCount(ip: string, username: string, now: int): (n: nat)
      reads this
      ensures !config.enabled ==> n == 0
    {
      if !config.enabled then 0 else Max(CountOf(IpKey(ip), now), CountOf(UserKey(username), now))
    }
  }

  // ---- The full log ----

  datatype Event = LoginFailed(at: int) | ManuallyBanned(at: int)

  function LogAfter(log: seq<Event>, op: Op, key: string): seq<Event> {
    match op
    case Failure(ip, username, now) => if key in {IpKey(ip), UserKey(username)} then log + [LoginFailed(now)] else log
    case Success(ip, username) => if key in {IpKey(ip), UserKey(username)} then [] else log
    case Cleanup(_) => log
    case Ban(ip, now) => if key == IpKey(ip) then log + [ManuallyBanned(now)] else log
    case Unban(ip) => if key == IpKey(ip) then [] else log
  }

  /** Everything that happened to a key since it was last reset. */
  function Log(ops: seq<Op>, key: string): seq<Event> {
    if ops == [] then [] else LogAfter(Log(ops[..|ops| - 1], key), ops[|ops| - 1], key)
  }

  /** The number of failures in the log less than `findtime` ago. */
  function Failures(c: Config, log: seq<Event>, now: int): nat {
    if log == [] then 0
    else
      var last := log[|log| - 1];
      Failures(c, log[..|log| - 1], now) + if last.LoginFailed? && now - last.at < c.findtime then 1 else 0
  }

  /** The places of the failures in the log less than `findtime` ago. */
  function RecentFailures(c: Config, log: seq<Event>, now: int): set<nat> {
    set i: nat | i < |log| && log[i].LoginFailed? && now - log[i].at < c.findtime
  }

  /** The count of the log is the number of those failures. */
  lemma {:induction false} FailuresAreCounted(c: Config, log: seq<Event>, now: int)
    ensures Failures(c, log, now) == |RecentFailures(c, log, now)|
  {
    if log == [] {
    } else {
      var n := |log| - 1;
      FailuresAreCounted(c, log[..n], now);
      assert RecentFailures(c, log, now)
          == RecentFailures(c, log[..n], now)
             + if log[n].LoginFailed? && now - log[n].at < c.findtime then {n} else {};
    }
  }

  /** Whether the event bans: an administrator did, or the failure was the last of `maxRetry` within `findtime`. */
  predicate Bans(c: Config, log: seq<Event>, i: nat)
    requires i < |log|
  {
    log[i].ManuallyBanned? || Failures(c, log[..i + 1], log[i].at) >= c.maxRetry
  }

  /** A key is banned while some event that bans is less than `bantime` ago. */
  predicate Banned(c: Config, log: seq<Event>, now: int) {
    exists i | 0 <= i < |log| :: Bans(c, log, i) && now < log[i].at + c.bantime
  }

  function Run(c: Config, ops: seq<Op>): Records {
    if ops == [] then map[] else Next(c, Run(c, ops[..|ops| - 1]), ops[|ops| - 1])
  }

  function ClockAfter(clock: int, op: Op): int {
    if op.Success? || op.Unban? then clock else op.now
  }

  /** The instant of the last operation that has one. */
  function Clock(ops: seq<Op>, start: int): int {
    if ops == [] then start else ClockAfter(Clock(ops[..|ops| - 1], start), ops[|ops| - 1])
  }

  /** Time begins at `start` and never runs backwards. */
  predicate Monotone(ops: seq<Op>, start: int) {
    ops == [] || (Monotone(ops[..|ops| - 1], start) && Clock(ops[..|ops| - 1], start) <= Clock(ops, start))
  }

  // ---- The table agrees with the log ----

  lemma FreshExtends(times: seq<int>, t: int, now: int, window: nat)
    ensures Fresh(times + [t], now, window) == Fresh(times, now, window) + if now - t < window then [t] else []
  {
    assert (times + [t])[..|times|] == times;
  }

  /** Pruning loses nothing that would count later. */
  lemma {:induction false} FreshOfFresh(times: seq<int>, now: int, later: int, window: nat)
    requires now <= later
    ensures Fresh(Fresh(times, now, window), later, window) == Fresh(times, later, window)
  {
    if times == [] {
    } else {
      var n := |times| - 1;
      FreshOfFresh(times[..n], now, later, window);
      if now - times[n] < window {
        FreshExtends(Fresh(times[..n], now, window), times[n], later, window);
      } else {
        assert Fresh(times, now, window) == Fresh(times[..n], now, window);
      }
    }
  }

  lemma FailuresExtend(c: Config, log: seq<Event>, e: Event, now: int)
    ensures Failures(c, log + [e], now)
         == Failures(c, log, now) + if e.LoginFailed? && now - e.at < c.findtime then 1 else 0
  {
    assert (log + [e])[..|log|] == log;
  }

  /** A new event leaves the earlier ones as they were. */
  lemma BannedExtends(c: Config, log: seq<Event>, e: Event, now: int)
    ensures Banned(c, log + [e], now)
       <==> Banned(c, log, now) || (Bans(c, log + [e], |log|) && now < e.at + c.bantime)
  {
    var log' := log + [e];
    assert forall i | 0 <= i < |log| :: log'[..i + 1] == log[..i + 1] && log'[i] == log[i];
    assert forall i | 0 <= i < |log| :: Bans(c, log', i) == Bans(c, log, i);
    if Banned(c, log, now) {
      var i :| 0 <= i < |log| && Bans(c, log, i) && now < log[i].at + c.bantime;
      assert Bans(c, log', i);
    }
    assert log'[|log|] == e;
  }

  /** At `now` or later the record answers what the log says, and the log has nothing from after `now`. */
  ghost predicate Agrees(c: Config, r: FailRecord, log: seq<Event>, now: int) {
    && (forall i | 0 <= i < |log| :: log[i].at <= now)
    && (forall t | t >= now :: |Fresh(r.failures, t, c.findtime)| == Failures(c, log, t))
    && forall t | t >= now :: BannedAt(r, t) <==> Banned(c, log, t)
  }

  lemma FailureAgrees(c: Config, r: FailRecord, log: seq<Event>, was: int, now: int)
    requires Agrees(c, r, log, was) && was <= now
    ensures Agrees(c, Failed(c, r, now), log + [LoginFailed(now)], now)
  {
    var r', e := Failed(c, r, now), LoginFailed(now);
    forall t | t >= now
      ensures |Fresh(r'.failures, t, c.findtime)| == Failures(c, log + [e], t)
      ensures BannedAt(r', t) <==> Banned(c, log + [e], t)
    {
      FreshExtends(Fresh(r.failures, now, c.findtime), now, t, c.findtime);
      FreshOfFresh(r.failures, now, t, c.findtime);
      FailuresExtend(c, log, e, t);
      FailuresExtend(c, log, e, now);
      BannedExtends(c, log, e, t);
      assert (log + [e])[..|log| + 1] == log + [e];
    }
  }

  lemma BanAgrees(c: Config, r: FailRecord, log: seq<Event>, was: int, now: int)
    requires Agrees(c, r, log, was) && was <= now
    ensures Agrees(c, r.(bannedUntil := Some(now + c.bantime)), log + [ManuallyBanned(now)], now)
  {
    forall t | t >= now
      ensures Failures(c, log + [ManuallyBanned(now)], t) == Failures(c, log, t)
      ensures t < now + c.bantime <==> Banned(c, log + [ManuallyBanned(now)], t)
    {
      FailuresExtend(c, log, ManuallyBanned(now), t);
      BannedExtends(c, log, ManuallyBanned(now), t);
    }
  }

  lemma CleanupAgrees(c: Config, r: FailRecord, log: seq<Event>, was: int, now: int)
    requires Agrees(c, r, log, was) && was <= now
    ensures Agrees(c, Pruned(c, r, now), log, now)
  {
    forall t | t >= now
      ensures Fresh(Pruned(c, r, now).failures, t, c.findtime) == Fresh(r.failures, t, c.findtime)
    {
      FreshOfFresh(r.failures, now, t, c.findtime);
    }
  }

  lemma NewAgrees(c: Config, now: int)
    ensures Agrees(c, NEW_RECORD, [], now)
  {
  }

  /** What an operation makes of the record of one key. */
  function RecordAfter(c: Config, r: FailRecord, op: Op, key: string): FailRecord {
    match op
    case Failure(ip, username, now) =>
      if c.enabled && key in {IpKey(ip), UserKey(username)} then Failed(c, r, now) else r
    case Success(ip, username) => if key in {IpKey(ip), UserKey(username)} then NEW_RECORD else r
    case Cleanup(now) => Pruned(c, r, now)
    case Ban(ip, now) => if c.enabled && key == IpKey(ip) then r.(bannedUntil := Some(now + c.bantime)) else r
    case Unban(ip) => if key == IpKey(ip) then NEW_RECORD else r
  }

  lemma NextAt(c: Config, records: Records, op: Op, key: string)
    ensures RecordOf(Next(c, records, op), key) == RecordAfter(c, RecordOf(records, key), op, key)
  {
    if op.Failure? {
      KeysDiffer(op.ip, op.username);
    }
  }

  lemma StepAgrees(c: Config, r: FailRecord, log: seq<Event>, was: int, op: Op, key: string)
    requires c.enabled && Agrees(c, r, log, was) && was <= ClockAfter(was, op)
    ensures Agrees(c, RecordAfter(c, r, op, key), LogAfter(log, op, key), ClockAfter(was, op))
  {
    match op
    case Failure(_, _, now) => FailureAgrees(c, r, log, was, now);
    case Success(_, _) => NewAgrees(c, was);
    case Cleanup(now) => CleanupAgrees(c, r, log, was, now);
    case Ban(_, now) => BanAgrees(c, r, log, was, now);
    case Unban(_) => NewAgrees(c, was);
  }

  lemma {:induction false} TableAgreesWithLog(c: Config, ops: seq<Op>, start: int, key: string)
    requires c.enabled && Monotone(ops, start)
    ensures Agrees(c, RecordOf(Run(c, ops), key), Log(ops, key), Clock(ops, start))
  {
    if ops == [] {
      NewAgrees(c, start);
    } else {
      var init, op := ops[..|ops| - 1], ops[|ops| - 1];
      TableAgreesWithLog(c, init, start, key);
      NextAt(c, Run(c, init), op, key);
      StepAgrees(c, RecordOf(Run(c, init), key), Log(init, key), Clock(init, start), op, key);
    }
  }

  /** The count a login sees: the greater of the two counts in the full log. */
  lemma FailureCountIsThatOfLog(f: AppFail2ban, ops: seq<Op>, start: int, ip: string, username: string, now: int)
    requires f.config.enabled && f.records == Run(f.config, ops)
    requires Monotone(ops, start) && Clock(ops, start) <= now
    ensures f.FailureCount(ip, username, now)
         == Max(Failures(f.config, Log(ops, IpKey(ip)), now), Failures(f.config, Log(ops, UserKey(username)), now))
  {
    TableAgreesWithLog(f.config, ops, start, IpKey(ip));
    TableAgreesWithLog(f.config, ops, start, UserKey(username));
  }

  /** A key is banned exactly when the full log bans it. */
  lemma BannedIffLogBans(f: AppFail2ban, ops: seq<Op>, start: int, key: string, now: int)
    requires f.config.enabled && f.records == Run(f.config, ops)
    requires Monotone(ops, start) && Clock(ops, start) <= now
    ensures f.IsKeyBanned(key, now) <==> Banned(f.config, Log(ops, key), now)
  {
    TableAgreesWithLog(f.config, ops, start, key);
  }

  /**
   A failure of one IP address and user leaves the count and the bans of another IP address and user
   alone, if their names are clean and different.
   */
  lemma FailuresAreSeparate(f: AppFail2ban, f': AppFail2ban, ip: string, username: string, at: int,
                            otherIp: string, otherUser: string, now: int)
    requires f'.config == f.config && f'.records == Next(f.config, f.records, Failure(ip, username, at))
    requires IsClean(ip) && IsClean(otherIp) && ip != otherIp
    requires IsClean(username) && IsClean(otherUser) && username != otherUser
    ensures f'.FailureCount(otherIp, otherUser, now) == f.FailureCount(otherIp, otherUser, now)
    ensures f'.IsKeyBanned("ip:" + otherIp, now) == f.IsKeyBanned("ip:" + otherIp, now)
    ensures f'.IsKeyBanned("user:" + otherUser, now) == f.IsKeyBanned("user:" + otherUser, now)
  {
    CleanKeys(ip);
    CleanKeys(otherIp);
    CleanKeys(username);
    CleanKeys(otherUser);
    KeysDiffer(ip, otherUser);
    KeysDiffer(otherIp, username);
    assert ("ip:" + ip)[3..] == ip && ("ip:" + otherIp)[3..] == otherIp;
    assert ("user:" + username)[5..] == username && ("user:" + otherUser)[5..] == otherUser;
  }

  function WithoutCleanups(ops: seq<Op>): seq<Op> {
    if ops == [] then []
    else WithoutCleanups(ops[..|ops| - 1]) + if ops[|ops| - 1].Cleanup? then [] else [ops[|ops| - 1]]
  }

  lemma OneMore(ops: seq<Op>, op: Op, start: int, key: string)
    ensures Log(ops + [op], key) == LogAfter(Log(ops, key), op, key)
    ensures Clock(ops + [op], start) == ClockAfter(Clock(ops, start), op)
    ensures Monotone(ops + [op], start)
       <==> Monotone(ops, start) && Clock(ops, start) <= ClockAfter(Clock(ops, start), op)
  {
    assert (ops + [op])[..|ops|] == ops;
  }

  lemma {:induction false} CleanupsLeaveNoTrace(ops: seq<Op>, start: int, key: string)
    requires Monotone(ops, start)
    ensures Log(WithoutCleanups(ops), key) == Log(ops, key)
    ensures Monotone(WithoutCleanups(ops), start) && Clock(WithoutCleanups(ops), start) <= Clock(ops, start)
  {
    if ops == [] {
    } else {
      var init, op := ops[..|ops| - 1], ops[|ops| - 1];
      CleanupsLeaveNoTrace(init, start, key);
      if op.Cleanup? {
        assert WithoutCleanups(ops) == WithoutCleanups(init);
      } else {
        OneMore(WithoutCleanups(init), op, start, key);
      }
    }
  }

  /** Cleanups, whenever they come, change no later answer. */
  lemma CleanupsAreInvisible(c: Config, ops: seq<Op>, start: int, key: string, now: int)
    requires c.enabled && Monotone(ops, start) && Clock(ops, start) <= now
    ensures var with, without := RecordOf(Run(c, ops), key), RecordOf(Run(c, WithoutCleanups(ops)), key);
            && |Fresh(with.failures, now, c.findtime)| == |Fresh(without.failures, now, c.findtime)|
            && (BannedAt(with, now) <==> BannedAt(without, now))
  {
    CleanupsLeaveNoTrace(ops, start, key);
    TableAgreesWithLog(c, ops, start, key);
    TableAgreesWithLog(c, WithoutCleanups(ops), start, key);
  }
}
