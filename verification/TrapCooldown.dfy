/**
 The cooldown of incoming SNMP notifications (crates/foims-agent-service/src/trap.rs, `is_in_cooldown`).

 The table forgets stale sources only when it is full. The full log of accepted notifications forgets
 nothing; it is the reference for what the table decides. Instants are whole seconds.
 */
module TrapCooldown {

  const COOLDOWN_MAP_CAPACITY := 1024

  type Source = nat

  type Table = map<Source, int>

  predicate InCooldown(table: Table, source: Source, now: int, window: nat) {
    source in table && now - table[source] < window
  }

  function Retained(table: Table, now: int, window: nat): Table {
    map s | s in table && now - table[s] < window :: table[s]
  }

  /** The table when a notification has room in it: pruned, but only if it was full. */
  function MadeRoom(table: Table, now: int, window: nat): Table {
    if |table| >= COOLDOWN_MAP_CAPACITY then Retained(table, now, window) else table
  }

  predicate Accepts(table: Table, source: Source, now: int, window: nat) {
    !InCooldown(table, source, now, window) && |MadeRoom(table, now, window)| < COOLDOWN_MAP_CAPACITY
  }

  function Next(table: Table, source: Source, now: int, window: nat): Table {
    if InCooldown(table, source, now, window) then table
    else if Accepts(table, source, now, window) then MadeRoom(table, now, window)[source := now]
    else MadeRoom(table, now, window)
  }

  class CooldownTable {
    var cooldowns: Table

    constructor ()
      ensures cooldowns == map[]
    {
      cooldowns := map[];
    }

    /** Whether a notification is to be suppressed; one that is not is recorded. */
    method IsInCooldown(source: Source, now: int, cooldownSecs: nat) returns (suppressed: bool)
      modifies this
      ensures cooldowns == Next(old(cooldowns), source, now, cooldownSecs)
      ensures suppressed <==> !Accepts(old(cooldowns), source, now, cooldownSecs)
      ensures !suppressed ==> source in cooldowns && cooldowns[source] == now
      ensures |old(cooldowns)| < 1024 ==>
                cooldowns == if suppressed then old(cooldowns) else old(cooldowns)[source := now]
    {
      if source in cooldowns && now - cooldowns[source] < cooldownSecs {
        return true;
      }
      if |cooldowns| >= COOLDOWN_MAP_CAPACITY {
        cooldowns := map s | s in cooldowns && now - cooldowns[s] < cooldownSecs :: cooldowns[s];
        if |cooldowns| >= COOLDOWN_MAP_CAPACITY {
          return true;
        }
      }
      cooldowns := cooldowns[source := now];
      suppressed := false;
    }
  }

  // ---- The full log ----

  datatype Notification = Notification(source: Source, at: int)

  /** The sources accepted less than `window` ago. */
  function Recent(log: seq<Notification>, now: int, window: nat): set<Source> {
    set n | n in log && now - n.at < window :: n.source
  }

  /** What is accepted when nothing is ever forgotten: the source was quiet, and fewer than 1024 were not. */
  function Reference(arrivals: seq<Notification>, window: nat): seq<Notification> {
    if arrivals == [] then []
    else
      var log, n := Reference(arrivals[..|arrivals| - 1], window), arrivals[|arrivals| - 1];
      var recent := Recent(log, n.at, window);
      if n.source !in recent && |recent| < COOLDOWN_MAP_CAPACITY then log + [n] else log
  }

  datatype State = State(table: Table, accepted: seq<Notification>)

  function Run(arrivals: seq<Notification>, window: nat): State {
    if arrivals == [] then State(map[], [])
    else
      var s, n := Run(arrivals[..|arrivals| - 1], window), arrivals[|arrivals| - 1];
      State(Next(s.table, n.source, n.at, window),
            if Accepts(s.table, n.source, n.at, window) then s.accepted + [n] else s.accepted)
  }

  predicate InOrder(arrivals: seq<Notification>) {
    forall i, j | 0 <= i < j < |arrivals| :: arrivals[i].at <= arrivals[j].at
  }

  // ---- The table agrees with the log ----

  function FreshSources(table: Table, now: int, window: nat): set<Source> {
    Retained(table, now, window).Keys
  }

  /** From `now` on the table and the log know the same recent sources. */
  ghost predicate Agree(table: Table, log: seq<Notification>, now: int, window: nat) {
    && (forall n | n in log :: n.at <= now)
    && (forall s | s in table :: table[s] <= now)
    && forall t, s | t >= now :: s in FreshSources(table, t, window) <==> s in Recent(log, t, window)
  }

  lemma AcceptKeepsAgreement(table: Table, log: seq<Notification>, was: int, n: Notification, window: nat)
    requires Agree(table, log, was, window) && was <= n.at
    ensures Agree(table[n.source := n.at], log + [n], n.at, window)
  {
    var table', log' := table[n.source := n.at], log + [n];
    assert n in log' && forall m | m in log :: m in log';
    forall t, s | t >= n.at
      ensures s in FreshSources(table', t, window) <==> s in Recent(log', t, window)
    {
      assert s in FreshSources(table, t, window) <==> s in Recent(log, t, window);
      if s == n.source {
        assert s in FreshSources(table', t, window) <==> t - n.at < window;
        assert t - n.at < window ==> s in Recent(log', t, window);
        if m :| m in log' && t - m.at < window && m.source == s {
          assert m.at <= n.at;
        }
      } else {
        assert s in Recent(log', t, window) <==> s in Recent(log, t, window);
      }
    }
  }

  lemma PruningKeepsAgreement(table: Table, log: seq<Notification>, was: int, now: int, window: nat)
    requires Agree(table, log, was, window) && was <= now
    ensures Agree(MadeRoom(table, now, window), log, now, window)
  {
    forall t, s | t >= now
      ensures s in FreshSources(MadeRoom(table, now, window), t, window) <==> s in FreshSources(table, t, window)
    {
    }
  }

  lemma FreshIsRecent(table: Table, log: seq<Notification>, now: int, window: nat)
    requires Agree(table, log, now, window)
    ensures FreshSources(table, now, window) == Recent(log, now, window)
    ensures |Retained(table, now, window)| == |Recent(log, now, window)|
  {
    assert FreshSources(table, now, window) == Recent(log, now, window);
    assert |Retained(table, now, window)| == |FreshSources(table, now, window)|;
  }

  /** The table, pruned or not, decides as the full log does. */
  lemma AcceptsAsLog(table: Table, log: seq<Notification>, was: int, n: Notification, window: nat)
    requires Agree(table, log, was, window) && was <= n.at
    ensures Accepts(table, n.source, n.at, window)
       <==> n.source !in Recent(log, n.at, window) && |Recent(log, n.at, window)| < COOLDOWN_MAP_CAPACITY
  {
    assert Agree(table, log, n.at, window);
    FreshIsRecent(table, log, n.at, window);
    assert Retained(table, n.at, window).Keys <= table.Keys;
    SubsetSize(Retained(table, n.at, window).Keys, table.Keys);
    assert |Retained(table, n.at, window)| <= |table|;
  }

  lemma {:induction false} SubsetSize(a: set<Source>, b: set<Source>)
    requires a <= b
    ensures |a| <= |b|
    decreases |a|
  {
    if x :| x in a {
      SubsetSize(a - {x}, b - {x});
    }
  }

  lemma {:induction false} TableAgreesWithLog(arrivals: seq<Notification>, window: nat, now: int)
    requires InOrder(arrivals) && (arrivals != [] ==> arrivals[|arrivals| - 1].at <= now)
    ensures Agree(Run(arrivals, window).table, Run(arrivals, window).accepted, now, window)
    ensures Run(arrivals, window).accepted == Reference(arrivals, window)
  {
    if arrivals == [] {
    } else {
      var init, n := arrivals[..|arrivals| - 1], arrivals[|arrivals| - 1];
      var s := Run(init, window);
      TableAgreesWithLog(init, window, n.at);
      AcceptsAsLog(s.table, s.accepted, n.at, n, window);
      PruningKeepsAgreement(s.table, s.accepted, n.at, n.at, window);
      AcceptKeepsAgreement(MadeRoom(s.table, n.at, window), s.accepted, n.at, n, window);
    }
  }

  /**
   Whatever the table forgets, a notification is accepted exactly when none of its source was accepted
   less than the cooldown ago and fewer than 1024 sources were.
   */
  lemma AcceptedIsReference(arrivals: seq<Notification>, window: nat)
    requires InOrder(arrivals)
    ensures Run(arrivals, window).accepted == Reference(arrivals, window)
  {
    TableAgreesWithLog(arrivals, window, if arrivals == [] then 0 else arrivals[|arrivals| - 1].at);
  }

  /** The rule for one more notification, in terms of those accepted before. */
  lemma AcceptedIff(arrivals: seq<Notification>, n: Notification, window: nat)
    requires InOrder(arrivals + [n])
    ensures var log := Run(arrivals, window).accepted;
            Run(arrivals + [n], window).accepted
            == log + if && (forall m | m in log && m.source == n.source :: n.at - m.at >= window)
                        && |set m | m in log && n.at - m.at < window :: m.source| < 1024
                     then [n] else []
  {
    var all, log := arrivals + [n], Run(arrivals, window).accepted;
    assert all[..|all| - 1] == arrivals;
    assert InOrder(arrivals) by {
      assert forall i | 0 <= i < |arrivals| :: all[i] == arrivals[i];
    }
    AcceptedIsReference(arrivals, window);
    AcceptedIsReference(all, window);
    assert Recent(log, n.at, window) == set m | m in log && n.at - m.at < window :: m.source;
    assert n.source in Recent(log, n.at, window)
      <==> exists m :: m in log && n.at - m.at < window && m.source == n.source;
  }

  lemma {:induction false} TableIsBounded(arrivals: seq<Notification>, window: nat)
    ensures |Run(arrivals, window).table| <= 1024
  {
    if arrivals == [] {
    } else {
      TableIsBounded(arrivals[..|arrivals| - 1], window);
      var table, n := Run(arrivals[..|arrivals| - 1], window).table, arrivals[|arrivals| - 1];
      assert Retained(table, n.at, window).Keys <= table.Keys;
      SubsetSize(Retained(table, n.at, window).Keys, table.Keys);
      assert |Retained(table, n.at, window)| <= |table|;
    }
  }

  lemma {:induction false} ReferenceIsSpaced(arrivals: seq<Notification>, window: nat, i: nat, j: nat)
    requires InOrder(arrivals)
    requires i < j < |Reference(arrivals, window)|
    requires Reference(arrivals, window)[i].source == Reference(arrivals, window)[j].source
    ensures Reference(arrivals, window)[j].at - Reference(arrivals, window)[i].at >= window
  {
    var init, n := arrivals[..|arrivals| - 1], arrivals[|arrivals| - 1];
    var log := Reference(init, window);
    if j < |log| {
      ReferenceIsSpaced(init, window, i, j);
    } else {
      var earlier := log[i];
      assert n.at - earlier.at < window ==> earlier.source in Recent(log, n.at, window);
    }
  }

  /** Two accepted notifications of one source are at least the cooldown apart, also when capacity pruning runs. */
  lemma AcceptedAreSpaced(arrivals: seq<Notification>, window: nat, i: nat, j: nat)
    requires InOrder(arrivals)
    requires i < j < |Run(arrivals, window).accepted|
    requires Run(arrivals, window).accepted[i].source == Run(arrivals, window).accepted[j].source
    ensures Run(arrivals, window).accepted[j].at - Run(arrivals, window).accepted[i].at >= window
  {
    AcceptedIsReference(arrivals, window);
    ReferenceIsSpaced(arrivals, window, i, j);
  }
}
