/**
 The registries of live snapshots (crates/foims-agent-service/src/live_poll.rs).

 `LiveRegistry` (SNMP and IPMI) overwrites and `AgentLiveRegistry` merges: a snapshot replaces the one
 it finds only if it was collected later. Each keeps a revision that counts its changes.
 */
module LiveRegistry {
  datatype Snapshot = Snapshot(device: string, collectedAt: int, reading: int)

  datatype Registry = Registry(contents: map<string, Snapshot>, revision: nat)

  // ---- LiveRegistry ----

  class LiveRegistry {
    var devices: map<string, Snapshot>
    var revision: nat

    constructor ()
      ensures View() == Registry(map[], 0)
    {
      devices := map[];
      revision := 0;
    }

    function View(): Registry
      reads this
    {
      Registry(devices, revision)
    }

    method Upsert(s: Snapshot)
      modifies this
      ensures View() == Registry(old(devices)[s.device := s], old(revision) + 1)
    {
      devices := devices[s.device := s];
      revision := revision + 1;
    }

    method Remove(device: string)
      modifies this
      ensures View() == if device in old(devices) then Registry(old(devices) - {device}, old(revision) + 1)
                        else old(View())
    {
      if device in devices {
        devices := devices - {device};
        revision := revision + 1;
      }
    }
  }

  // ---- AgentLiveRegistry ----

  predicate Replaces(contents: map<string, Snapshot>, s: Snapshot) {
    s.device in contents ==> s.collectedAt > contents[s.device].collectedAt
  }

  function Merged(r: Registry, s: Snapshot): Registry {
    if Replaces(r.contents, s) then Registry(r.contents[s.device := s], r.revision + 1) else r
  }

  class AgentLiveRegistry {
    var hosts: map<string, Snapshot>
    var revision: nat

    constructor ()
      ensures View() == Registry(map[], 0)
    {
      hosts := map[];
      revision := 0;
    }

    function View(): Registry
      reads this
    {
      Registry(hosts, revision)
    }

    method Upsert(s: Snapshot)
      modifies this
      ensures View() == Merged(old(View()), s)
    {
      var replaced := false;
      if s.device in hosts {
        if s.collectedAt > hosts[s.device].collectedAt {
          hosts := hosts[s.device := s];
          replaced := true;
        }
      } else {
        hosts := hosts[s.device := s];
        replaced := true;
      }
      if replaced {
        revision := revision + 1;
      }
    }
  }

  // ---- Convergence of AgentLiveRegistry ----

  /** The registry after the snapshots in the order they arrive. */
  function Arrived(arrivals: seq<Snapshot>): Registry {
    if arrivals == [] then Registry(map[], 0)
    else Merged(Arrived(arrivals[..|arrivals| - 1]), arrivals[|arrivals| - 1])
  }

  method Receive(arrivals: seq<Snapshot>) returns (registry: AgentLiveRegistry)
    ensures fresh(registry) && registry.View() == Arrived(arrivals)
  {
    registry := new AgentLiveRegistry();
    for i := 0 to |arrivals|
      invariant fresh(registry) && registry.View() == Arrived(arrivals[..i])
    {
      assert arrivals[..i + 1][..i] == arrivals[..i];
      registry.Upsert(arrivals[i]);
    }
    assert arrivals[..|arrivals|] == arrivals;
  }

  /** `arrivals[i]` is newer than everything its device sent before. */
  predicate StrictlyNewer(arrivals: seq<Snapshot>, i: nat)
    requires i < |arrivals|
  {
    forall j | 0 <= j < i && arrivals[j].device == arrivals[i].device ::
      arrivals[j].collectedAt < arrivals[i].collectedAt
  }

  /** `arrivals[i]` is the newest of its device, and the first to be as new. */
  predicate FirstNewest(arrivals: seq<Snapshot>, i: nat)
    requires i < |arrivals|
  {
    && StrictlyNewer(arrivals, i)
    && forall j | 0 <= j < |arrivals| && arrivals[j].device == arrivals[i].device ::
         arrivals[j].collectedAt <= arrivals[i].collectedAt
  }

  /** Where the snapshot held for device `d` came from. */
  ghost predicate HeldFrom(arrivals: seq<Snapshot>, d: string, s: Snapshot) {
    exists i | 0 <= i < |arrivals| :: s == arrivals[i] && arrivals[i].device == d && FirstNewest(arrivals, i)
  }

  lemma HeldAfterOneMore(before: seq<Snapshot>, s: Snapshot, d: string)
    requires forall d | d in Arrived(before).contents :: HeldFrom(before, d, Arrived(before).contents[d])
    requires forall t | t in before :: t.device in Arrived(before).contents
    requires d in Merged(Arrived(before), s).contents
    ensures HeldFrom(before + [s], d, Merged(Arrived(before), s).contents[d])
  {
    var was, arrivals := Arrived(before).contents, before + [s];
    if d in was {
      var i :| 0 <= i < |before| && was[d] == before[i] && before[i].device == d && FirstNewest(before, i);
      if d == s.device && Replaces(was, s) {
        assert FirstNewest(arrivals, |before|);
      } else {
        assert FirstNewest(arrivals, i);
      }
    } else {
      assert FirstNewest(arrivals, |before|);
    }
  }

  /** The registry holds, for every device that sent something, the first of its newest snapshots. */
  lemma {:induction false} HoldsFirstNewest(arrivals: seq<Snapshot>)
    ensures forall s | s in arrivals :: s.device in Arrived(arrivals).contents
    ensures forall d | d in Arrived(arrivals).contents :: HeldFrom(arrivals, d, Arrived(arrivals).contents[d])
  {
    if arrivals == [] {
    } else {
      var n := |arrivals| - 1;
      var before, s := arrivals[..n], arrivals[n];
      assert arrivals == before + [s];
      HoldsFirstNewest(before);
      forall d | d in Arrived(arrivals).contents
        ensures HeldFrom(arrivals, d, Arrived(arrivals).contents[d])
      {
        HeldAfterOneMore(before, s, d);
      }
    }
  }

  /** No device sends two different snapshots with one collection time. */
  predicate DistinctTimes(arrivals: seq<Snapshot>) {
    forall s, t | s in arrivals && t in arrivals && s.device == t.device && s.collectedAt == t.collectedAt :: s == t
  }

  /** `s` is among the newest snapshots of its device. */
  predicate Newest(arrivals: seq<Snapshot>, s: Snapshot) {
    s in arrivals && forall t | t in arrivals && t.device == s.device :: t.collectedAt <= s.collectedAt
  }

  lemma HoldsNewest(arrivals: seq<Snapshot>, d: string)
    ensures d in Arrived(arrivals).contents <==> exists t | t in arrivals :: t.device == d
    ensures d in Arrived(arrivals).contents ==>
              Arrived(arrivals).contents[d].device == d && Newest(arrivals, Arrived(arrivals).contents[d])
  {
    HoldsFirstNewest(arrivals);
    if d in Arrived(arrivals).contents {
      var i :| 0 <= i < |arrivals| && Arrived(arrivals).contents[d] == arrivals[i] && arrivals[i].device == d
               && FirstNewest(arrivals, i);
      assert arrivals[i] in arrivals;
    }
  }

  /** What one arrival order holds for a device, another order of the same snapshots holds as well. */
  lemma HeldByBoth(xs: seq<Snapshot>, ys: seq<Snapshot>, d: string)
    requires DistinctTimes(xs) && (forall s :: s in xs <==> s in ys) && d in Arrived(xs).contents
    ensures d in Arrived(ys).contents && Arrived(ys).contents[d] == Arrived(xs).contents[d]
  {
    HoldsNewest(xs, d);
    HoldsNewest(ys, d);
    var x := Arrived(xs).contents[d];
    assert x in ys;
  }

  /** The same snapshots leave the same contents, in whatever order and however often they arrive. */
  lemma OrderDoesNotMatter(xs: seq<Snapshot>, ys: seq<Snapshot>)
    requires DistinctTimes(xs) && forall s :: s in xs <==> s in ys
    ensures Arrived(xs).contents == Arrived(ys).contents
  {
    var cx, cy := Arrived(xs).contents, Arrived(ys).contents;
    forall d | d in cx || d in cy
      ensures d in cx && d in cy && cx[d] == cy[d]
    {
      if d in cx {
        HeldByBoth(xs, ys, d);
      } else {
        HeldByBoth(ys, xs, d);
      }
    }
  }

  function NewMaxima(arrivals: seq<Snapshot>, n: nat): nat
    requires n <= |arrivals|
  {
    if n == 0 then 0 else NewMaxima(arrivals, n - 1) + if StrictlyNewer(arrivals, n - 1) then 1 else 0
  }

  lemma {:induction false} MaximaOfPrefix(arrivals: seq<Snapshot>, m: nat, n: nat)
    requires n <= m <= |arrivals|
    ensures NewMaxima(arrivals[..m], n) == NewMaxima(arrivals, n)
  {
    if n == 0 {
    } else {
      MaximaOfPrefix(arrivals, m, n - 1);
    }
  }

  lemma ReplacesIfNewer(before: seq<Snapshot>, s: Snapshot)
    ensures Replaces(Arrived(before).contents, s) <==>
            forall t | t in before && t.device == s.device :: t.collectedAt < s.collectedAt
  {
    HoldsNewest(before, s.device);
  }

  lemma NewerThanPrefix(arrivals: seq<Snapshot>, n: nat)
    requires n < |arrivals|
    ensures StrictlyNewer(arrivals, n) <==>
            forall t | t in arrivals[..n] && t.device == arrivals[n].device :: t.collectedAt < arrivals[n].collectedAt
  {
    assert forall j | 0 <= j < n :: arrivals[j] in arrivals[..n];
  }

  /** The revision counts the arrivals that were newer than all before them from the same device. */
  lemma {:induction false} RevisionCountsMaxima(arrivals: seq<Snapshot>)
    ensures Arrived(arrivals).revision == NewMaxima(arrivals, |arrivals|)
  {
    if arrivals == [] {
    } else {
      var n := |arrivals| - 1;
      RevisionCountsMaxima(arrivals[..n]);
      MaximaOfPrefix(arrivals, n, n);
      ReplacesIfNewer(arrivals[..n], arrivals[n]);
      NewerThanPrefix(arrivals, n);
    }
  }

  /** As long as the revision stands still, so do the contents. */
  lemma {:induction false} UnchangedRevision(arrivals: seq<Snapshot>, n: nat)
    requires n <= |arrivals|
    ensures Arrived(arrivals[..n]).revision <= Arrived(arrivals).revision
    ensures Arrived(arrivals[..n]).revision == Arrived(arrivals).revision ==>
              Arrived(arrivals[..n]) == Arrived(arrivals)
  {
    if n == |arrivals| {
      assert arrivals[..n] == arrivals;
    } else {
      var m := |arrivals| - 1;
      assert arrivals[..m][..n] == arrivals[..n];
      UnchangedRevision(arrivals[..m], n);
    }
  }
}
