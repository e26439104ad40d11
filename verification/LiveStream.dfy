/**
 The change stream of live snapshots (crates/foims-agent-service/src/live_api.rs, `live_stream`) under
 concurrent writers (crates/foims-agent-service/src/live_poll.rs).

 A writer changes a registry and bumps its revision in two steps; a tick of the stream reads three
 revisions, compares, and reads the contents of three registries shard by shard. The steps of any
 number of writers and of the stream interleave freely.
 */
module LiveStream {
  import opened Wrappers
  import opened LiveRegistry

  const REGISTRIES := 3
  const AGENT := 2
  const U64_MAX: nat := 0xffff_ffff_ffff_ffff

  /** A concurrent map is read one shard at a time. */
  const SHARDS := 16

  /** Which shard a key is in: any function will do, the properties hold for all of them. */
  type Placement = string -> nat

  function Shard(place: Placement, device: string): nat {
    place(device) % SHARDS
  }

  /** A registry, and how many writers have changed it without having bumped its revision yet. */
  datatype Shared = Shared(contents: map<string, Snapshot>, revision: nat, unbumped: nat)

  type View = map<string, Snapshot>

  datatype Phase =
    | Idle
    | ReadingRevisions(got: seq<nat>)
    | ReadingContents(done: seq<View>, part: View, shard: nat)

  /** `saved` are the revisions the stream compares with, `pushed` the last summary it sent. */
  datatype State = State(registries: seq<Shared>, phase: Phase, saved: seq<nat>, pushed: Option<seq<View>>)

  datatype Step =
    | Upsert(registry: nat, snapshot: Snapshot)
    | Remove(registry: nat, device: string)
    | Bump(registry: nat)
    | Stream

  const INITIAL := State([Shared(map[], 0, 0), Shared(map[], 0, 0), Shared(map[], 0, 0)], Idle,
                         [U64_MAX, U64_MAX, U64_MAX], None)

  function Changed(r: Shared, contents: View): Shared {
    r.(contents := contents, unbumped := r.unbumped + 1)
  }

  function Written(registry: nat, r: Shared, step: Step): Shared {
    match step
    case Upsert(_, s) =>
      if registry == AGENT && !Replaces(r.contents, s) then r else Changed(r, r.contents[s.device := s])
    case Remove(_, device) => if device in r.contents then Changed(r, r.contents - {device}) else r
    case Bump(_) => if r.unbumped > 0 then r.(revision := r.revision + 1, unbumped := r.unbumped - 1) else r
    case Stream => r
  }

  function UpTo(place: Placement, contents: View, shard: nat): View {
    map d | d in contents && Shard(place, d) < shard :: contents[d]
  }

  function OfShard(place: Placement, contents: View, shard: nat): View {
    map d | d in contents && Shard(place, d) == shard :: contents[d]
  }

  /** The next atomic step of the stream. */
  function Streamed(place: Placement, s: State): State
    requires |s.registries| == REGISTRIES
  {
    match s.phase
    case Idle => s.(phase := ReadingRevisions([]))
    case ReadingRevisions(got) =>
      if |got| < REGISTRIES then s.(phase := ReadingRevisions(got + [s.registries[|got|].revision]))
      else if got == s.saved then s.(phase := Idle)
      else s.(saved := got, phase := ReadingContents([], map[], 0))
    case ReadingContents(done, part, shard) =>
      if |done| >= REGISTRIES then s.(pushed := Some(done), phase := Idle)
      else if shard < SHARDS then
        s.(phase := ReadingContents(done, part + OfShard(place, s.registries[|done|].contents, shard), shard + 1))
      else s.(phase := ReadingContents(done + [part], map[], 0))
  }

  function Next(place: Placement, s: State, step: Step): State
    requires |s.registries| == REGISTRIES
  {
    if step == Stream then Streamed(place, s)
    else if step.registry >= REGISTRIES then s
    else
      var r := step.registry;
      s.(registries := s.registries[r := Written(r, s.registries[r], step)])
  }

  function After(place: Placement, steps: seq<Step>): (s: State)
    ensures |s.registries| == REGISTRIES
  {
    if steps == [] then INITIAL else Next(place, After(place, steps[..|steps| - 1]), steps[|steps| - 1])
  }

  // ---- What writers do ----

  /** Registries 0 and 1 take every snapshot, registry 2 only one collected later; the revision moves afterwards. */
  lemma UpsertThenBump(place: Placement, s: State, registry: nat, snapshot: Snapshot)
    requires |s.registries| == 3 && registry < 3 && s.registries[registry].unbumped == 0
    ensures var r := s.registries[registry];
            var s1 := Next(place, s, Upsert(registry, snapshot));
            var s2 := Next(place, s1, Bump(registry));
            if registry == 2 && snapshot.device in r.contents
               && snapshot.collectedAt <= r.contents[snapshot.device].collectedAt
            then s1 == s2 == s
            else
              && s1 == s.(registries :=
                   s.registries[registry := Shared(r.contents[snapshot.device := snapshot], r.revision, 1)])
              && s2 == s.(registries :=
                   s.registries[registry := Shared(r.contents[snapshot.device := snapshot], r.revision + 1, 0)])
  {
    assert s.registries[registry := s.registries[registry]] == s.registries;
  }

  lemma RemoveThenBump(place: Placement, s: State, registry: nat, device: string)
    requires |s.registries| == 3 && registry < 3 && s.registries[registry].unbumped == 0
    ensures var r := s.registries[registry];
            var s1 := Next(place, s, Remove(registry, device));
            var s2 := Next(place, s1, Bump(registry));
            if device !in r.contents then s1 == s2 == s
            else
              && s1 == s.(registries := s.registries[registry := Shared(r.contents - {device}, r.revision, 1)])
              && s2 == s.(registries := s.registries[registry := Shared(r.contents - {device}, r.revision + 1, 0)])
  {
    assert s.registries[registry := s.registries[registry]] == s.registries;
  }

  /** A bump is one of those that changes have left behind. */
  lemma BumpOne(place: Placement, s: State, registry: nat)
    requires |s.registries| == 3 && registry < 3 && s.registries[registry].unbumped > 0
    ensures var r := s.registries[registry];
            Next(place, s, Bump(registry))
            == s.(registries := s.registries[registry := Shared(r.contents, r.revision + 1, r.unbumped - 1)])
  {
  }

  // ---- The invariant ----

  /** `view` is what `contents` was when the revision was `revision` and nobody was between change and bump. */
  predicate Fresh(r: Shared, revision: nat, contents: View, view: View) {
    && r.revision >= revision
    && (r.revision == revision && r.unbumped == 0 ==> view == contents)
  }

  predicate FreshPush(registries: seq<Shared>, saved: seq<nat>, pushed: Option<seq<View>>)
    requires |registries| == |saved| == REGISTRIES
  {
    if pushed.None? then forall i | 0 <= i < REGISTRIES :: saved[i] == U64_MAX
    else
      && |pushed.value| == REGISTRIES
      && forall i | 0 <= i < REGISTRIES :: Fresh(registries[i], saved[i], registries[i].contents, pushed.value[i])
  }

  predicate Invariant(place: Placement, s: State) {
    && |s.registries| == |s.saved| == REGISTRIES
    && match s.phase
       case Idle => FreshPush(s.registries, s.saved, s.pushed)
       case ReadingRevisions(got) =>
         && FreshPush(s.registries, s.saved, s.pushed)
         && |got| <= REGISTRIES
         && forall i | 0 <= i < |got| :: s.registries[i].revision >= got[i]
       case ReadingContents(done, part, shard) =>
         && |done| <= REGISTRIES
         && shard <= (if |done| < REGISTRIES then SHARDS else 0)
         && (forall i | 0 <= i < REGISTRIES :: s.registries[i].revision >= s.saved[i])
         && (forall i | 0 <= i < |done| :: Fresh(s.registries[i], s.saved[i], s.registries[i].contents, done[i]))
         && (|done| < REGISTRIES ==>
               var r := s.registries[|done|];
               Fresh(r, s.saved[|done|], UpTo(place, r.contents, shard), part))
  }

  /** A writer's step never makes a fresh view stale without leaving a bump pending or made. */
  lemma WritersKeepFresh(place: Placement, registry: nat, r: Shared, step: Step, revision: nat, shard: nat, view: View)
    ensures Fresh(r, revision, r.contents, view) ==>
              var r' := Written(registry, r, step); Fresh(r', revision, r'.contents, view)
    ensures Fresh(r, revision, UpTo(place, r.contents, shard), view) ==>
              var r' := Written(registry, r, step); Fresh(r', revision, UpTo(place, r'.contents, shard), view)
    ensures Written(registry, r, step).revision >= r.revision
  {
  }

  lemma WriterKeepsInvariant(place: Placement, s: State, step: Step)
    requires Invariant(place, s) && step != Stream && step.registry < REGISTRIES
    ensures Invariant(place, Next(place, s, step))
  {
    var w := step.registry;
    var r := s.registries[w];
    WritersKeepFresh(place, w, r, step, 0, 0, map[]);
    match s.phase {
      case Idle =>
        if s.pushed.Some? { WritersKeepFresh(place, w, r, step, s.saved[w], 0, s.pushed.value[w]); }
      case ReadingRevisions(_) =>
        if s.pushed.Some? { WritersKeepFresh(place, w, r, step, s.saved[w], 0, s.pushed.value[w]); }
      case ReadingContents(done, part, shard) =>
        if w < |done| { WritersKeepFresh(place, w, r, step, s.saved[w], 0, done[w]); }
        WritersKeepFresh(place, w, r, step, s.saved[w], shard, part);
    }
  }

  lemma ShardsAddUp(place: Placement, contents: View, shard: nat)
    ensures UpTo(place, contents, shard) + OfShard(place, contents, shard) == UpTo(place, contents, shard + 1)
    ensures UpTo(place, contents, 0) == map[]
    ensures UpTo(place, contents, SHARDS) == contents
  {
  }

  lemma ReadingKeepsInvariant(place: Placement, s: State)
    requires Invariant(place, s) && s.phase.ReadingContents?
    ensures Invariant(place, Streamed(place, s))
  {
    hide UpTo, OfShard;
    var n := |s.phase.done|;
    if n < REGISTRIES {
      ShardsAddUp(place, s.registries[n].contents, s.phase.shard);
      if n + 1 < REGISTRIES {
        ShardsAddUp(place, s.registries[n + 1].contents, 0);
      }
    }
  }

  lemma StreamKeepsInvariant(place: Placement, s: State)
    requires Invariant(place, s)
    ensures Invariant(place, Streamed(place, s))
  {
    if s.phase.ReadingContents? {
      ReadingKeepsInvariant(place, s);
    } else {
      ShardsAddUp(place, s.registries[0].contents, 0);
    }
  }

  lemma {:induction false} Reachable(place: Placement, steps: seq<Step>)
    ensures Invariant(place, After(place, steps))
  {
    if steps == [] {
    } else {
      var before, step := steps[..|steps| - 1], steps[|steps| - 1];
      Reachable(place, before);
      if step == Stream {
        StreamKeepsInvariant(place, After(place, before));
      } else if step.registry < REGISTRIES {
        WriterKeepsInvariant(place, After(place, before), step);
      }
    }
  }

  // ---- The stream never stays stale ----

  /** No writer is between its two steps, and no revision has used up its 64 bits. */
  predicate Quiet(s: State)
    requires |s.registries| == REGISTRIES
  {
    forall i | 0 <= i < REGISTRIES :: s.registries[i].unbumped == 0 && s.registries[i].revision < U64_MAX
  }

  predicate CaughtUp(s: State)
    requires |s.registries| == |s.saved| == REGISTRIES
  {
    forall i | 0 <= i < REGISTRIES :: s.saved[i] == s.registries[i].revision
  }

  predicate ShowsContents(s: State)
    requires |s.registries| == REGISTRIES
  {
    && s.pushed.Some? && |s.pushed.value| == REGISTRIES
    && forall i | 0 <= i < REGISTRIES :: s.pushed.value[i] == s.registries[i].contents
  }

  /**
   Under every interleaving: between two ticks, with no writer between change and bump, a stream that
   sees no new revision has pushed exactly the current contents of all three registries.
   */
  lemma NeverStaysStale(place: Placement, steps: seq<Step>)
    requires After(place, steps).phase == Idle && Quiet(After(place, steps))
    requires |After(place, steps).saved| == REGISTRIES && CaughtUp(After(place, steps))
    ensures ShowsContents(After(place, steps))
  {
    Reachable(place, steps);
    var s := After(place, steps);
    assert s.saved[0] != U64_MAX;
  }

  function Alone(place: Placement, s: State, n: nat): (s': State)
    requires |s.registries| == REGISTRIES
    ensures s'.registries == s.registries
    decreases n
  {
    if n == 0 then s else Alone(place, Streamed(place, s), n - 1)
  }

  /** How many steps the stream needs to end a tick that reads contents. */
  function StepsLeft(phase: Phase): nat
    requires phase.ReadingContents? && |phase.done| <= REGISTRIES
    requires phase.shard <= if |phase.done| < REGISTRIES then SHARDS else 0
  {
    (REGISTRIES - |phase.done|) * (SHARDS + 1) + 1 - phase.shard
  }

  function Revisions(registries: seq<Shared>): seq<nat>
    requires |registries| == REGISTRIES
  {
    [registries[0].revision, registries[1].revision, registries[2].revision]
  }

  function Contents(registries: seq<Shared>): seq<View>
    requires |registries| == REGISTRIES
  {
    [registries[0].contents, registries[1].contents, registries[2].contents]
  }

  /** Nobody has written since the stream began to read contents. */
  predicate ReadUndisturbed(place: Placement, s: State)
    requires |s.registries| == REGISTRIES && s.phase.ReadingContents?
  {
    var n := |s.phase.done|;
    && n <= REGISTRIES
    && s.phase.shard <= (if n < REGISTRIES then SHARDS else 0)
    && s.phase.done == Contents(s.registries)[..n]
    && (n < REGISTRIES ==> s.phase.part == UpTo(place, s.registries[n].contents, s.phase.shard))
  }

  lemma {:induction false} ContentsAreRead(place: Placement, s: State)
    requires |s.registries| == REGISTRIES && s.phase.ReadingContents? && ReadUndisturbed(place, s)
    ensures Alone(place, s, StepsLeft(s.phase)) == s.(phase := Idle, pushed := Some(Contents(s.registries)))
    decreases StepsLeft(s.phase)
  {
    var s1 := Streamed(place, s);
    var n := |s.phase.done|;
    if n < REGISTRIES {
      ShardsAddUp(place, s.registries[n].contents, s.phase.shard);
      if n + 1 < REGISTRIES { ShardsAddUp(place, s.registries[n + 1].contents, 0); }
      assert StepsLeft(s1.phase) == StepsLeft(s.phase) - 1;
      ContentsAreRead(place, s1);
    } else {
      assert s.phase.done == Contents(s.registries);
      assert StepsLeft(s.phase) == 1 && Alone(place, s, 1) == Alone(place, s1, 0) == s1;
    }
  }

  /** One whole tick of an undisturbed stream: five steps to compare, and the contents if they changed. */
  function TickLength(place: Placement, s: State): nat
    requires |s.registries| == REGISTRIES
  {
    5 + if Alone(place, s, 5).phase == Idle then 0 else REGISTRIES * (SHARDS + 1) + 1
  }

  lemma FirstFiveSteps(place: Placement, s: State)
    requires |s.registries| == REGISTRIES && s.phase == Idle
    ensures Alone(place, s, 5)
         == if Revisions(s.registries) == s.saved then s
            else s.(saved := Revisions(s.registries), phase := ReadingContents([], map[], 0))
  {
    var s1 := Streamed(place, s);
    var s2 := Streamed(place, s1);
    var s3 := Streamed(place, s2);
    var s4 := Streamed(place, s3);
    assert Alone(place, s, 5) == Alone(place, s1, 4) == Alone(place, s2, 3) == Alone(place, s3, 2);
    assert Alone(place, s3, 2) == Alone(place, s4, 1) == Alone(place, Streamed(place, s4), 0);
    assert s4.phase.got == Revisions(s.registries);
  }

  lemma {:induction false} AloneAdds(place: Placement, s: State, m: nat, n: nat)
    requires |s.registries| == REGISTRIES
    ensures Alone(place, s, m + n) == Alone(place, Alone(place, s, m), n)
    decreases m
  {
    if m == 0 {
    } else {
      AloneAdds(place, Streamed(place, s), m - 1, n);
    }
  }

  /** An undisturbed tick compares the revisions and pushes the current contents if one of them moved. */
  lemma UndisturbedTick(place: Placement, s: State)
    requires |s.registries| == REGISTRIES && s.phase == Idle
    ensures var revisions := [s.registries[0].revision, s.registries[1].revision, s.registries[2].revision];
            var contents := [s.registries[0].contents, s.registries[1].contents, s.registries[2].contents];
            Alone(place, s, TickLength(place, s))
            == if s.saved == revisions then s else s.(saved := revisions, pushed := Some(contents))
  {
    hide Alone, Streamed;
    FirstFiveSteps(place, s);
    var s5 := Alone(place, s, 5);
    if s5.phase != Idle {
      ShardsAddUp(place, s.registries[0].contents, 0);
      AloneAdds(place, s, 5, REGISTRIES * (SHARDS + 1) + 1);
      ContentsAreRead(place, s5);
    }
  }

  /** From any reachable state at rest, one undisturbed tick brings the stream up to the current contents. */
  lemma OneTickCatchesUp(place: Placement, steps: seq<Step>)
    requires After(place, steps).phase == Idle && Quiet(After(place, steps))
    ensures var s := After(place, steps); ShowsContents(Alone(place, s, TickLength(place, s)))
  {
    var s := After(place, steps);
    Reachable(place, steps);
    UndisturbedTick(place, s);
    if Revisions(s.registries) == s.saved {
      NeverStaysStale(place, steps);
    }
  }

  /** The state of one stream, as the source keeps it, and its ticks while nobody writes. */
  class StreamState {
    var saved: seq<nat>

    constructor ()
      ensures saved == INITIAL.saved
    {
      saved := [U64_MAX, U64_MAX, U64_MAX];
    }

    /** The tick after the shutdown signal ends the stream; any other compares and pushes. */
    method Tick(registries: seq<Shared>, closing: bool, ghost place: Placement)
      returns (ended: bool, summary: Option<seq<View>>)
      requires |registries| == |saved| == REGISTRIES
      modifies this
      ensures ended <==> closing
      ensures if closing || old(saved) == [registries[0].revision, registries[1].revision, registries[2].revision]
              then saved == old(saved) && summary == None
              else && saved == [registries[0].revision, registries[1].revision, registries[2].revision]
                   && summary == Some([registries[0].contents, registries[1].contents, registries[2].contents])
      ensures !closing ==>
                var s := State(registries, Idle, old(saved), None);
                var s' := Alone(place, s, TickLength(place, s));
                saved == s'.saved && summary == s'.pushed
    {
      ended, summary := closing, None;
      if closing {
        return;
      }
      UndisturbedTick(place, State(registries, Idle, saved, None));
      var revision := registries[0].revision;
      var ipmiRevision := registries[1].revision;
      var agentRevision := registries[2].revision;
      if revision != saved[0] || ipmiRevision != saved[1] || agentRevision != saved[2] {
        saved := [revision, ipmiRevision, agentRevision];
        summary := Some([registries[0].contents, registries[1].contents, registries[2].contents]);
      }
    }
  }

  /** Why no writer may be between its steps: a change not yet bumped is invisible to a stream that has caught up. */
  lemma UnbumpedChangeIsInvisible(place: Placement, s: State, step: Step)
    requires Invariant(place, s) && s.phase == Idle && CaughtUp(s) && ShowsContents(s)
    requires step.Upsert? && step.registry < AGENT
    requires step.snapshot.device in s.registries[step.registry].contents ==>
               s.registries[step.registry].contents[step.snapshot.device] != step.snapshot
    ensures var s' := Next(place, s, step); Invariant(place, s') && CaughtUp(s') && !ShowsContents(s')
  {
    WriterKeepsInvariant(place, s, step);
    var s' := Next(place, s, step);
    var d := step.snapshot.device;
    assert s'.registries[step.registry].contents[d] == step.snapshot;
    assert s'.pushed.value[step.registry] == s.registries[step.registry].contents;
  }
}
