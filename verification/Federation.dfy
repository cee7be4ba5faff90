/**
 Event federation of ee/federation: any number of workers import peers' event logs into the local
 log, each event through import, apply, projection checkpoint and peer checkpoint. A behaviour is any
 interleaving of those steps with log growth, retention, local appends, and failures or crashes that
 send a worker back to the start, after any step.
 */
module Federation {
  import opened Names

  type EventId = nat

  /** A peer's stream: sequence numbers up to last, some of them purged. */
  datatype Log = Log(last: nat, entries: map<nat, EventId>)

  /** Where a worker is in replicatePeer. */
  datatype Phase =
    | Idle
    | Starting(peer: nat, at: nat)
    | Reading(peer: nat, last: nat, at: nat)
    | Fetched(peer: nat, last: nat, at: nat, event: EventId)
    | Imported(peer: nat, last: nat, at: nat, event: EventId)
    | Applied(peer: nat, last: nat, at: nat, event: EventId)
    | Projected(peer: nat, last: nat, at: nat, event: EventId)

  /** One import: which peer, and the event's sequence number there. */
  datatype Source = Source(peer: nat, at: nat)

  datatype World = World(
    ids: seq<string>,
    logs: seq<Log>,
    dedupe: bool,
    local: seq<EventId>,
    imported: map<Source, EventId>,
    applied: set<Source>,
    checkpoints: map<string, nat>,
    workers: map<nat, Phase>)

  datatype Step =
    | Grow(peer: nat, event: EventId)
    | Purge(peer: nat, at: nat)
    | AppendLocal(event: EventId)
    | Begin(worker: nat, peer: nat)
    | Open(worker: nat)
    | Skip(worker: nat)
    | Fetch(worker: nat)
    | Import(worker: nat)
    | Apply(worker: nat)
    | AdvanceProjection(worker: nat)
    | AdvancePeer(worker: nat)
    | Finish(worker: nat)
    | Fail(worker: nat)

  // ---------------------------------------------------------------- steps

  function PhaseOf(s: World, w: nat): (ph: Phase) {
    if w in s.workers then s.workers[w] else Idle
  }

  predicate IsPeer(s: World, p: nat) {
    p < |s.ids| && p < |s.logs| && s.ids[p] in s.checkpoints
  }

  function Checkpoint(s: World, p: nat): (cp: nat)
    requires IsPeer(s, p)
  {
    s.checkpoints[s.ids[p]]
  }

  function Goto(s: World, w: nat, ph: Phase): (s': World) {
    s.(workers := s.workers[w := ph])
  }

  /** An append carrying the event's id, which a deduplicating log ignores the second time. */
  function Append(dedupe: bool, log: seq<EventId>, e: EventId): (r: seq<EventId>) {
    if dedupe && e in log then log else log + [e]
  }

  function Max(a: nat, b: nat): nat { if a < b then b else a }

  /** One step of the system; a step that is not possible in s leaves it unchanged. */
  function Do(s: World, step: Step): (s': World) {
    match step
    case Grow(p, e) =>
      if p < |s.logs| then
        var log := s.logs[p];
        s.(logs := s.logs[p := Log(log.last + 1, log.entries[log.last + 1 := e])])
      else s
    case Purge(p, q) =>
      if p < |s.logs| then s.(logs := s.logs[p := s.logs[p].(entries := s.logs[p].entries - {q})]) else s
    case AppendLocal(e) => s.(local := Append(s.dedupe, s.local, e))
    case Begin(w, p) =>
      if PhaseOf(s, w).Idle? && IsPeer(s, p) then Goto(s, w, Starting(p, Checkpoint(s, p) + 1)) else s
    case Open(w) =>
      var ph := PhaseOf(s, w);
      if ph.Starting? && ph.peer < |s.logs| then Goto(s, w, Reading(ph.peer, s.logs[ph.peer].last, ph.at)) else s
    case Skip(w) =>
      var ph := PhaseOf(s, w);
      if ph.Reading? && ph.at <= ph.last && ph.peer < |s.logs| && ph.at !in s.logs[ph.peer].entries then
        Goto(s, w, Reading(ph.peer, ph.last, ph.at + 1))
      else s
    case Fetch(w) =>
      var ph := PhaseOf(s, w);
      if ph.Reading? && ph.at <= ph.last && ph.peer < |s.logs| && ph.at in s.logs[ph.peer].entries then
        Goto(s, w, Fetched(ph.peer, ph.last, ph.at, s.logs[ph.peer].entries[ph.at]))
      else s
    case Import(w) =>
      var ph := PhaseOf(s, w);
      if ph.Fetched? then
        Goto(s, w, Imported(ph.peer, ph.last, ph.at, ph.event))
          .(local := Append(s.dedupe, s.local, ph.event), imported := s.imported[Source(ph.peer, ph.at) := ph.event])
      else s
    case Apply(w) =>
      var ph := PhaseOf(s, w);
      if ph.Imported? then
        Goto(s, w, Applied(ph.peer, ph.last, ph.at, ph.event)).(applied := s.applied + {Source(ph.peer, ph.at)})
      else s
    case AdvanceProjection(w) =>
      var ph := PhaseOf(s, w);
      if ph.Applied? then Goto(s, w, Projected(ph.peer, ph.last, ph.at, ph.event)) else s
    case AdvancePeer(w) =>
      var ph := PhaseOf(s, w);
      if ph.Projected? && IsPeer(s, ph.peer) then
        Goto(s, w, Reading(ph.peer, ph.last, ph.at + 1))
          .(checkpoints := s.checkpoints[s.ids[ph.peer] := Max(Checkpoint(s, ph.peer), ph.at)])
      else s
    case Finish(w) =>
      var ph := PhaseOf(s, w);
      if ph.Reading? && ph.at > ph.last then Goto(s, w, Idle) else s
    case Fail(w) => Goto(s, w, Idle)
  }

  /** A behaviour: any steps in any order. */
  function Run(s: World, steps: seq<Step>): (s': World) {
    if steps == [] then s else Do(Run(s, steps[..|steps| - 1]), steps[|steps| - 1])
  }

  /** A worker set up over these peer ids, with checkpoint rows at zero and empty peer logs. */
  function Init(ids: seq<string>, dedupe: bool): (s: World) {
    World(ids, seq(|ids|, _ => Log(0, map[])), dedupe, [], map[], {},
          map id | id in ids :: 0, map[])
  }

  // ---------------------------------------------------------------- the guarantees

  /** No event at or below its peer's checkpoint is missing from the local log or the read model. */
  ghost predicate NothingLost(s: World) {
    forall p: nat, q: nat :: IsPeer(s, p) && q in s.logs[p].entries && q <= Checkpoint(s, p) ==>
      var src := Source(p, q);
      src in s.applied && src in s.imported && s.imported[src] == s.logs[p].entries[q] && s.imported[src] in s.local
  }

  /** Everything before an imported event is at or below the checkpoint: imports form a prefix of the
      peer's log that reaches at most one event past it. */
  ghost predicate ImportsArePrefix(s: World) {
    forall src: Source, r: nat ::
      src in s.imported && IsPeer(s, src.peer) && r in s.logs[src.peer].entries && r < src.at ==>
      r <= Checkpoint(s, src.peer)
  }

  /** Under a deduplicating log no event appears twice. */
  ghost predicate NoDuplicates(s: World) {
    s.dedupe ==> Distinct(s.local)
  }

  ghost predicate Safe(s: World) {
    NothingLost(s) && ImportsArePrefix(s) && NoDuplicates(s)
  }

  // ---------------------------------------------------------------- the invariant

  ghost predicate LogOk(log: Log) {
    forall q :: q in log.entries ==> 1 <= q <= log.last
  }

  /** Every present event below q is at or below the checkpoint. */
  ghost predicate DoneBelow(log: Log, cp: nat, q: nat) {
    forall r :: r in log.entries && r < q ==> r <= cp
  }

  /** Every present event at or below the checkpoint has been imported and applied. */
  ghost predicate Covered(log: Log, cp: nat, p: nat, imported: map<Source, EventId>, applied: set<Source>) {
    forall q :: q in log.entries && q <= cp ==> Source(p, q) in applied && Source(p, q) in imported
  }

  /** The import of an event still present is of that event, and it is in the local log. */
  ghost predicate Recorded(logs: seq<Log>, local: seq<EventId>, src: Source, e: EventId) {
    && src.peer < |logs| && src.at <= logs[src.peer].last && e in local
    && (src.at in logs[src.peer].entries ==> logs[src.peer].entries[src.at] == e)
  }

  /** What a worker between steps relies on. */
  ghost predicate WorkerOk(ph: Phase, logs: seq<Log>, cp: seq<nat>, imported: map<Source, EventId>,
                           applied: set<Source>)
    requires |cp| == |logs|
  {
    ph.Idle? ||
    (&& ph.peer < |logs|
     && ph.at <= logs[ph.peer].last + 1
     && DoneBelow(logs[ph.peer], cp[ph.peer], ph.at)
     && (!ph.Starting? ==> ph.at - 1 <= ph.last <= logs[ph.peer].last)
     && (ph.Fetched? ==>
           ph.at <= ph.last && (ph.at in logs[ph.peer].entries ==> logs[ph.peer].entries[ph.at] == ph.event))
     && (ph.Imported? || ph.Applied? || ph.Projected? ==> ph.at <= ph.last && Source(ph.peer, ph.at) in imported)
     && (ph.Applied? || ph.Projected? ==> Source(ph.peer, ph.at) in applied))
  }

  ghost predicate Shape(s: World) {
    && |s.logs| == |s.ids| && Distinct(s.ids)
    && (forall p :: 0 <= p < |s.ids| ==> s.ids[p] in s.checkpoints && LogOk(s.logs[p]))
  }

  /** The checkpoints by peer index. */
  ghost function Cps(s: World): (cps: seq<nat>)
    requires Shape(s)
    ensures |cps| == |s.ids| && forall p :: 0 <= p < |cps| ==> cps[p] == s.checkpoints[s.ids[p]]
  {
    seq(|s.ids|, p requires 0 <= p < |s.ids| => s.checkpoints[s.ids[p]])
  }

  ghost predicate Inv(s: World) {
    && Shape(s)
    && NoDuplicates(s)
    && (forall p :: 0 <= p < |s.ids| ==>
          Cps(s)[p] <= s.logs[p].last && Covered(s.logs[p], Cps(s)[p], p, s.imported, s.applied))
    && (forall src :: src in s.imported ==>
          && Recorded(s.logs, s.local, src, s.imported[src])
          && DoneBelow(s.logs[src.peer], Cps(s)[src.peer], src.at))
    && (forall w :: w in s.workers ==> WorkerOk(s.workers[w], s.logs, Cps(s), s.imported, s.applied))
  }

  lemma InvIsSafe(s: World)
    requires Inv(s)
    ensures Safe(s)
  {}

  lemma InitIsInv(ids: seq<string>, dedupe: bool)
    requires Distinct(ids)
    ensures Inv(Init(ids, dedupe))
  {}

  /** A log that only lost events, or gained some past its end. */
  ghost predicate Follows(log': Log, log: Log) {
    && LogOk(log') && log.last <= log'.last
    && forall q :: q in log'.entries ==> q > log.last || (q in log.entries && log.entries[q] == log'.entries[q])
  }

  lemma PositionKept(log: Log, log': Log, cp: nat, q: nat)
    requires Follows(log', log) && DoneBelow(log, cp, q) && q <= log.last + 1
    ensures DoneBelow(log', cp, q)
  {}

  lemma LogChangeKeepsInv(s: World, p: nat, log': Log)
    requires Inv(s) && p < |s.logs| && Follows(log', s.logs[p])
    ensures Inv(s.(logs := s.logs[p := log']))
  {
    var s' := s.(logs := s.logs[p := log']);
    assert Cps(s') == Cps(s);
    forall src | src in s.imported
      ensures Recorded(s'.logs, s.local, src, s.imported[src]) && DoneBelow(s'.logs[src.peer], Cps(s)[src.peer], src.at)
    {
      if src.peer == p { PositionKept(s.logs[p], log', Cps(s)[p], src.at); }
    }
    forall w | w in s.workers ensures WorkerOk(s.workers[w], s'.logs, Cps(s), s.imported, s.applied) {
      var ph := s.workers[w];
      if !ph.Idle? && ph.peer == p { PositionKept(s.logs[p], log', Cps(s)[p], ph.at); }
    }
  }

  lemma GrownFollows(log: Log, e: EventId)
    requires LogOk(log)
    ensures Follows(Log(log.last + 1, log.entries[log.last + 1 := e]), log)
  {}

  lemma GrowKeepsInv(s: World, p: nat, e: EventId)
    requires Inv(s)
    ensures Inv(Do(s, Grow(p, e)))
  {
    if p < |s.logs| {
      var log := s.logs[p];
      var log' := Log(log.last + 1, log.entries[log.last + 1 := e]);
      GrownFollows(log, e);
      assert Do(s, Grow(p, e)) == s.(logs := s.logs[p := log']);
      LogChangeKeepsInv(s, p, log');
    }
  }

  lemma PurgeKeepsInv(s: World, p: nat, q: nat)
    requires Inv(s)
    ensures Inv(Do(s, Purge(p, q)))
  {
    if p < |s.logs| { LogChangeKeepsInv(s, p, s.logs[p].(entries := s.logs[p].entries - {q})); }
  }

  lemma LocalKeepsInv(s: World, e: EventId)
    requires Inv(s)
    ensures Inv(Do(s, AppendLocal(e)))
  {
    var s' := Do(s, AppendLocal(e));
    assert Cps(s') == Cps(s);
  }

  lemma GotoKeepsInv(s: World, w: nat, ph: Phase)
    requires Inv(s) && WorkerOk(ph, s.logs, Cps(s), s.imported, s.applied)
    ensures Inv(Goto(s, w, ph))
  {
    assert Cps(Goto(s, w, ph)) == Cps(s);
  }

  /** The effect of an import, apart from the worker's own move. */
  lemma RecordKeepsInv(s: World, src: Source, e: EventId)
    requires Inv(s) && src.peer < |s.logs| && src.at <= s.logs[src.peer].last
    requires src.at in s.logs[src.peer].entries ==> s.logs[src.peer].entries[src.at] == e
    requires DoneBelow(s.logs[src.peer], Cps(s)[src.peer], src.at)
    ensures Inv(s.(local := Append(s.dedupe, s.local, e), imported := s.imported[src := e]))
  {
    var s' := s.(local := Append(s.dedupe, s.local, e), imported := s.imported[src := e]);
    assert Cps(s') == Cps(s);
    assert forall x :: x in s.local || x == e <==> x in s'.local;
    assert forall w :: w in s.workers ==> WorkerOk(s.workers[w], s.logs, Cps(s), s'.imported, s.applied);
  }

  lemma ImportKeepsInv(s: World, w: nat)
    requires Inv(s)
    ensures Inv(Do(s, Import(w)))
  {
    var ph := PhaseOf(s, w);
    if ph.Fetched? {
      var src := Source(ph.peer, ph.at);
      var s1 := s.(local := Append(s.dedupe, s.local, ph.event), imported := s.imported[src := ph.event]);
      RecordKeepsInv(s, src, ph.event);
      assert Cps(s1) == Cps(s);
      GotoKeepsInv(s1, w, Imported(ph.peer, ph.last, ph.at, ph.event));
    }
  }

  lemma ApplyKeepsInv(s: World, w: nat)
    requires Inv(s)
    ensures Inv(Do(s, Apply(w)))
  {
    var ph := PhaseOf(s, w);
    if ph.Imported? {
      var s1 := s.(applied := s.applied + {Source(ph.peer, ph.at)});
      AppliedKeepsInv(s, s1.applied);
      assert Cps(s1) == Cps(s);
      GotoKeepsInv(s1, w, Applied(ph.peer, ph.last, ph.at, ph.event));
    }
  }

  lemma AppliedKeepsInv(s: World, applied: set<Source>)
    requires Inv(s) && s.applied <= applied
    ensures Inv(s.(applied := applied))
  {
    assert Cps(s.(applied := applied)) == Cps(s);
  }

  /** The effect of moving a peer's checkpoint up over one applied event. */
  lemma RaiseKeepsInv(s: World, p: nat, q: nat)
    requires Inv(s) && p < |s.logs| && q <= s.logs[p].last
    requires DoneBelow(s.logs[p], Cps(s)[p], q)
    requires Source(p, q) in s.imported && Source(p, q) in s.applied
    ensures Inv(s.(checkpoints := s.checkpoints[s.ids[p] := Max(Checkpoint(s, p), q)]))
    ensures Cps(s.(checkpoints := s.checkpoints[s.ids[p] := Max(Checkpoint(s, p), q)])) ==
            Cps(s)[p := Max(Checkpoint(s, p), q)]
  {
    var s' := s.(checkpoints := s.checkpoints[s.ids[p] := Max(Checkpoint(s, p), q)]);
    assert Cps(s') == Cps(s)[p := Max(Checkpoint(s, p), q)];
  }

  lemma AdvanceKeepsInv(s: World, w: nat)
    requires Inv(s)
    ensures Inv(Do(s, AdvancePeer(w)))
  {
    var ph := PhaseOf(s, w);
    if ph.Projected? {
      RaiseKeepsInv(s, ph.peer, ph.at);
      var s1 := s.(checkpoints := s.checkpoints[s.ids[ph.peer] := Max(Checkpoint(s, ph.peer), ph.at)]);
      GotoKeepsInv(s1, w, Reading(ph.peer, ph.last, ph.at + 1));
    }
  }

  /** The steps that only move a worker along. */
  lemma MoveKeepsInv(s: World, step: Step)
    requires Inv(s)
    requires || step.Begin? || step.Open? || step.Skip? || step.Fetch?
             || step.AdvanceProjection? || step.Finish? || step.Fail?
    ensures Inv(Do(s, step))
  {
    var s' := Do(s, step);
    if s' != s { GotoKeepsInv(s, step.worker, s'.workers[step.worker]); }
  }

  lemma StepKeepsInv(s: World, step: Step)
    requires Inv(s)
    ensures Inv(Do(s, step))
  {
    match step
    case Grow(p, e) => GrowKeepsInv(s, p, e);
    case Purge(p, q) => PurgeKeepsInv(s, p, q);
    case AppendLocal(e) => LocalKeepsInv(s, e);
    case Import(w) => ImportKeepsInv(s, w);
    case Apply(w) => ApplyKeepsInv(s, w);
    case AdvancePeer(w) => AdvanceKeepsInv(s, w);
    case _ => MoveKeepsInv(s, step);
  }

  // ---------------------------------------------------------------- every behaviour

  lemma {:induction false} RunKeepsInv(s: World, steps: seq<Step>)
    requires Inv(s)
    ensures Inv(Run(s, steps))
  {
    if steps != [] {
      RunKeepsInv(s, steps[..|steps| - 1]);
      StepKeepsInv(Run(s, steps[..|steps| - 1]), steps[|steps| - 1]);
    }
  }

  lemma RunSnoc(s: World, steps: seq<Step>, step: Step)
    ensures Run(s, steps + [step]) == Do(Run(s, steps), step)
  {
    assert (steps + [step])[..|steps|] == steps;
  }

  lemma {:induction false} RunConcat(s: World, a: seq<Step>, b: seq<Step>)
    ensures Run(s, a + b) == Run(Run(s, a), b)
  {
    if b == [] {
      assert a + b == a;
    } else {
      RunConcat(s, a, b[..|b| - 1]);
      assert (a + b)[..|a + b| - 1] == a + b[..|b| - 1];
    }
  }

  lemma RunSplit(s: World, steps: seq<Step>, i: nat)
    requires i <= |steps|
    ensures Run(s, steps) == Run(Run(s, steps[..i]), steps[i..])
  {
    var a, b := steps[..i], steps[i..];
    assert a + b == steps;
    RunConcat(s, a, b);
  }

  /** What no step changes: the peers, and that their logs and checkpoints only move forward. */
  ghost predicate Onward(s: World, s': World) {
    && s'.ids == s.ids && s'.dedupe == s.dedupe && |s'.logs| == |s.logs|
    && (forall p :: 0 <= p < |s.logs| ==> Follows(s'.logs[p], s.logs[p]))
    && (forall id :: id in s.checkpoints ==> id in s'.checkpoints && s.checkpoints[id] <= s'.checkpoints[id])
  }

  lemma StepIsOnward(s: World, step: Step)
    requires Shape(s)
    ensures Shape(Do(s, step)) && Onward(s, Do(s, step))
  {
    if step.Grow? && step.peer < |s.logs| {
      GrownFollows(s.logs[step.peer], step.event);
    } else if step.Purge? && step.peer < |s.logs| {
      var log := s.logs[step.peer];
      assert Follows(log.(entries := log.entries - {step.at}), log);
    } else if !step.Grow? && !step.Purge? {
      LogsUntouched(s, step);
    }
  }

  lemma LogsUntouched(s: World, step: Step)
    requires !step.Grow? && !step.Purge?
    ensures var s' := Do(s, step);
      && s'.ids == s.ids && s'.dedupe == s.dedupe && s'.logs == s.logs
      && (s'.checkpoints == s.checkpoints || step.AdvancePeer?)
      && (forall id :: id in s.checkpoints ==> id in s'.checkpoints && s.checkpoints[id] <= s'.checkpoints[id])
  {}

  lemma {:induction false} RunIsOnward(s: World, steps: seq<Step>)
    requires Shape(s)
    ensures Shape(Run(s, steps)) && Onward(s, Run(s, steps))
  {
    if steps != [] {
      var init := steps[..|steps| - 1];
      RunIsOnward(s, init);
      StepIsOnward(Run(s, init), steps[|steps| - 1]);
      OnwardTransitive(s, Run(s, init), Run(s, steps));
    }
  }

  lemma OnwardTransitive(a: World, b: World, c: World)
    requires Onward(a, b) && Onward(b, c)
    ensures Onward(a, c)
  {}

  /** Between any two moments of a behaviour, no peer's checkpoint has moved back. */
  lemma CheckpointsNeverGoBack(s: World, steps: seq<Step>, i: nat, p: nat)
    requires Shape(s) && i <= |steps| && p < |s.ids|
    ensures IsPeer(Run(s, steps[..i]), p) && IsPeer(Run(s, steps), p)
    ensures Checkpoint(Run(s, steps[..i]), p) <= Checkpoint(Run(s, steps), p)
  {
    RunIsOnward(s, steps[..i]);
    RunIsOnward(Run(s, steps[..i]), steps[i..]);
    RunSplit(s, steps, i);
  }

  /** The local log only grows at its end. */
  lemma {:induction false} LocalOnlyGrows(s: World, steps: seq<Step>)
    ensures s.local <= Run(s, steps).local
  {
    if steps != [] {
      LocalOnlyGrows(s, steps[..|steps| - 1]);
      StepGrowsLocal(Run(s, steps[..|steps| - 1]), steps[|steps| - 1]);
    }
  }

  lemma StepGrowsLocal(s: World, step: Step)
    ensures s.local <= Do(s, step).local
  {}

  /**
   The local log follows each peer's order: whenever an event is imported, every earlier event its
   peer still holds, then or at any later time, is in the local log ahead of it.
   */
  lemma ImportsFollowPeerOrder(ids: seq<string>, dedupe: bool, steps: seq<Step>, k: nat)
    requires Distinct(ids) && k < |steps| && steps[k].Import?
    requires PhaseOf(Run(Init(ids, dedupe), steps[..k]), steps[k].worker).Fetched?
    ensures var s, s' := Run(Init(ids, dedupe), steps[..k]), Run(Init(ids, dedupe), steps);
      var ph := PhaseOf(s, steps[k].worker);
      && s.local <= s'.local && ph.event in Run(Init(ids, dedupe), steps[..k + 1]).local
      && ph.peer < |s'.logs|
      && forall r :: r in s'.logs[ph.peer].entries && r < ph.at ==> s'.logs[ph.peer].entries[r] in s.local
  {
    var s0 := Init(ids, dedupe);
    var s, s' := Run(s0, steps[..k]), Run(s0, steps);
    InitIsInv(ids, dedupe);
    RunKeepsInv(s0, steps[..k]);
    RunSplit(s0, steps, k);
    LocalOnlyGrows(s, steps[k..]);
    RunIsOnward(s, steps[k..]);
    RunStep(s0, steps, k, s);
    var ph := PhaseOf(s, steps[k].worker);
    assert WorkerOk(ph, s.logs, Cps(s), s.imported, s.applied);
    assert Follows(s'.logs[ph.peer], s.logs[ph.peer]);
    forall r | r in s'.logs[ph.peer].entries && r < ph.at
      ensures s'.logs[ph.peer].entries[r] in s.local
    {
      assert r in s.logs[ph.peer].entries && r <= Cps(s)[ph.peer];
      assert Recorded(s.logs, s.local, Source(ph.peer, r), s.imported[Source(ph.peer, r)]);
    }
  }

  /** The worker is about to import an event for the first time, and a later one of its peer has been imported. */
  ghost predicate Overtaken(s: World, w: nat) {
    var ph := PhaseOf(s, w);
    && ph.Fetched? && Source(ph.peer, ph.at) !in s.imported
    && exists src :: src in s.imported && src.peer == ph.peer && src.at > ph.at
  }

  /** Every peer's events are first imported in the order the peer has them. */
  ghost predicate InOrder(ids: seq<string>, dedupe: bool, steps: seq<Step>) {
    forall k: nat :: k < |steps| && steps[k].Import? ==>
      !Overtaken(Run(Init(ids, dedupe), steps[..k]), steps[k].worker)
  }

  predicate NoPurge(steps: seq<Step>) {
    forall k :: 0 <= k < |steps| ==> !steps[k].Purge?
  }

  /** What workers have fetched is still in the logs. */
  ghost predicate FetchedAreHeld(s: World) {
    forall w :: w in s.workers && s.workers[w].Fetched? ==>
      s.workers[w].peer < |s.logs| && s.workers[w].at in s.logs[s.workers[w].peer].entries
  }

  lemma StepHoldsFetched(s: World, step: Step)
    requires FetchedAreHeld(s) && !step.Purge?
    ensures FetchedAreHeld(Do(s, step))
  {}

  lemma {:induction false} RunHoldsFetched(ids: seq<string>, dedupe: bool, steps: seq<Step>)
    requires NoPurge(steps)
    ensures FetchedAreHeld(Run(Init(ids, dedupe), steps))
  {
    if steps != [] {
      var n := |steps| - 1;
      RunHoldsFetched(ids, dedupe, steps[..n]);
      StepHoldsFetched(Run(Init(ids, dedupe), steps[..n]), steps[n]);
    }
  }

  /** Only an event its peer no longer holds can be overtaken. */
  lemma OvertakenIsPurged(s: World, w: nat)
    requires Inv(s) && Overtaken(s, w)
    ensures var ph := PhaseOf(s, w); ph.peer < |s.logs| && ph.at !in s.logs[ph.peer].entries
  {
    var ph := PhaseOf(s, w);
    assert WorkerOk(ph, s.logs, Cps(s), s.imported, s.applied);
    var src :| src in s.imported && src.peer == ph.peer && src.at > ph.at;
    assert DoneBelow(s.logs[ph.peer], Cps(s)[ph.peer], src.at);
    assert Covered(s.logs[ph.peer], Cps(s)[ph.peer], ph.peer, s.imported, s.applied);
  }

  lemma KeptIsInOrder(ids: seq<string>, dedupe: bool, steps: seq<Step>)
    requires Distinct(ids) && NoPurge(steps)
    ensures InOrder(ids, dedupe, steps)
  {
    forall k: nat | k < |steps| && steps[k].Import?
      ensures !Overtaken(Run(Init(ids, dedupe), steps[..k]), steps[k].worker)
    {
      var s := Run(Init(ids, dedupe), steps[..k]);
      RunHoldsFetched(ids, dedupe, steps[..k]);
      InitIsInv(ids, dedupe);
      RunKeepsInv(Init(ids, dedupe), steps[..k]);
      if Overtaken(s, steps[k].worker) { OvertakenIsPurged(s, steps[k].worker); }
    }
  }

  /** Two workers on one peer, whose first event is purged between being fetched and being imported. */
  function LateRun(): (steps: seq<Step>) {
    [Grow(0, 1), Grow(0, 2), Begin(0, 0)] + [Open(0), Fetch(0), Purge(0, 1)] +
    [Begin(1, 0), Open(1), Skip(1)] + [Fetch(1), Import(1), Import(0)]
  }

  /** An event the peer no longer holds can arrive after its successor. */
  lemma PurgedEventArrivesLate(ids: seq<string>, dedupe: bool)
    requires ids != []
    ensures Run(Init(ids, dedupe), LateRun()).local == [2, 1] && !InOrder(ids, dedupe, LateRun())
  {
    var s0 := Init(ids, dedupe);
    var a, b := [Grow(0, 1), Grow(0, 2), Begin(0, 0)], [Open(0), Fetch(0), Purge(0, 1)];
    var c, d := [Begin(1, 0), Open(1), Skip(1)], [Fetch(1), Import(1)];
    RunConcat(s0, a + b + c, d);
    RunConcat(s0, a + b, c);
    RunConcat(s0, a, b);
    TwoEvents(ids, dedupe);
    FirstIsPurged(Run(s0, a));
    FirstIsSkipped(Run(s0, a + b));
    SecondGoesFirst(Run(s0, a + b + c));
    LastIsOvertaken(ids, dedupe, a + b + c + d);
  }

  lemma LastIsOvertaken(ids: seq<string>, dedupe: bool, steps: seq<Step>)
    requires steps + [Import(0)] == LateRun() && Run(Init(ids, dedupe), steps).local == [2]
    requires PhaseOf(Run(Init(ids, dedupe), steps), 0) == Fetched(0, 2, 1, 1)
    requires Run(Init(ids, dedupe), steps).imported == map[Source(0, 2) := 2]
    ensures Run(Init(ids, dedupe), LateRun()).local == [2, 1] && !InOrder(ids, dedupe, LateRun())
  {
    RunSnoc(Init(ids, dedupe), steps, Import(0));
    var s := Run(Init(ids, dedupe), steps);
    assert Source(0, 2) in s.imported;
    assert Overtaken(s, 0);
    assert LateRun()[..|steps|] == steps && LateRun()[|steps|] == Import(0);
  }

  lemma TwoEvents(ids: seq<string>, dedupe: bool)
    requires ids != []
    ensures var s := Run(Init(ids, dedupe), [Grow(0, 1), Grow(0, 2), Begin(0, 0)]);
      && IsPeer(s, 0) && Checkpoint(s, 0) == 0 && s.local == [] && s.imported == map[]
      && s.logs[0] == Log(2, map[1 := 1, 2 := 2]) && s.workers == map[0 := Starting(0, 1)]
  {
    var s := Init(ids, dedupe);
    RunThree(s, Grow(0, 1), Grow(0, 2), Begin(0, 0));
    var s1 := Do(s, Grow(0, 1));
    assert s1 == s.(logs := s.logs[0 := Log(1, map[1 := 1])]);
    var s2 := Do(s1, Grow(0, 2));
    assert s2 == s1.(logs := s1.logs[0 := Log(2, map[1 := 1, 2 := 2])]);
    assert IsPeer(s2, 0) && Checkpoint(s2, 0) == 0;
  }

  lemma FirstIsPurged(s: World)
    requires 0 < |s.logs| && s.logs[0] == Log(2, map[1 := 1, 2 := 2]) && s.workers == map[0 := Starting(0, 1)]
    ensures Run(s, [Open(0), Fetch(0), Purge(0, 1)]) ==
            s.(logs := s.logs[0 := Log(2, map[2 := 2])], workers := map[0 := Fetched(0, 2, 1, 1)])
  {
    RunThree(s, Open(0), Fetch(0), Purge(0, 1));
    FirstIsFetched(s);
    PurgesFirst(s.(workers := map[0 := Fetched(0, 2, 1, 1)]));
  }

  lemma FirstIsFetched(s: World)
    requires 0 < |s.logs| && s.logs[0] == Log(2, map[1 := 1, 2 := 2]) && s.workers == map[0 := Starting(0, 1)]
    ensures Do(Do(s, Open(0)), Fetch(0)) == s.(workers := map[0 := Fetched(0, 2, 1, 1)])
  {
    var s1 := s.(workers := map[0 := Reading(0, 2, 1)]);
    assert Do(s, Open(0)) == s1;
    assert s1.workers[0 := Fetched(0, 2, 1, 1)] == map[0 := Fetched(0, 2, 1, 1)];
  }

  lemma PurgesFirst(s: World)
    requires 0 < |s.logs| && s.logs[0] == Log(2, map[1 := 1, 2 := 2])
    ensures Do(s, Purge(0, 1)) == s.(logs := s.logs[0 := Log(2, map[2 := 2])])
  {
    assert s.logs[0].entries - {1} == map[2 := 2];
  }

  lemma FirstIsSkipped(s: World)
    requires IsPeer(s, 0) && Checkpoint(s, 0) == 0
    requires s.logs[0] == Log(2, map[2 := 2]) && s.workers == map[0 := Fetched(0, 2, 1, 1)]
    ensures Run(s, [Begin(1, 0), Open(1), Skip(1)]) ==
            s.(workers := map[0 := Fetched(0, 2, 1, 1), 1 := Reading(0, 2, 2)])
  {
    RunThree(s, Begin(1, 0), Open(1), Skip(1));
    OtherBegins(s);
    OtherSkips(s, s.workers[1 := Reading(0, 2, 1)]);
  }

  lemma OtherSkips(s: World, workers: map<nat, Phase>)
    requires 0 < |s.logs| && s.logs[0] == Log(2, map[2 := 2])
    requires workers == map[0 := Fetched(0, 2, 1, 1), 1 := Reading(0, 2, 1)]
    ensures Do(s.(workers := workers), Skip(1)) ==
            s.(workers := map[0 := Fetched(0, 2, 1, 1), 1 := Reading(0, 2, 2)])
  {
    assert workers[1 := Reading(0, 2, 2)] == map[0 := Fetched(0, 2, 1, 1), 1 := Reading(0, 2, 2)];
  }

  lemma OtherBegins(s: World)
    requires IsPeer(s, 0) && Checkpoint(s, 0) == 0 && 1 !in s.workers && s.logs[0].last == 2
    ensures Do(Do(s, Begin(1, 0)), Open(1)) == s.(workers := s.workers[1 := Reading(0, 2, 1)])
  {
    var s1 := s.(workers := s.workers[1 := Starting(0, 1)]);
    assert Do(s, Begin(1, 0)) == s1;
    assert s1.workers[1 := Reading(0, 2, 1)] == s.workers[1 := Reading(0, 2, 1)];
  }

  lemma SecondGoesFirst(s: World)
    requires 0 < |s.logs| && s.logs[0] == Log(2, map[2 := 2]) && s.local == [] && s.imported == map[]
    requires s.workers == map[0 := Fetched(0, 2, 1, 1), 1 := Reading(0, 2, 2)]
    ensures var s' := Run(s, [Fetch(1), Import(1)]);
      s'.local == [2] && s'.imported == map[Source(0, 2) := 2] && PhaseOf(s', 0) == Fetched(0, 2, 1, 1)
  {
    RunTwo(s, Fetch(1), Import(1));
    var s1 := s.(workers := s.workers[1 := Fetched(0, 2, 2, 2)]);
    assert Do(s, Fetch(1)) == s1;
    ImportsFetched(s1);
  }

  lemma ImportsFetched(s: World)
    requires s.local == [] && s.imported == map[] && 0 in s.workers && s.workers[0] == Fetched(0, 2, 1, 1)
    requires 1 in s.workers && s.workers[1] == Fetched(0, 2, 2, 2)
    ensures var s' := Do(s, Import(1));
      s'.local == [2] && s'.imported == map[Source(0, 2) := 2] && PhaseOf(s', 0) == Fetched(0, 2, 1, 1)
  {
    assert PhaseOf(s, 1) == Fetched(0, 2, 2, 2);
  }

  /** Imports follow every peer's order in all behaviours exactly when no peer purges, or there is no peer. */
  lemma InOrderExactlyWhenKept(ids: seq<string>, dedupe: bool, keeps: bool)
    requires Distinct(ids)
    ensures (forall steps: seq<Step> :: (keeps ==> NoPurge(steps)) ==> InOrder(ids, dedupe, steps)) <==>
            keeps || ids == []
  {
    if keeps {
      forall steps: seq<Step> | NoPurge(steps) ensures InOrder(ids, dedupe, steps) {
        KeptIsInOrder(ids, dedupe, steps);
      }
    } else if ids == [] {
      forall steps: seq<Step> ensures InOrder(ids, dedupe, steps) { NoPeersNoImports(ids, dedupe, steps); }
    } else {
      PurgedEventArrivesLate(ids, dedupe);
    }
  }

  lemma NoPeersNoImports(ids: seq<string>, dedupe: bool, steps: seq<Step>)
    requires ids == []
    ensures InOrder(ids, dedupe, steps)
  {
    forall k: nat | k < |steps| && steps[k].Import?
      ensures !PhaseOf(Run(Init(ids, dedupe), steps[..k]), steps[k].worker).Fetched?
    {
      var s := Run(Init(ids, dedupe), steps[..k]);
      InitIsInv(ids, dedupe);
      RunKeepsInv(Init(ids, dedupe), steps[..k]);
      RunIsOnward(Init(ids, dedupe), steps[..k]);
      if PhaseOf(s, steps[k].worker).Fetched? {
        FetchedHasPeer(s, steps[k].worker);
      }
    }
  }

  lemma FetchedHasPeer(s: World, w: nat)
    requires Inv(s) && PhaseOf(s, w).Fetched?
    ensures PhaseOf(s, w).peer < |s.logs|
  {
    assert WorkerOk(PhaseOf(s, w), s.logs, Cps(s), s.imported, s.applied);
  }

  /** The run in which two peers that share a checkpoint row lose an event. */
  function LosingRun(i: nat, j: nat): (steps: seq<Step>) {
    [Grow(i, 1), Grow(j, 2), Begin(0, i), Open(0), Fetch(0), Import(0), Apply(0), AdvanceProjection(0), AdvancePeer(0)]
  }

  lemma DuplicateIdsLoseEvents(ids: seq<string>, dedupe: bool, i: nat, j: nat)
    requires i < |ids| && j < |ids| && i != j && ids[i] == ids[j]
    ensures !NothingLost(Run(Init(ids, dedupe), LosingRun(i, j)))
  {
    var s0 := Init(ids, dedupe);
    var all := LosingRun(i, j);
    var s2 := Do(Do(s0, all[0]), all[1]);
    assert Run(s0, all[..0]) == s0;
    RunStep(s0, all, 0, s0);
    RunStep(s0, all, 1, Do(s0, all[0]));
    assert s2.logs[i] == Log(1, map[1 := 1]) && s2.logs[j] == Log(1, map[1 := 2]);
    assert all[2..] == ReplicateFirst(i);
    ReplicatesFirst(s2, i);
    RunConcat(s0, all[..2], all[2..]);
    assert all[..2] + all[2..] == all;
    var s9 := Run(s0, all);
    assert IsPeer(s9, j) && 1 in s9.logs[j].entries && Source(j, 1) !in s9.applied;
  }

  function ReplicateFirst(p: nat): (steps: seq<Step>) {
    [Begin(0, p), Open(0), Fetch(0)] + [Import(0), Apply(0), AdvanceProjection(0)] + [AdvancePeer(0)]
  }

  lemma ReplicatesFirst(s: World, p: nat)
    requires IsPeer(s, p) && Checkpoint(s, p) == 0 && PhaseOf(s, 0).Idle?
    requires s.logs[p].last == 1 && 1 in s.logs[p].entries
    ensures var s' := Run(s, ReplicateFirst(p));
      && s'.ids == s.ids && s'.logs == s.logs && s'.applied == s.applied + {Source(p, 1)}
      && s'.checkpoints == s.checkpoints[s.ids[p] := 1]
  {
    var a, b := [Begin(0, p), Open(0), Fetch(0)], [Import(0), Apply(0), AdvanceProjection(0)];
    RunConcat(s, a + b, [AdvancePeer(0)]);
    RunConcat(s, a, b);
    FetchesFirst(s, p);
    ProjectsFetched(Run(s, a), p, s.logs[p].entries[1]);
    AdvancesProjected(Run(s, a + b), p, s.logs[p].entries[1]);
  }

  lemma AdvancesProjected(s: World, p: nat, e: EventId)
    requires IsPeer(s, p) && Checkpoint(s, p) == 0 && PhaseOf(s, 0) == Projected(p, 1, 1, e)
    ensures var s' := Run(s, [AdvancePeer(0)]);
      && s'.ids == s.ids && s'.logs == s.logs && s'.applied == s.applied
      && s'.checkpoints == s.checkpoints[s.ids[p] := 1]
  {
    RunSnoc(s, [], AdvancePeer(0));
    assert [] + [AdvancePeer(0)] == [AdvancePeer(0)];
  }

  lemma RunThree(s: World, a: Step, b: Step, c: Step)
    ensures Run(s, [a, b, c]) == Do(Do(Do(s, a), b), c)
  {
    RunTwo(s, a, b);
    RunSnoc(s, [a, b], c);
    assert [a, b] + [c] == [a, b, c];
  }

  lemma RunTwo(s: World, a: Step, b: Step)
    ensures Run(s, [a, b]) == Do(Do(s, a), b)
  {
    RunSnoc(s, [], a);
    RunSnoc(s, [a], b);
    assert [] + [a] == [a] && [a] + [b] == [a, b];
  }

  lemma FetchesFirst(s: World, p: nat)
    requires IsPeer(s, p) && Checkpoint(s, p) == 0 && PhaseOf(s, 0).Idle?
    requires s.logs[p].last == 1 && 1 in s.logs[p].entries
    ensures var s' := Run(s, [Begin(0, p), Open(0), Fetch(0)]);
      && s' == s.(workers := s'.workers) && PhaseOf(s', 0) == Fetched(p, 1, 1, s.logs[p].entries[1])
  {
    RunThree(s, Begin(0, p), Open(0), Fetch(0));
    assert PhaseOf(Do(s, Begin(0, p)), 0) == Starting(p, 1);
  }

  lemma ProjectsFetched(s: World, p: nat, e: EventId)
    requires IsPeer(s, p) && PhaseOf(s, 0) == Fetched(p, 1, 1, e)
    ensures var s' := Run(s, [Import(0), Apply(0), AdvanceProjection(0)]);
      && s'.ids == s.ids && s'.logs == s.logs && s'.checkpoints == s.checkpoints
      && s'.applied == s.applied + {Source(p, 1)} && PhaseOf(s', 0) == Projected(p, 1, 1, e)
  {
    RunThree(s, Import(0), Apply(0), AdvanceProjection(0));
    var s1 := Do(s, Import(0));
    assert PhaseOf(s1, 0) == Imported(p, 1, 1, e);
    assert PhaseOf(Do(s1, Apply(0)), 0) == Applied(p, 1, 1, e);
  }

  lemma RunStep(s: World, all: seq<Step>, k: nat, sk: World)
    requires k < |all| && Run(s, all[..k]) == sk
    ensures Run(s, all[..k + 1]) == Do(sk, all[k])
  {
    assert all[..k + 1] == all[..k] + [all[k]];
    RunSnoc(s, all[..k], all[k]);
  }

  /**
   Federation is safe in every state of every behaviour exactly when no two configured peers share
   an id, which the worker's own validation does not check.
   */
  lemma SafeExactlyWhenIdsDistinct(ids: seq<string>, dedupe: bool)
    ensures (forall steps: seq<Step> :: Safe(Run(Init(ids, dedupe), steps))) <==> Distinct(ids)
  {
    if Distinct(ids) {
      forall steps: seq<Step> ensures Safe(Run(Init(ids, dedupe), steps)) {
        InitIsInv(ids, dedupe);
        RunKeepsInv(Init(ids, dedupe), steps);
        InvIsSafe(Run(Init(ids, dedupe), steps));
      }
    } else {
      var i, j :| 0 <= i < j < |ids| && ids[i] == ids[j];
      DuplicateIdsLoseEvents(ids, dedupe, i, j);
      assert !Safe(Run(Init(ids, dedupe), LosingRun(i, j)));
    }
  }

  // ---------------------------------------------------------------- caught up means quiet

  /** Every peer's checkpoint has reached the head of its log. */
  ghost predicate CaughtUp(s: World)
    requires Shape(s)
  {
    forall p, q :: 0 <= p < |s.ids| && q in s.logs[p].entries ==> q <= s.checkpoints[s.ids[p]]
  }

  /** Every worker is idle or looking past its peer's checkpoint. */
  ghost predicate Ahead(s: World)
    requires Shape(s)
  {
    forall w :: w in s.workers ==>
      var ph := s.workers[w];
      ph.Idle? || ((ph.Starting? || ph.Reading?) && ph.peer < |s.ids| && ph.at > s.checkpoints[s.ids[ph.peer]])
  }

  ghost predicate NoNewEvents(steps: seq<Step>) {
    forall i :: 0 <= i < |steps| ==> !steps[i].Grow? && !steps[i].AppendLocal?
  }

  /**
   Once caught up, running again imports nothing: the local log, the read model and the checkpoints
   stay as they are until a peer's log grows.
   */
  lemma {:induction false} CaughtUpIsQuiet(s: World, steps: seq<Step>)
    requires Shape(s) && CaughtUp(s) && Ahead(s) && NoNewEvents(steps)
    ensures var s' := Run(s, steps);
      && Shape(s') && CaughtUp(s') && Ahead(s')
      && s'.local == s.local && s'.imported == s.imported && s'.applied == s.applied
      && s'.checkpoints == s.checkpoints
  {
    if steps != [] {
      var init, last := steps[..|steps| - 1], steps[|steps| - 1];
      CaughtUpIsQuiet(s, init);
      QuietStep(Run(s, init), last);
    }
  }

  lemma QuietStep(s: World, step: Step)
    requires Shape(s) && CaughtUp(s) && Ahead(s) && !step.Grow? && !step.AppendLocal?
    ensures var s' := Do(s, step);
      && Shape(s') && CaughtUp(s') && Ahead(s')
      && s'.local == s.local && s'.imported == s.imported && s'.applied == s.applied
      && s'.checkpoints == s.checkpoints
  {
    if step.Purge? {
      StepIsOnward(s, step);
    } else {
      QuietMove(s, step);
    }
  }

  /** Where a worker that is ahead can go: never to an event. */
  lemma QuietMove(s: World, step: Step)
    requires Shape(s) && CaughtUp(s) && Ahead(s) && !step.Grow? && !step.AppendLocal? && !step.Purge?
    ensures var s' := Do(s, step);
      s' == s || (
        && s' == Goto(s, step.worker, PhaseOf(s', step.worker))
        && var ph := PhaseOf(s', step.worker);
           ph.Idle? || ((ph.Starting? || ph.Reading?) && ph.peer < |s.ids| && ph.at > s.checkpoints[s.ids[ph.peer]]))
  {}
}
