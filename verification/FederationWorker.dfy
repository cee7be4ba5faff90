/** replicatePeer and RunOnce of ee/federation, run among the other steps of the system. */
module FederationWorker {
  import opened Federation
  import opened Names

  predicate ByWorker(step: Step, w: nat) {
    !step.Grow? && !step.Purge? && !step.AppendLocal? && step.worker == w
  }

  lemma OthersLeavePhase(s: World, step: Step, w: nat)
    requires !ByWorker(step, w)
    ensures PhaseOf(Do(s, step), w) == PhaseOf(s, w)
  {}

  /** Every present event of the peer up to n is at or below its checkpoint. */
  ghost predicate Reached(s: World, p: nat, n: nat)
    requires IsPeer(s, p)
  {
    DoneBelow(s.logs[p], Checkpoint(s, p), n + 1)
  }

  /** The state a behaviour of this configuration has led to. */
  function At(ids: seq<string>, dedupe: bool, t: seq<Step>): (s: World) {
    Run(Init(ids, dedupe), t)
  }

  lemma Later(ids: seq<string>, dedupe: bool, t: seq<Step>, t': seq<Step>)
    requires Distinct(ids) && t <= t'
    ensures Shape(At(ids, dedupe, t)) && Shape(At(ids, dedupe, t'))
    ensures Onward(At(ids, dedupe, t), At(ids, dedupe, t'))
  {
    InitIsInv(ids, dedupe);
    RunIsOnward(Init(ids, dedupe), t);
    RunIsOnward(At(ids, dedupe, t), t'[|t|..]);
    RunConcat(Init(ids, dedupe), t, t'[|t|..]);
    assert t + t'[|t|..] == t';
  }

  lemma PeersStay(ids: seq<string>, dedupe: bool, t: seq<Step>)
    requires Distinct(ids)
    ensures At(ids, dedupe, t).ids == ids && |At(ids, dedupe, t).logs| == |ids|
    ensures forall p :: 0 <= p < |ids| ==> IsPeer(At(ids, dedupe, t), p)
  {
    InitIsInv(ids, dedupe);
    RunIsOnward(Init(ids, dedupe), t);
  }

  lemma LogNeverShrinks(ids: seq<string>, dedupe: bool, t: seq<Step>, t': seq<Step>, p: nat)
    requires Distinct(ids) && t <= t' && p < |ids|
    ensures p < |At(ids, dedupe, t).logs| && p < |At(ids, dedupe, t').logs|
    ensures At(ids, dedupe, t).logs[p].last <= At(ids, dedupe, t').logs[p].last
  {
    PeersStay(ids, dedupe, t);
    Later(ids, dedupe, t, t');
    assert Follows(At(ids, dedupe, t').logs[p], At(ids, dedupe, t).logs[p]);
  }

  /** Later on the peer may have lost events, and gained some past n, but is still reached. */
  lemma ReachedStays(ids: seq<string>, dedupe: bool, t: seq<Step>, t': seq<Step>, p: nat, n: nat)
    requires Distinct(ids) && t <= t' && p < |ids|
    requires var s := At(ids, dedupe, t); IsPeer(s, p) && n <= s.logs[p].last && Reached(s, p, n)
    ensures IsPeer(At(ids, dedupe, t'), p) && Reached(At(ids, dedupe, t'), p, n)
  {
    Later(ids, dedupe, t, t');
    assert Follows(At(ids, dedupe, t').logs[p], At(ids, dedupe, t).logs[p]);
  }

  /** A worker that has read past its snapshot of the log has reached its end. */
  lemma ReadingPastEnd(ids: seq<string>, dedupe: bool, t: seq<Step>, w: nat)
    requires Distinct(ids)
    ensures var s := At(ids, dedupe, t); var ph := PhaseOf(s, w);
      ph.Reading? && ph.at > ph.last ==>
        IsPeer(s, ph.peer) && ph.last <= s.logs[ph.peer].last && Reached(s, ph.peer, ph.last)
  {
    InitIsInv(ids, dedupe);
    RunKeepsInv(Init(ids, dedupe), t);
    var s := At(ids, dedupe, t);
    var ph := PhaseOf(s, w);
    if ph.Reading? && ph.at > ph.last {
      assert WorkerOk(ph, s.logs, Cps(s), s.imported, s.applied);
    }
  }

  class Worker {
    const me: nat
    ghost const ids: seq<string>
    ghost const dedupe: bool
    var world: World
    /** Every step since the system was set up, by this worker and by everything else. */
    ghost var trace: seq<Step>

    /** The world is where the trace leads, so it is a state of a behaviour. */
    ghost predicate Valid()
      reads this
    {
      && Distinct(ids) && world == At(ids, dedupe, trace)
      && world.ids == ids && |world.logs| == |ids| && forall p :: 0 <= p < |ids| ==> IsPeer(world, p)
    }

    constructor (me: nat, ids: seq<string>, dedupe: bool)
      requires Distinct(ids)
      ensures Valid() && this.me == me && this.ids == ids && this.dedupe == dedupe && trace == []
      ensures PhaseOf(world, me).Idle?
    {
      this.me, this.world := me, Init(ids, dedupe);
      this.ids, this.dedupe, trace := ids, dedupe, [];
    }

    /** One step of the system. */
    method Take(step: Step)
      requires Valid()
      modifies this
      ensures Valid() && trace == old(trace) + [step] && world == Do(old(world), step)
    {
      world := Do(world, step);
      trace := trace + [step];
      RunSnoc(Init(ids, dedupe), old(trace), step);
      PeersStay(ids, dedupe, trace);
    }

    /** Whatever the rest of the system does before this worker's next step. */
    method Interfere()
      requires Valid()
      modifies this
      ensures Valid() && old(trace) <= trace && PhaseOf(world, me) == PhaseOf(old(world), me)
    {
      var more: bool := *;
      var n: int := *;
      while more && n > 0
        invariant Valid() && old(trace) <= trace && PhaseOf(world, me) == PhaseOf(old(world), me)
      {
        var step: Step := *;
        if !ByWorker(step, me) {
          OthersLeavePhase(world, step, me);
          Take(step);
        }
        n := n - 1;
      }
    }

    /** A step of this worker, followed by anything others do. */
    method Act(step: Step)
      requires Valid()
      modifies this
      ensures Valid() && old(trace) <= trace && PhaseOf(world, me) == PhaseOf(Do(old(world), step), me)
    {
      Take(step);
      Interfere();
    }

    // The worker's own steps, with where each leaves it.

    method Stop()
      requires Valid()
      modifies this
      ensures Valid() && old(trace) <= trace
      ensures PhaseOf(world, me).Idle?
    {
      Act(Fail(me));
    }

    method ReadCheckpoint(p: nat)
      requires Valid() && p < |ids| && PhaseOf(world, me).Idle?
      modifies this
      ensures Valid() && old(trace) <= trace
      ensures PhaseOf(world, me).Starting? && PhaseOf(world, me).peer == p
    {
      Act(Begin(me, p));
    }

    method OpenLog()
      requires Valid() && PhaseOf(world, me).Starting? && PhaseOf(world, me).peer < |ids|
      modifies this
      ensures Valid() && old(trace) <= trace
      ensures PhaseOf(world, me).Reading? && PhaseOf(world, me).peer == PhaseOf(old(world), me).peer
      ensures PhaseOf(world, me).last == old(world).logs[PhaseOf(old(world), me).peer].last
    {
      Act(Open(me));
    }

    // The four calls for one event. A call that fails may have taken effect or not.

    method ImportEvent() returns (ok: bool)
      requires Valid() && PhaseOf(world, me).Fetched?
      modifies this
      ensures Valid() && old(trace) <= trace
      ensures var ph := PhaseOf(old(world), me);
        ok ==> PhaseOf(world, me) == Imported(ph.peer, ph.last, ph.at, ph.event)
    {
      ok := Succeeds();
      var effect := Succeeds();
      if ok || effect { Act(Import(me)); }
    }

    method ApplyEvent() returns (ok: bool)
      requires Valid() && PhaseOf(world, me).Imported?
      modifies this
      ensures Valid() && old(trace) <= trace
      ensures var ph := PhaseOf(old(world), me); ok ==> PhaseOf(world, me) == Applied(ph.peer, ph.last, ph.at, ph.event)
    {
      ok := Succeeds();
      var effect := Succeeds();
      if ok || effect { Act(Apply(me)); }
    }

    method ProjectEvent() returns (ok: bool)
      requires Valid() && PhaseOf(world, me).Applied?
      modifies this
      ensures Valid() && old(trace) <= trace
      ensures var ph := PhaseOf(old(world), me);
        ok ==> PhaseOf(world, me) == Projected(ph.peer, ph.last, ph.at, ph.event)
    {
      ok := Succeeds();
      var effect := Succeeds();
      if ok || effect { Act(AdvanceProjection(me)); }
    }

    method AdvanceCheckpoint() returns (ok: bool)
      requires Valid() && PhaseOf(world, me).Projected? && PhaseOf(world, me).peer < |ids|
      modifies this
      ensures Valid() && old(trace) <= trace
      ensures var ph := PhaseOf(old(world), me); ok ==> PhaseOf(world, me) == Reading(ph.peer, ph.last, ph.at + 1)
    {
      ok := Succeeds();
      var effect := Succeeds();
      if ok || effect { Act(AdvancePeer(me)); }
    }

    method Leave()
      requires Valid() && PhaseOf(world, me).Reading? && PhaseOf(world, me).at > PhaseOf(world, me).last
      modifies this
      ensures Valid() && old(trace) <= trace
      ensures PhaseOf(world, me).Idle?
    {
      Act(Finish(me));
    }

    /** The outcome of a call that may fail. */
    method Succeeds() returns (ok: bool) {
      ok := *;
    }

    /** The replay callback for one event: four calls, each of which can fail. */
    method ImportOne() returns (ok: bool)
      requires Valid() && PhaseOf(world, me).Fetched? && PhaseOf(world, me).peer < |ids|
      modifies this
      ensures Valid() && old(trace) <= trace
      ensures var ph := PhaseOf(old(world), me);
        PhaseOf(world, me) == if ok then Reading(ph.peer, ph.last, ph.at + 1) else Idle
    {
      ok := ImportEvent();
      if ok { ok := ApplyEvent(); }
      if ok { ok := ProjectEvent(); }
      if ok { ok := AdvanceCheckpoint(); }
      if !ok { Stop(); }
    }

    /**
     replicatePeer. Every exit leaves a state of a behaviour; a success has carried the checkpoint
     past every event the peer's log held when the call began.
     */
    method ReplicatePeer(p: nat) returns (ok: bool)
      requires Valid() && p < |ids| && PhaseOf(world, me).Idle?
      modifies this
      ensures Valid() && old(trace) <= trace && PhaseOf(world, me).Idle?
      ensures ok ==> Reached(world, p, old(world).logs[p].last)
    {
      ok := Succeeds();
      if !ok { return; }
      ReadCheckpoint(p);
      ok := Succeeds();
      if !ok {
        Stop();
        return;
      }
      LogNeverShrinks(ids, dedupe, old(trace), trace, p);
      OpenLog();
      ok := ReadAll(p);
      if ok {
        ghost var done, last := trace, PhaseOf(world, me).last;
        ReadingPastEnd(ids, dedupe, trace, me);
        Leave();
        ReachedStays(ids, dedupe, done, trace, p, last);
      }
    }

    /** The replay loop over the snapshot of the log. */
    method ReadAll(p: nat) returns (ok: bool)
      requires Valid() && p < |ids| && PhaseOf(world, me).Reading? && PhaseOf(world, me).peer == p
      modifies this
      ensures Valid() && old(trace) <= trace
      ensures !ok ==> PhaseOf(world, me).Idle?
      ensures ok ==> var ph := PhaseOf(world, me);
        ph.Reading? && ph.peer == p && ph.last == PhaseOf(old(world), me).last && ph.at > ph.last
    {
      while PhaseOf(world, me).at <= PhaseOf(world, me).last
        invariant Valid() && old(trace) <= trace
        invariant PhaseOf(world, me).Reading? && PhaseOf(world, me).peer == p
        invariant PhaseOf(world, me).last == PhaseOf(old(world), me).last
        decreases PhaseOf(world, me).last + 1 - PhaseOf(world, me).at
      {
        if PhaseOf(world, me).at !in world.logs[p].entries {
          Act(Skip(me));
        } else {
          Act(Fetch(me));
          ok := ImportOne();
          if !ok { return; }
        }
      }
      ok := true;
    }

    /** RunOnce: every peer in turn, stopping at the first error. */
    method RunOnce() returns (ok: bool)
      requires Valid() && PhaseOf(world, me).Idle?
      modifies this
      ensures Valid() && old(trace) <= trace && PhaseOf(world, me).Idle?
      ensures ok ==> ReachedFirst(ids, dedupe, old(trace), trace, |ids|)
    {
      for p := 0 to |world.ids|
        invariant Valid() && old(trace) <= trace && PhaseOf(world, me).Idle?
        invariant ReachedFirst(ids, dedupe, old(trace), trace, p)
      {
        ghost var before := trace;
        ok := ReplicatePeer(p);
        if !ok { return; }
        ReachedOneMore(ids, dedupe, old(trace), before, trace, p);
      }
      ok := true;
    }
  }

  /** At time t' each of the first n peers has been reached up to the head its log had at time t. */
  ghost predicate ReachedFirst(ids: seq<string>, dedupe: bool, t: seq<Step>, t': seq<Step>, n: nat) {
    var s, s' := At(ids, dedupe, t), At(ids, dedupe, t');
    forall p :: 0 <= p < n ==> p < |s.logs| && IsPeer(s', p) && Reached(s', p, s.logs[p].last)
  }

  lemma ReachedOneMore(ids: seq<string>, dedupe: bool, t: seq<Step>, mid: seq<Step>, t': seq<Step>, n: nat)
    requires Distinct(ids) && t <= mid <= t' && n < |ids|
    requires ReachedFirst(ids, dedupe, t, mid, n)
    requires n < |At(ids, dedupe, mid).logs| && IsPeer(At(ids, dedupe, t'), n)
    requires Reached(At(ids, dedupe, t'), n, At(ids, dedupe, mid).logs[n].last)
    ensures ReachedFirst(ids, dedupe, t, t', n + 1)
  {
    forall p | 0 <= p < n + 1
      ensures p < |At(ids, dedupe, t).logs| && IsPeer(At(ids, dedupe, t'), p)
      ensures Reached(At(ids, dedupe, t'), p, At(ids, dedupe, t).logs[p].last)
    {
      LogNeverShrinks(ids, dedupe, t, mid, p);
      if p < n { ReachedStays(ids, dedupe, mid, t', p, At(ids, dedupe, t).logs[p].last); }
    }
  }

  /**
   After an error-free RunOnce during which no peer's log grew, the system is caught up, and nothing
   any worker then does imports, applies or advances anything until some log grows.
   */
  lemma SuccessfulRunIsThenQuiet(ids: seq<string>, dedupe: bool, t: seq<Step>, t': seq<Step>, steps: seq<Step>)
    requires Distinct(ids) && t <= t' && ReachedFirst(ids, dedupe, t, t', |ids|)
    requires forall p :: 0 <= p < |ids| ==>
      && p < |At(ids, dedupe, t).logs| && p < |At(ids, dedupe, t').logs|
      && At(ids, dedupe, t').logs[p].last == At(ids, dedupe, t).logs[p].last
    requires forall w :: w in At(ids, dedupe, t').workers ==> At(ids, dedupe, t').workers[w].Idle?
    requires NoNewEvents(steps)
    ensures var s, s' := At(ids, dedupe, t'), Run(At(ids, dedupe, t'), steps);
      && Shape(s) && CaughtUp(s)
      && s'.local == s.local && s'.imported == s.imported && s'.applied == s.applied && s'.checkpoints == s.checkpoints
  {
    Later(ids, dedupe, t, t');
    PeersStay(ids, dedupe, t');
    var s, s' := At(ids, dedupe, t), At(ids, dedupe, t');
    forall p, q | 0 <= p < |ids| && q in s'.logs[p].entries ensures q <= s'.checkpoints[ids[p]] {
      assert LogOk(s'.logs[p]) && Reached(s', p, s.logs[p].last);
    }
    CaughtUpIsQuiet(s', steps);
  }
}
