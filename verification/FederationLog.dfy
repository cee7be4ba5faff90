/** Where everything in the local log of a federation comes from. */
module FederationLog {
  import opened Federation
  import opened Names

  // ---------------------------------------------------------------- what peers published

  /** The events this peer has appended to its log, in order; the first has sequence number 1. */
  function Published(steps: seq<Step>, p: nat): (es: seq<EventId>) {
    if steps == [] then []
    else
      var last := steps[|steps| - 1];
      Published(steps[..|steps| - 1], p) + (if last.Grow? && last.peer == p then [last.event] else [])
  }

  lemma PublishedSnoc(steps: seq<Step>, s: Step, p: nat)
    ensures Published(steps + [s], p) ==
            Published(steps, p) + (if s.Grow? && s.peer == p then [s.event] else [])
  {
    assert (steps + [s])[..|steps|] == steps;
  }

  /** What is left of a peer's log is as it was published. */
  ghost predicate LogIs(log: Log, es: seq<EventId>) {
    log.last == |es| && forall q :: q in log.entries ==> 1 <= q <= |es| && log.entries[q] == es[q - 1]
  }

  predicate At(steps: seq<Step>, src: Source, e: EventId) {
    1 <= src.at <= |Published(steps, src.peer)| && Published(steps, src.peer)[src.at - 1] == e
  }

  /** What a worker carries was published, and what it has imported is noted as imported. */
  ghost predicate Carries(steps: seq<Step>, s: World, ph: Phase) {
    && (ph.Fetched? || ph.Imported? || ph.Applied? || ph.Projected? ==> At(steps, Source(ph.peer, ph.at), ph.event))
    && (ph.Imported? || ph.Applied? || ph.Projected? ==> Source(ph.peer, ph.at) in s.imported)
  }

  ghost predicate AsPublished(steps: seq<Step>, s: World) {
    && (forall p: nat :: p < |s.logs| ==> LogIs(s.logs[p], Published(steps, p)))
    && (forall w :: w in s.workers ==> Carries(steps, s, s.workers[w]))
    && (forall src :: src in s.imported ==> At(steps, src, s.imported[src]))
    && (forall src :: src in s.applied ==> src in s.imported)
  }

  /** Publishing more leaves what was published where it was. */
  lemma AtStays(steps: seq<Step>, s: Step)
    ensures forall src, e :: At(steps, src, e) ==> At(steps + [s], src, e)
  {
    forall src, e | At(steps, src, e) ensures At(steps + [s], src, e) { PublishedSnoc(steps, s, src.peer); }
  }

  lemma LogsArePublished(steps: seq<Step>, s: World, step: Step, p: nat)
    requires p < |s.logs| && LogIs(s.logs[p], Published(steps, p))
    ensures |Do(s, step).logs| == |s.logs| && LogIs(Do(s, step).logs[p], Published(steps + [step], p))
  {
    PublishedSnoc(steps, step, p);
    if !step.Grow? && !step.Purge? { LogsUntouched(s, step); }
  }

  lemma OthersNoteNothing(s: World, step: Step)
    requires !step.Import? && !step.Apply?
    ensures Do(s, step).imported == s.imported && Do(s, step).applied == s.applied
  {
  }

  /** Imports and applications are added one at a time, from what a worker carries. */
  lemma NotedIsPublished(steps: seq<Step>, s: World, step: Step)
    requires AsPublished(steps, s)
    ensures var s' := Do(s, step);
      && s.imported.Keys <= s'.imported.Keys && s'.applied <= s'.imported.Keys
      && forall src :: src in s'.imported ==> At(steps, src, s'.imported[src])
  {
    if step.Import? || step.Apply? {
      if step.worker in s.workers { assert Carries(steps, s, s.workers[step.worker]); }
    } else {
      OthersNoteNothing(s, step);
    }
  }

  lemma CarriedIsPublished(steps: seq<Step>, s: World, step: Step, w: nat)
    requires Carries(steps, s, PhaseOf(s, w)) && s.imported.Keys <= Do(s, step).imported.Keys
    requires forall p: nat :: p < |s.logs| ==> LogIs(s.logs[p], Published(steps, p))
    ensures Carries(steps, Do(s, step), PhaseOf(Do(s, step), w))
  {
    var ph := PhaseOf(s, w);
    if step == Fetch(w) {
      if ph.Reading? && ph.peer < |s.logs| { assert LogIs(s.logs[ph.peer], Published(steps, ph.peer)); }
    } else {
      EventIsKept(s, step, w);
    }
  }

  /** Only a fetch gives a worker another event, and only an import makes it imported. */
  lemma EventIsKept(s: World, step: Step, w: nat)
    requires step != Fetch(w)
    ensures var ph, ph' := PhaseOf(s, w), PhaseOf(Do(s, step), w);
      || ph' == ph || ph'.Idle? || ph'.Starting? || ph'.Reading?
      || (ph.Fetched? && step == Import(w) && ph' == Imported(ph.peer, ph.last, ph.at, ph.event)
          && Source(ph.peer, ph.at) in Do(s, step).imported)
      || (ph.Imported? && ph' == Applied(ph.peer, ph.last, ph.at, ph.event))
      || (ph.Applied? && ph' == Projected(ph.peer, ph.last, ph.at, ph.event))
  {
  }

  lemma StepAsPublished(steps: seq<Step>, s: World, step: Step)
    requires AsPublished(steps, s)
    ensures AsPublished(steps + [step], Do(s, step))
  {
    var s' := Do(s, step);
    AtStays(steps, step);
    NotedIsPublished(steps, s, step);
    forall w | w in s'.workers ensures Carries(steps + [step], s', s'.workers[w]) {
      CarriedIsPublished(steps, s, step, w);
    }
    forall p: nat | p < |s'.logs| ensures LogIs(s'.logs[p], Published(steps + [step], p)) {
      LogsArePublished(steps, s, step, p);
    }
  }

  /**
   Over every run, whatever the peers purge: an import is of the event its peer published under that number, and
   only what was imported is applied.
   */
  lemma {:induction false} ImportsAreAsPublished(ids: seq<string>, dedupe: bool, steps: seq<Step>)
    ensures AsPublished(steps, Run(Init(ids, dedupe), steps))
  {
    if steps != [] {
      var init, last := steps[..|steps| - 1], steps[|steps| - 1];
      ImportsAreAsPublished(ids, dedupe, init);
      StepAsPublished(init, Run(Init(ids, dedupe), init), last);
      assert init + [last] == steps;
    }
  }

  // ---------------------------------------------------------------- what the local log holds

  /** What a step hands to the local log. */
  function Arrival(s: World, step: Step): (es: seq<EventId>) {
    if step.AppendLocal? then [step.event]
    else if step.Import? && PhaseOf(s, step.worker).Fetched? then [PhaseOf(s, step.worker).event]
    else []
  }

  function Arrivals(s: World, steps: seq<Step>): (es: seq<EventId>) {
    if steps == [] then []
    else
      var n := |steps| - 1;
      Arrivals(s, steps[..n]) + Arrival(Run(s, steps[..n]), steps[n])
  }

  /** Each event is kept where it first arrived. */
  ghost predicate FirstOnly(all: seq<EventId>, kept: seq<EventId>) {
    && Distinct(kept) && (forall e :: e in kept <==> e in all)
    && forall i, j :: 0 <= i < j < |kept| ==> ArrivesFirst(all, kept[i], kept[j])
  }

  ghost predicate ArrivesFirst(all: seq<EventId>, e: EventId, f: EventId) {
    exists a :: 0 <= a < |all| && all[a] == e && f !in all[..a + 1]
  }

  lemma FirstOnlySnoc(all: seq<EventId>, kept: seq<EventId>, e: EventId)
    requires FirstOnly(all, kept)
    ensures FirstOnly(all + [e], if e in kept then kept else kept + [e])
  {
    var all', kept' := all + [e], if e in kept then kept else kept + [e];
    forall i, j | 0 <= i < j < |kept'| ensures ArrivesFirst(all', kept'[i], kept'[j]) {
      if j < |kept| {
        assert ArrivesFirst(all, kept[i], kept[j]);
        var a :| 0 <= a < |all| && all[a] == kept[i] && kept[j] !in all[..a + 1];
        assert all'[a] == all[a] && all'[..a + 1] == all[..a + 1];
      } else {
        assert kept[i] in all && e !in all;
        var a :| 0 <= a < |all| && all[a] == kept[i];
        assert all'[a] == all[a] && all'[..a + 1] == all[..a + 1];
      }
    }
  }

  lemma StepArrives(s: World, step: Step)
    ensures var es := Arrival(s, step);
      Do(s, step).local == if es == [] then s.local else Append(s.dedupe, s.local, es[0])
    ensures Do(s, step).dedupe == s.dedupe
  {
  }

  /** The local log holds what arrived and nothing else, in that order, and once each if the log deduplicates. */
  lemma {:induction false} LocalIsWhatArrived(ids: seq<string>, dedupe: bool, steps: seq<Step>)
    ensures var s, all := Run(Init(ids, dedupe), steps), Arrivals(Init(ids, dedupe), steps);
      s.dedupe == dedupe && if dedupe then FirstOnly(all, s.local) else s.local == all
  {
    if steps != [] {
      var init, last := steps[..|steps| - 1], steps[|steps| - 1];
      var s := Run(Init(ids, dedupe), init);
      LocalIsWhatArrived(ids, dedupe, init);
      StepArrives(s, last);
      var all, es := Arrivals(Init(ids, dedupe), init), Arrival(s, last);
      if es == [] {
        assert all + es == all;
      } else {
        assert es == [es[0]];
        if dedupe { FirstOnlySnoc(all, s.local, es[0]); }
      }
    }
  }

  /** So every event in the local log was appended locally or published by a peer. */
  lemma {:induction false} NothingIsInvented(ids: seq<string>, dedupe: bool, steps: seq<Step>, e: EventId)
    requires e in Run(Init(ids, dedupe), steps).local
    ensures AppendLocal(e) in steps || exists p: nat :: e in Published(steps, p)
  {
    LocalIsWhatArrived(ids, dedupe, steps);
    ArrivedFromSomewhere(ids, dedupe, steps, e);
  }

  lemma {:induction false} ArrivedFromSomewhere(ids: seq<string>, dedupe: bool, steps: seq<Step>, e: EventId)
    requires e in Arrivals(Init(ids, dedupe), steps)
    ensures AppendLocal(e) in steps || exists p: nat :: e in Published(steps, p)
  {
    var init, last := steps[..|steps| - 1], steps[|steps| - 1];
    assert init + [last] == steps;
    if e in Arrivals(Init(ids, dedupe), init) {
      ArrivedFromSomewhere(ids, dedupe, init, e);
      if p: nat :| e in Published(init, p) {
        PublishedSnoc(init, last, p);
        assert e in Published(steps, p);
      }
    } else if last.Import? {
      var s := Run(Init(ids, dedupe), init);
      var ph := PhaseOf(s, last.worker);
      ImportsAreAsPublished(ids, dedupe, init);
      assert Carries(init, s, s.workers[last.worker]);
      PublishedSnoc(init, last, ph.peer);
      assert Published(steps, ph.peer)[ph.at - 1] == e;
    }
  }
}
