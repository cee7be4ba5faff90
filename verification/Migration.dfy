/**
 Migration of quantum-vulnerable assets to a post-quantum algorithm (ee/pqcmigration): one run takes the
 vulnerable assets of the inventory in turn, skips those recorded by earlier runs or refused by policy,
 and re-issues and records the others. It may stop at any failure and be run again.
 */
module Migration {
  import opened Fleet
  import opened FleetCalls
  import opened Names

  datatype Class = QuantumVulnerable | PostQuantum | Unknown

  function Classify(algorithm: string): (c: Class) {
    if algorithm in {"RSA-2048", "RSA-3072", "RSA-4096", "ECDSA-P256", "ECDSA-P384", "ECDSA-P521", "Ed25519"}
    then QuantumVulnerable
    else if algorithm in {"ML-DSA-44", "ML-DSA-65", "ML-DSA-87", "SLH-DSA-SHA2-128s", "SLH-DSA-SHA2-128f",
                          "SLH-DSA-SHA2-192s", "SLH-DSA-SHA2-256s", "ML-KEM-512", "ML-KEM-768", "ML-KEM-1024",
                          "Hybrid-Ed25519-Dilithium3", "Hybrid-ML-DSA-44-ECDSA-P256"}
    then PostQuantum
    else Unknown
  }

  /** A node of the inventory graph. */
  datatype Node = Node(isAsset: bool, algorithm: string, migrated: bool)

  type Inventory = map<string, Node>

  predicate Vulnerable(n: Node) { n.isAsset && Classify(n.algorithm) == QuantumVulnerable }

  function VulnerableIds(nodes: Inventory): (ids: set<string>) {
    set id | id in nodes && Vulnerable(nodes[id])
  }

  function Marked(nodes: Inventory, id: string, target: string): (nodes': Inventory) {
    if id in nodes then nodes[id := nodes[id].(algorithm := target, migrated := true)] else nodes
  }

  /** The events after which the inventory has the asset at the target. */
  predicate Reconciles(e: Event) { e.AlreadyDone? || IsDone(e) }

  /** What a run's work on single assets does to the inventory. */
  function After(nodes: Inventory, work: seq<Event>, target: string): (nodes': Inventory) {
    if work == [] then nodes
    else
      var last := work[|work| - 1];
      var before := After(nodes, work[..|work| - 1], target);
      if Reconciles(last) then Marked(before, last.cred, target) else before
  }

  predicate Denies(work: seq<Event>, id: string) { exists i :: 0 <= i < |work| && work[i] == Denied(id) }

  predicate Settled(e: Event) { e.AlreadyDone? || e.Denied? || IsDone(e) }

  ghost predicate AllSettled(work: seq<Event>) { forall i :: 0 <= i < |work| ==> Settled(work[i]) }

  /** The assets this work covers, one event each. */
  ghost predicate Covers(work: seq<Event>, targets: seq<string>) {
    |work| == |targets| && forall i :: 0 <= i < |work| ==> IsWork(work[i]) && work[i].cred == targets[i]
  }

  function Denials(work: seq<Event>): (n: nat) {
    if work == [] then 0 else Denials(work[..|work| - 1]) + (if work[|work| - 1].Denied? then 1 else 0)
  }

  /** Which nodes the work has moved to the target. */
  ghost predicate Moves(work: seq<Event>, id: string) {
    exists i :: 0 <= i < |work| && Reconciles(work[i]) && work[i].cred == id
  }

  /** Exactly the worked-off assets are at the target; every other node is as it was. */
  lemma {:induction false} AfterIs(nodes: Inventory, work: seq<Event>, target: string)
    ensures After(nodes, work, target).Keys == nodes.Keys
    ensures forall id :: id in nodes ==>
              After(nodes, work, target)[id] ==
              if Moves(work, id) then nodes[id].(algorithm := target, migrated := true) else nodes[id]
  {
    if work != [] {
      var n := |work| - 1;
      var init, last := work[..n], work[n];
      AfterIs(nodes, init, target);
      forall id ensures Moves(work, id) <==> Moves(init, id) || (Reconciles(last) && last.cred == id) {
        MovesSnoc(init, last, id);
        assert work == init + [last];
      }
    }
  }

  lemma MovesSnoc(work: seq<Event>, e: Event, id: string)
    ensures Moves(work + [e], id) <==> Moves(work, id) || (Reconciles(e) && e.cred == id)
  {
    if Moves(work, id) {
      var i :| 0 <= i < |work| && Reconciles(work[i]) && work[i].cred == id;
      assert (work + [e])[i] == work[i];
    }
    if Reconciles(e) && e.cred == id { assert (work + [e])[|work|] == e; }
  }

  /** After a run without failure the assets still vulnerable are exactly those policy refused. */
  lemma RemainingAreTheDenied(nodes: Inventory, targets: seq<string>, work: seq<Event>, target: string)
    requires Classify(target) == PostQuantum && Distinct(targets) && Covers(work, targets) && AllSettled(work)
    requires forall id :: id in VulnerableIds(nodes) <==> id in targets
    ensures forall id :: id in VulnerableIds(After(nodes, work, target)) <==> Denies(work, id)
  {
    AfterIs(nodes, work, target);
    forall id ensures id in VulnerableIds(After(nodes, work, target)) <==> Denies(work, id) {
      if id in targets {
        var i :| 0 <= i < |targets| && targets[i] == id;
        assert Settled(work[i]) && work[i].cred == id;
        OneFate(targets, work, i);
      } else {
        assert !Denies(work, id) && (id in nodes ==> !Vulnerable(nodes[id]));
        assert !Moves(work, id);
      }
    }
  }

  /** An asset recorded by an earlier run, even one that stopped before the inventory was updated, is migrated. */
  lemma RecordedIsReconciled(nodes: Inventory, targets: seq<string>, done: set<string>, work: seq<Event>,
                             target: string, id: string)
    requires Classify(target) == PostQuantum && Distinct(targets) && Covers(work, targets) && AllSettled(work)
    requires forall x :: x in VulnerableIds(nodes) <==> x in targets
    requires forall i :: 0 <= i < |work| ==> (work[i].AlreadyDone? <==> targets[i] in done)
    requires id in done
    ensures id !in VulnerableIds(After(nodes, work, target))
  {
    RemainingAreTheDenied(nodes, targets, work, target);
  }

  /** With distinct targets an asset has one fate. */
  lemma OneFate(targets: seq<string>, work: seq<Event>, i: nat)
    requires Distinct(targets) && Covers(work, targets) && AllSettled(work) && i < |targets|
    ensures Denies(work, targets[i]) <==> work[i].Denied?
    ensures Moves(work, targets[i]) <==> !work[i].Denied?
  {
    assert Settled(work[i]);
    if Denies(work, targets[i]) {
      var j :| 0 <= j < |work| && work[j] == Denied(targets[i]);
      assert targets[j] == targets[i];
    }
    if Moves(work, targets[i]) {
      var j :| 0 <= j < |work| && Reconciles(work[j]) && work[j].cred == targets[i];
      assert targets[j] == targets[i];
    }
    if work[i].Denied? { assert work[i] == Denied(targets[i]); }
  }

  // ---------------------------------------------------------------- counting

  lemma {:induction false} DistinctCount(s: seq<string>)
    requires Distinct(s)
    ensures |set x | x in s| == |s|
  {
    if s != [] {
      var init, last := s[..|s| - 1], s[|s| - 1];
      DistinctCount(init);
      assert (set x | x in s) == (set x | x in init) + {last};
    }
  }

  function DeniedIds(work: seq<Event>): (ids: seq<string>)
    ensures |ids| == Denials(work)
    ensures forall id :: id in ids ==> Denies(work, id)
  {
    if work == [] then []
    else
      var init, last := work[..|work| - 1], work[|work| - 1];
      assert forall id :: Denies(init, id) ==> Denies(work, id) by {
        forall id | Denies(init, id) ensures Denies(work, id) {
          var i :| 0 <= i < |init| && init[i] == Denied(id);
          assert work[i] == Denied(id);
        }
      }
      DeniedIds(init) + (if last.Denied? then [last.cred] else [])
  }

  lemma {:induction false} DeniedIdsComplete(work: seq<Event>, id: string)
    requires Denies(work, id)
    ensures id in DeniedIds(work)
  {
    var init := work[..|work| - 1];
    var i :| 0 <= i < |work| && work[i] == Denied(id);
    if i < |init| {
      assert init[i] == Denied(id);
      DeniedIdsComplete(init, id);
    }
  }

  lemma {:induction false} DeniedIdsDistinct(work: seq<Event>, targets: seq<string>)
    requires Distinct(targets) && Covers(work, targets)
    ensures Distinct(DeniedIds(work))
  {
    if work != [] {
      var n := |work| - 1;
      DeniedIdsDistinct(work[..n], targets[..n]);
      forall id | id in DeniedIds(work[..n]) ensures id != targets[n] {
        var i :| 0 <= i < n && work[..n][i] == Denied(id);
        assert targets[i] == id;
      }
      var d := DeniedIds(work[..n]);
      assert work[n].cred == targets[n];
      forall i | 0 <= i < |d| ensures d[i] != targets[n] { assert d[i] in d; }
    }
  }

  /** The number of assets still vulnerable after a run without failure is the number policy refused. */
  lemma RemainingCount(nodes: Inventory, targets: seq<string>, work: seq<Event>, target: string)
    requires Classify(target) == PostQuantum && Distinct(targets) && Covers(work, targets) && AllSettled(work)
    requires forall id :: id in VulnerableIds(nodes) <==> id in targets
    ensures |VulnerableIds(After(nodes, work, target))| == Denials(work)
  {
    RemainingAreTheDenied(nodes, targets, work, target);
    var ids := DeniedIds(work);
    forall id | Denies(work, id) ensures id in ids { DeniedIdsComplete(work, id); }
    DeniedIdsDistinct(work, targets);
    DistinctCount(ids);
    assert VulnerableIds(After(nodes, work, target)) == set x | x in ids;
  }

  // ---------------------------------------------------------------- the orchestrator

  datatype Error = BadTarget | ProgressError | ReissueError | RecordError

  datatype Summary = Summary(enrolled: nat, migrated: nat, skipped: nat, remaining: nat, completed: bool)

  datatype Outcome = Ok(report: Summary) | Err(error: Error)

  lemma {:induction false} AllWork(tr: seq<Event>)
    requires forall i :: 0 <= i < |tr| ==> IsWork(tr[i])
    ensures Work(tr) == tr
  {
    if tr != [] { AllWork(tr[..|tr| - 1]); }
  }

  class Orchestrator {
    var nodes: Inventory
    const guarded: bool
    const store: MemoryProgress
    const outside: Outside

    constructor (nodes: Inventory, guarded: bool, store: MemoryProgress, outside: Outside)
      ensures this.nodes == nodes && this.guarded == guarded && this.store == store && this.outside == outside
    {
      this.nodes, this.guarded, this.store, this.outside := nodes, guarded, store, outside;
    }

    ghost function DoneIn(runId: string): (done: set<string>)
      reads this, store
    {
      store.Of(runId).Keys
    }

    method VulnerableAssets() returns (out: seq<string>)
      ensures Sorted(out) && Distinct(out) && forall id :: id in out <==> id in VulnerableIds(nodes)
    {
      out := [];
      var all := SortIds(nodes.Keys);
      for i := 0 to |all|
        invariant Sorted(out)
        invariant forall id :: id in out <==> id in all[..i] && id in VulnerableIds(nodes)
      {
        if Vulnerable(nodes[all[i]]) {
          forall k | 0 <= k < |out| ensures Before(out[k], all[i]) {
            assert out[k] in all[..i];
          }
          out := out + [all[i]];
        }
      }
      assert all[..|all|] == all;
      SortedIsDistinct(out);
    }

    method MarkMigrated(id: string, target: string)
      modifies this`nodes
      ensures nodes == Marked(old(nodes), id, target)
    {
      if id in nodes { nodes := nodes[id := nodes[id].(algorithm := target, migrated := true)]; }
    }

    /** One asset of a run: reconciled if recorded, refused by policy, or re-issued, recorded and reconciled. */
    method Handle(runId: string, id: string, done: map<string, string>, target: string) returns (e: Event)
      modifies this, store, outside
      ensures AssetEvent(e, id, done.Keys) && (e.Denied? ==> guarded)
      ensures outside.calls == old(outside.calls) + CallsFor(guarded, e)
      ensures nodes == if Reconciles(e) then Marked(old(nodes), id, target) else old(nodes)
      ensures DoneIn(runId) == old(DoneIn(runId)) + RecordedBy(e)
    {
      if id in done {
        MarkMigrated(id, target);
        return AlreadyDone(id);
      }
      if guarded {
        var allowed := outside.Allows(id);
        if !allowed { return Denied(id); }
      }
      var ok, newId := outside.Reissues(id);
      if !ok { return ReissueFailed(id); }
      var mark := outside.Records(store, runId, id, newId);
      e := Issued(id, newId, mark);
      if mark.MarkOk? { MarkMigrated(id, target); }
    }

    /** The loop over the assets, with everything it has done in `work`. */
    method WorkThrough(runId: string, assets: seq<string>, done: map<string, string>, target: string)
      returns (stop: seq<Error>, migrated: nat, skipped: nat, ghost work: seq<Event>)
      requires Distinct(assets) && done.Keys == DoneIn(runId)
      modifies this, store, outside
      ensures InOrder(work, assets, done.Keys) && outside.calls == old(outside.calls) + CallsOf(guarded, work)
      ensures nodes == After(old(nodes), work, target) && DoneIn(runId) == done.Keys + Recorded(work)
      ensures stop == [] || stop == [ReissueError] || stop == [RecordError]
      ensures stop == [] ==> |work| == |assets| == migrated + skipped && AllSettled(work) && Denials(work) <= skipped
      ensures migrated == |NewIds(work)|
    {
      stop, migrated, skipped, work := [], 0, 0, [];
      ghost var start := Start(guarded, old(nodes), old(outside.calls), assets, done.Keys, target);
      for i := 0 to |assets|
        invariant Working(start, work, nodes, DoneIn(runId), outside.calls, migrated)
        invariant |work| == i == migrated + skipped && AllSettled(work) && Denials(work) <= skipped
      {
        ghost var nodes1, recorded1, calls1 := nodes, DoneIn(runId), outside.calls;
        var e := Handle(runId, assets[i], done, target);
        WorkingNext(start, work, nodes1, recorded1, calls1, migrated, e);
        work := work + [e];
        if e.ReissueFailed? { return [ReissueError], migrated, skipped, work; }
        if e.Issued? && e.mark.MarkFailed? { return [RecordError], migrated, skipped, work; }
        if e.Issued? { migrated := migrated + 1; } else { skipped := skipped + 1; }
      }
    }

    /**
     One run. Whatever happens, the work is exactly what was asked of others, the inventory and the progress are
     those it leaves, and it takes the vulnerable assets in turn without re-issuing one recorded before.
     */
    method Migrate(runId: string, target: string)
      returns (r: Outcome, ghost assets: seq<string>, ghost work: seq<Event>)
      modifies this, store, outside
      ensures Classify(target) != PostQuantum <==> r == Err(BadTarget)
      ensures outside.calls == old(outside.calls) + CallsOf(guarded, work)
      ensures r == Err(BadTarget) ==> work == []
      ensures Sorted(assets) && Distinct(assets)
      ensures r != Err(BadTarget) ==>
                forall id :: id in assets <==>
                  id in old(nodes) && old(nodes)[id].isAsset && Classify(old(nodes)[id].algorithm) == QuantumVulnerable
      ensures WorksThrough(assets, old(DoneIn(runId)), work)
      ensures nodes == After(old(nodes), work, target) && DoneIn(runId) == old(DoneIn(runId)) + Recorded(work)
      ensures r.Ok? ==> Covers(work, assets) && AllSettled(work)
      ensures r.Ok? ==>
                var rep := r.report;
                && rep.enrolled == |assets| == rep.migrated + rep.skipped && rep.migrated == |NewIds(work)|
                && rep.remaining == |VulnerableIds(nodes)| == Denials(work) <= rep.skipped
                && (rep.completed <==> VulnerableIds(nodes) == {})
    {
      assets, work := [], [];
      if Classify(target) != PostQuantum { return Err(BadTarget), assets, work; }
      var list := VulnerableAssets();
      assets := list;
      var loaded: bool := *;
      if !loaded { return Err(ProgressError), assets, work; }
      r, work := MigrateAssets(runId, list, target);
    }

    method MigrateAssets(runId: string, assets: seq<string>, target: string)
      returns (r: Outcome, ghost work: seq<Event>)
      requires Classify(target) == PostQuantum && Distinct(assets)
      requires forall id :: id in assets <==> id in VulnerableIds(nodes)
      modifies this, store, outside
      ensures r != Err(BadTarget) && outside.calls == old(outside.calls) + CallsOf(guarded, work)
      ensures WorksThrough(assets, old(DoneIn(runId)), work)
      ensures nodes == After(old(nodes), work, target) && DoneIn(runId) == old(DoneIn(runId)) + Recorded(work)
      ensures r.Ok? ==> Covers(work, assets) && AllSettled(work)
      ensures r.Ok? ==>
                var rep := r.report;
                && rep.enrolled == |assets| == rep.migrated + rep.skipped && rep.migrated == |NewIds(work)|
                && rep.remaining == |VulnerableIds(nodes)| == Denials(work) <= rep.skipped
                && (rep.completed <==> VulnerableIds(nodes) == {})
    {
      var stop, migrated, skipped;
      var done := store.Completed(runId);
      stop, migrated, skipped, work := WorkThrough(runId, assets, done, target);
      AllWork(work);
      if stop != [] { return Err(stop[0]), work; }
      RemainingCount(old(nodes), assets, work, target);
      var remaining := CountVulnerable();
      r := Ok(Summary(|assets|, migrated, skipped, remaining, remaining == 0));
    }

    method CountVulnerable() returns (n: nat)
      ensures n == |VulnerableIds(nodes)|
    {
      var remaining := VulnerableAssets();
      DistinctCount(remaining);
      assert VulnerableIds(nodes) == set x | x in remaining;
      n := |remaining|;
    }
  }

  /** What may happen to one asset, given what earlier runs recorded. */
  predicate AssetEvent(e: Event, id: string, done: set<string>) {
    IsWork(e) && e.cred == id && (e.AlreadyDone? <==> id in done)
  }

  ghost predicate InOrder(work: seq<Event>, assets: seq<string>, done: set<string>) {
    |work| <= |assets| && forall i :: 0 <= i < |work| ==> AssetEvent(work[i], assets[i], done)
  }

  lemma InOrderGrows(work: seq<Event>, assets: seq<string>, done: set<string>, e: Event)
    requires InOrder(work, assets, done) && |work| < |assets| && AssetEvent(e, assets[|work|], done)
    ensures InOrder(work + [e], assets, done)
    ensures AllSettled(work) && Settled(e) ==> AllSettled(work + [e])
  {
  }

  /** What the loop of a run starts from. */
  datatype Start = Start(
    guarded: bool, nodes: Inventory, calls: seq<Call>, assets: seq<string>, done: set<string>, target: string)

  /** Inventory, progress, calls and count are those of the work so far. */
  ghost predicate Working(s: Start, work: seq<Event>, nodes: Inventory, recorded: set<string>, calls: seq<Call>,
                          migrated: nat)
  {
    && InOrder(work, s.assets, s.done) && nodes == After(s.nodes, work, s.target)
    && recorded == s.done + Recorded(work) && calls == s.calls + CallsOf(s.guarded, work) && migrated == |NewIds(work)|
  }

  lemma WorkingNext(s: Start, work: seq<Event>, nodes: Inventory, recorded: set<string>, calls: seq<Call>,
                    migrated: nat, e: Event)
    requires Working(s, work, nodes, recorded, calls, migrated)
    requires |work| < |s.assets| && AssetEvent(e, s.assets[|work|], s.done)
    ensures Working(s, work + [e], if Reconciles(e) then Marked(nodes, e.cred, s.target) else nodes,
                    recorded + RecordedBy(e), calls + CallsFor(s.guarded, e), migrated + (if IsDone(e) then 1 else 0))
    ensures Denials(work + [e]) == Denials(work) + (if e.Denied? then 1 else 0)
    ensures AllSettled(work) && Settled(e) ==> AllSettled(work + [e])
  {
    WorkGrows(s.nodes, work, e, s.target);
    InOrderGrows(work, s.assets, s.done, e);
    CallsAfter(s.calls, s.guarded, work, e);
  }

  lemma WorkGrows(nodes: Inventory, work: seq<Event>, e: Event, target: string)
    ensures After(nodes, work + [e], target) ==
            if Reconciles(e) then Marked(After(nodes, work, target), e.cred, target)
            else After(nodes, work, target)
    ensures Denials(work + [e]) == Denials(work) + (if e.Denied? then 1 else 0)
    ensures Recorded(work + [e]) == Recorded(work) + RecordedBy(e)
    ensures |NewIds(work + [e])| == |NewIds(work)| + (if IsDone(e) then 1 else 0)
  {
    assert (work + [e])[..|work|] == work;
  }

  /**
   The same run id any number of times, to whatever targets and with the inventory changing in between: over all
   of it no asset is re-issued more than once beyond the runs that stopped between its re-issuance and its mark.
   */
  method MigrateUntilDone(o: Orchestrator, runId: string, targets: seq<string>)
    returns (outcomes: seq<Outcome>, ghost assets: seq<seq<string>>, ghost runs: seq<seq<Event>>)
    requires o.DoneIn(runId) == {}
    modifies o, o.store, o.outside
    ensures |outcomes| == |assets| == |runs| == |targets| && History(assets, runs) && o.DoneIn(runId) == Done(runs)
    ensures forall c :: TotalReissues(runs, c) <= TotalStops(runs, c) + (if c in Done(runs) then 1 else 0)
  {
    outcomes, assets, runs := [], [], [];
    for i := 0 to |targets|
      invariant |outcomes| == |assets| == |runs| == i && History(assets, runs) && o.DoneIn(runId) == Done(runs)
    {
      var r, list, work := o.Migrate(runId, targets[i]);
      RunsMakeHistory(assets, runs, list, work);
      outcomes, assets, runs := outcomes + [r], assets + [list], runs + [work];
      o.nodes := *;
    }
    forall c ensures TotalReissues(runs, c) <= TotalStops(runs, c) + (if c in Done(runs) then 1 else 0) {
      ResumeNeverDuplicates(assets, runs, c);
    }
  }
}
