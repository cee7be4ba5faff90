/** ReissueFleet of ee/fleet as a run over a durable progress store, and the protocol its calls follow. */
module FleetRun {
  import opened Fleet
  import opened FleetCalls
  import opened Names

  /** What a Fleet was configured with; targets are the issuer's credentials in the graph. */
  datatype Config = Config(
    targets: seq<string>, stageSize: nat, guarded: bool, checked: bool, revertible: bool, ssh: bool)

  /** A graph lists each neighbour once, and New replaces a batch size that is not positive by 50. */
  predicate ConfigOk(cfg: Config) {
    Distinct(cfg.targets) && cfg.stageSize > 0
  }

  function EffectiveStageSize(n: int): (size: nat)
    ensures size > 0 && size == (if n > 0 then n else 50)
  {
    if n <= 0 then 50 else n
  }

  /** How many stages cover n targets. */
  function StagesFor(n: nat, size: nat): (stages: nat)
    requires size > 0
  {
    if n == 0 then 0 else 1 + StagesFor(if n <= size then 0 else n - size, size)
  }

  /** That is n / size rounded up. */
  lemma {:induction false} StagesForIsCeiling(n: nat, size: nat)
    requires size > 0
    ensures n <= StagesFor(n, size) * size
    ensures n > 0 ==> (StagesFor(n, size) - 1) * size < n
    decreases n
  {
    if n > size {
      var k := StagesFor(n - size, size);
      StagesForIsCeiling(n - size, size);
      assert (1 + k) * size == size + k * size && k * size == size + (k - 1) * size;
    }
  }

  // ---------------------------------------------------------------- the protocol

  function Healthy(tr: seq<Event>): (n: nat) {
    if tr == [] then 0
    else Healthy(tr[..|tr| - 1]) + (if tr[|tr| - 1].Health? && tr[|tr| - 1].ok then 1 else 0)
  }

  /** An event after which the run makes no further re-issuance. */
  predicate Ends(e: Event) {
    match e
    case ReissueFailed(_) => true
    case Issued(_, _, mark) => mark.MarkFailed?
    case Health(_, ok) => !ok
    case RotationFailed => true
    case ProgressUnavailable => true
    case RolledBack(_, _) => true
    case TrustRedistributed(ok) => !ok
    case KrlPublished(_, ok) => !ok
    case _ => false
  }

  predicate Ended(tr: seq<Event>) {
    tr != [] && (Ends(tr[|tr| - 1]) || Ended(tr[..|tr| - 1]))
  }

  function Min(a: nat, b: nat): nat { if a < b then a else b }

  /** Every target has been dealt with and every stage was found healthy. */
  predicate AllStagesHealthy(cfg: Config, tr: seq<Event>)
    requires cfg.stageSize > 0
  {
    && |Work(tr)| == |cfg.targets| && !Ended(tr)
    && (cfg.checked ==> Healthy(tr) == StagesFor(|cfg.targets|, cfg.stageSize))
  }

  /** When each call may be made, given the calls before it. */
  predicate MayFollow(cfg: Config, before: seq<Event>, e: Event)
    requires cfg.stageSize > 0
  {
    match e
    case KeyRotated(_) => cfg.ssh && before == []
    case RotationFailed => cfg.ssh && before == []
    case ProgressUnavailable => |Work(before)| == 0 && !Ended(before)
    case Health(stage, _) =>
      && cfg.checked && !Ended(before) && stage == Healthy(before) + 1
      && |Work(before)| == Min(stage * cfg.stageSize, |cfg.targets|)
    case RolledBack(ids, _) =>
      && cfg.revertible && before != []
      && before[|before| - 1].Health? && !before[|before| - 1].ok
      && ids == NewIdsThisStage(before[..|before| - 1])
    case TrustRedistributed(_) => cfg.ssh && AllStagesHealthy(cfg, before)
    case KrlPublished(revoked, _) =>
      && cfg.ssh && AllStagesHealthy(cfg, before) && revoked == Replaced(before) && before != []
      && before[|before| - 1] == TrustRedistributed(true)
    case _ =>
      && !Ended(before) && (cfg.ssh ==> before != [] && before[0].KeyRotated?)
      && |Work(before)| < |cfg.targets|
      && (cfg.checked ==> |Work(before)| < (Healthy(before) + 1) * cfg.stageSize)
      && (e.Denied? ==> cfg.guarded)
  }

  predicate Ordered(cfg: Config, tr: seq<Event>)
    requires cfg.stageSize > 0
  {
    tr == [] || (Ordered(cfg, tr[..|tr| - 1]) && MayFollow(cfg, tr[..|tr| - 1], tr[|tr| - 1]))
  }

  lemma OrderedSnoc(cfg: Config, tr: seq<Event>, e: Event)
    requires cfg.stageSize > 0 && Ordered(cfg, tr) && MayFollow(cfg, tr, e)
    ensures Ordered(cfg, tr + [e])
    ensures Healthy(tr + [e]) == Healthy(tr) + (if e.Health? && e.ok then 1 else 0)
    ensures Ended(tr + [e]) <==> Ends(e) || Ended(tr)
  {
    assert (tr + [e])[..|tr|] == tr;
  }

  /** Every call of an ordered trace was made when it may be. */
  lemma {:induction false} OrderedAt(cfg: Config, tr: seq<Event>, i: nat)
    requires cfg.stageSize > 0 && Ordered(cfg, tr) && i < |tr|
    ensures MayFollow(cfg, tr[..i], tr[i])
  {
    if i < |tr| - 1 {
      var init := tr[..|tr| - 1];
      OrderedAt(cfg, init, i);
      assert init[..i] == tr[..i];
    }
  }

  /** For an SSH CA the key is rotated before anything is re-issued. */
  lemma RotationComesFirst(cfg: Config, tr: seq<Event>, i: nat)
    requires cfg.stageSize > 0 && Ordered(cfg, tr) && cfg.ssh && i < |tr| && tr[i].Issued?
    ensures 0 < i && tr[0].KeyRotated?
  {
    OrderedAt(cfg, tr, i);
  }

  /** Trust is redistributed, and the KRL published, only once every stage was healthy; the KRL lists
      what this run re-issued, so not what an earlier, interrupted run of the same id had. */
  lemma TrustComesLast(cfg: Config, tr: seq<Event>, i: nat)
    requires cfg.stageSize > 0 && Ordered(cfg, tr) && i < |tr| && (tr[i].TrustRedistributed? || tr[i].KrlPublished?)
    ensures AllStagesHealthy(cfg, tr[..i])
    ensures tr[i].KrlPublished? ==> tr[i].revoked == Replaced(tr[..i])
  {
    OrderedAt(cfg, tr, i);
  }

  /** A rollback is handed exactly the new ids of the stage whose health check just failed. */
  lemma RollbackGetsTheStage(cfg: Config, tr: seq<Event>, i: nat)
    requires cfg.stageSize > 0 && Ordered(cfg, tr) && i < |tr| && tr[i].RolledBack?
    ensures 0 < i && tr[i - 1].Health? && !tr[i - 1].ok && tr[i].ids == NewIdsThisStage(tr[..i - 1])
  {
    OrderedAt(cfg, tr, i);
    assert tr[..i][..i - 1] == tr[..i - 1];
  }

  // ---------------------------------------------------------------- failed checks

  predicate FailedCheck(tr: seq<Event>) {
    exists i :: 0 <= i < |tr| && tr[i].Health? && !tr[i].ok
  }

  lemma {:induction false} FailedCheckEnds(tr: seq<Event>)
    requires !Ended(tr)
    ensures !FailedCheck(tr)
  {
    if tr != [] {
      FailedCheckEnds(tr[..|tr| - 1]);
      forall i | 0 <= i < |tr| ensures !(tr[i].Health? && !tr[i].ok) {
        if i < |tr| - 1 { assert tr[i] == tr[..|tr| - 1][i]; }
      }
    }
  }

  /** After a run that has not ended, only a failed check itself makes for a failed check. */
  lemma FailedCheckLast(tr: seq<Event>, e: Event)
    requires !FailedCheck(tr)
    ensures FailedCheck(tr + [e]) <==> e.Health? && !e.ok
  {
    if e.Health? && !e.ok { assert (tr + [e])[|tr|] == e; }
  }

  /** The run ended at the failed check of this stage, which was rolled back if it could be. */
  ghost predicate StoppedAt(cfg: Config, tr: seq<Event>, failed: int) {
    && failed == Healthy(tr) + 1
    && if cfg.revertible then
         && |tr| >= 2 && tr[|tr| - 2] == Health(failed, false)
         && tr[|tr| - 1].RolledBack? && tr[|tr| - 1].ids == NewIdsThisStage(tr[..|tr| - 2])
       else tr != [] && tr[|tr| - 1] == Health(failed, false)
  }

  // ---------------------------------------------------------------- failed credentials

  /** How many credentials could not be re-issued, or not recorded. */
  function Failures(tr: seq<Event>): (n: nat) {
    if tr == [] then 0
    else
      var last := tr[|tr| - 1];
      Failures(tr[..|tr| - 1]) + (if IsWork(last) && Ends(last) then 1 else 0)
  }

  lemma FailuresSnoc(tr: seq<Event>, e: Event)
    ensures Failures(tr + [e]) == Failures(tr) + (if IsWork(e) && Ends(e) then 1 else 0)
  {
    assert (tr + [e])[..|tr|] == tr;
  }

  lemma {:induction false} FailuresEnd(tr: seq<Event>)
    requires !Ended(tr)
    ensures Failures(tr) == 0
  {
    if tr != [] { FailuresEnd(tr[..|tr| - 1]); }
  }

  /** Every credential dealt with was re-issued, skipped, or is the one that failed. */
  ghost predicate Accounts(tr: seq<Event>, reissued: nat, skipped: nat) {
    reissued == |Replaced(tr)| && reissued + skipped + Failures(tr) == |Work(tr)|
  }

  lemma {:induction false} FailedCheckIsEnd(tr: seq<Event>)
    requires FailedCheck(tr)
    ensures Ended(tr)
  {
    var i :| 0 <= i < |tr| && tr[i].Health? && !tr[i].ok;
    if i < |tr| - 1 {
      assert tr[..|tr| - 1][i] == tr[i];
      FailedCheckIsEnd(tr[..|tr| - 1]);
    }
  }

  /** A run that a check stopped had no failure before, and has none after. */
  lemma {:induction false} CheckedRunHasNoFailure(cfg: Config, tr: seq<Event>)
    requires cfg.stageSize > 0 && Ordered(cfg, tr) && FailedCheck(tr)
    ensures Failures(tr) == 0
  {
    var init, last := tr[..|tr| - 1], tr[|tr| - 1];
    assert MayFollow(cfg, init, last);
    if FailedCheck(init) {
      CheckedRunHasNoFailure(cfg, init);
      FailedCheckIsEnd(init);
    } else {
      FailedCheckLast(init, last);
      assert init + [last] == tr;
      FailuresEnd(init);
    }
  }

  // ---------------------------------------------------------------- the run

  /** What a run has done so far, and what the store then holds for it. */
  ghost predicate Running(cfg: Config, done: set<string>, tr: seq<Event>, recorded: set<string>)
    requires cfg.stageSize > 0
  {
    Ordered(cfg, tr) && WorksThrough(cfg.targets, done, tr) && recorded == done + Recorded(tr)
  }

  /** The variables a stage's loop updates. */
  datatype Tally = Tally(news: seq<string>, creds: seq<string>, skipped: nat)

  function Count(t: Tally, e: Event): (t': Tally)
    requires IsWork(e)
  {
    if IsDone(e) then Tally(t.news + [e.newId], t.creds + [e.cred], t.skipped)
    else t.(skipped := t.skipped + 1)
  }

  /** A stage that began after tr0 and has dealt with the targets up to i. */
  ghost predicate InStage(cfg: Config, done: set<string>, tr0: seq<Event>, tr: seq<Event>, recorded: set<string>,
                          i: nat, t: Tally)
    requires cfg.stageSize > 0
  {
    && Running(cfg, done, tr, recorded) && tr0 <= tr && !Ended(tr) && Healthy(tr) == Healthy(tr0)
    && |Work(tr)| == i && |Work(tr0)| <= i
    && (cfg.checked ==> t.news == NewIdsThisStage(tr)) && Replaced(tr) == Replaced(tr0) + t.creds
    && |t.news| == |t.creds| && |t.creds| + t.skipped == i - |Work(tr0)|
  }

  /** An event about no single credential. */
  lemma OtherNext(cfg: Config, done: set<string>, tr: seq<Event>, recorded: set<string>, e: Event)
    requires cfg.stageSize > 0 && Running(cfg, done, tr, recorded) && !IsWork(e) && MayFollow(cfg, tr, e)
    ensures Running(cfg, done, tr + [e], recorded)
    ensures Ended(tr + [e]) <==> Ends(e) || Ended(tr)
    ensures Work(tr + [e]) == Work(tr) && Replaced(tr + [e]) == Replaced(tr)
    ensures Healthy(tr + [e]) == Healthy(tr) + (if e.Health? && e.ok then 1 else 0)
  {
    WorkSnoc(tr, e);
    OrderedSnoc(cfg, tr, e);
  }

  lemma WorksThroughNext(targets: seq<string>, done: set<string>, tr: seq<Event>, e: Event)
    requires WorksThrough(targets, done, tr) && |Work(tr)| < |targets|
    requires IsWork(e) && e.cred == targets[|Work(tr)|] && (e.AlreadyDone? <==> e.cred in done)
    ensures WorksThrough(targets, done, tr + [e])
  {
    assert Work(tr + [e]) == Work(tr) + [e] by { WorkSnoc(tr, e); }
    InTurnNext(targets, done, Work(tr), e);
  }

  ghost predicate InTurn(targets: seq<string>, done: set<string>, w: seq<Event>) {
    && (forall i :: 0 <= i < |w| ==> IsWork(w[i])) && |w| <= |targets|
    && forall i :: 0 <= i < |w| ==> w[i].cred == targets[i] && (w[i].AlreadyDone? <==> targets[i] in done)
  }

  lemma InTurnNext(targets: seq<string>, done: set<string>, w: seq<Event>, e: Event)
    requires InTurn(targets, done, w) && |w| < |targets|
    requires IsWork(e) && e.cred == targets[|w|] && (e.AlreadyDone? <==> e.cred in done)
    ensures InTurn(targets, done, w + [e])
  {
  }

  /** The next credential's event keeps the run going as it should. */
  lemma WorkNext(cfg: Config, done: set<string>, tr: seq<Event>, recorded: set<string>, e: Event)
    requires cfg.stageSize > 0 && Running(cfg, done, tr, recorded) && |Work(tr)| < |cfg.targets|
    requires IsWork(e) && MayFollow(cfg, tr, e) && e.cred == cfg.targets[|Work(tr)|]
    requires e.AlreadyDone? <==> e.cred in done
    ensures Running(cfg, done, tr + [e], recorded + RecordedBy(e))
  {
    WorksThroughNext(cfg.targets, done, tr, e);
    assert Recorded(tr + [e]) == Recorded(tr) + RecordedBy(e) by { WorkSnoc(tr, e); }
    assert Ordered(cfg, tr + [e]) by { OrderedSnoc(cfg, tr, e); }
  }

  lemma StageNext(cfg: Config, done: set<string>, tr0: seq<Event>, tr: seq<Event>, recorded: set<string>, i: nat,
                  t: Tally, e: Event)
    requires cfg.stageSize > 0 && InStage(cfg, done, tr0, tr, recorded, i, t) && i < |cfg.targets|
    requires IsWork(e) && MayFollow(cfg, tr, e) && e.cred == cfg.targets[i] && (e.AlreadyDone? <==> e.cred in done)
    ensures Running(cfg, done, tr + [e], recorded + RecordedBy(e))
    ensures Ends(e) ==> Ended(tr + [e])
    ensures !Ends(e) ==> InStage(cfg, done, tr0, tr + [e], recorded + RecordedBy(e), i + 1, Count(t, e))
  {
    assert Running(cfg, done, tr + [e], recorded + RecordedBy(e)) by { WorkNext(cfg, done, tr, recorded, e); }
    WorkSnoc(tr, e);
    OrderedSnoc(cfg, tr, e);
  }

  /** A credential that fails stops the stage where it is. */
  lemma StageStops(cfg: Config, done: set<string>, tr0: seq<Event>, tr: seq<Event>, recorded: set<string>, i: nat,
                   t: Tally, e: Event)
    requires cfg.stageSize > 0 && InStage(cfg, done, tr0, tr, recorded, i, t) && IsWork(e) && Ends(e)
    ensures !FailedCheck(tr + [e]) && Failures(tr + [e]) == 1 && |Work(tr + [e])| == i + 1
    ensures Replaced(tr + [e]) == Replaced(tr0) + t.creds
  {
    assert !FailedCheck(tr + [e]) by { StopsInStage(tr, e); }
    assert Failures(tr + [e]) == 1 by {
      FailuresEnd(tr);
      FailuresSnoc(tr, e);
    }
    WorkSnoc(tr, e);
  }

  /** Between stages: so many stages done, all of them healthy. */
  ghost predicate Between(cfg: Config, done: set<string>, tr: seq<Event>, recorded: set<string>, stage: nat, t: Tally)
    requires cfg.stageSize > 0
  {
    && Running(cfg, done, tr, recorded) && !Ended(tr)
    && |Work(tr)| == Min(stage * cfg.stageSize, |cfg.targets|)
    && stage + StagesFor(|cfg.targets| - |Work(tr)|, cfg.stageSize) == StagesFor(|cfg.targets|, cfg.stageSize)
    && (cfg.checked ==> Healthy(tr) == stage && NewIdsThisStage(tr) == [])
    && (cfg.ssh ==> tr != [] && tr[0].KeyRotated?)
    && t.creds == Replaced(tr) && |t.creds| + t.skipped == |Work(tr)|
  }

  lemma StageStarts(cfg: Config, done: set<string>, tr: seq<Event>, recorded: set<string>, stage: nat, t: Tally)
    requires cfg.stageSize > 0 && Between(cfg, done, tr, recorded, stage, t)
    ensures InStage(cfg, done, tr, tr, recorded, |Work(tr)|, Tally([], [], 0))
  {}

  lemma NextStageBounds(cfg: Config, stage: nat, n: nat)
    requires cfg.stageSize > 0 && n == Min(stage * cfg.stageSize, |cfg.targets|) < |cfg.targets|
    requires stage + StagesFor(|cfg.targets| - n, cfg.stageSize) == StagesFor(|cfg.targets|, cfg.stageSize)
    ensures Min(n + cfg.stageSize, |cfg.targets|) == Min((stage + 1) * cfg.stageSize, |cfg.targets|)
    ensures stage + 1 + StagesFor(|cfg.targets| - Min(n + cfg.stageSize, |cfg.targets|), cfg.stageSize)
         == StagesFor(|cfg.targets|, cfg.stageSize)
    ensures Min(n + cfg.stageSize, |cfg.targets|) <= (stage + 1) * cfg.stageSize
  {
    assert (stage + 1) * cfg.stageSize == stage * cfg.stageSize + cfg.stageSize;
  }

  /** A stage is complete; with no health check it simply counts. */
  lemma StageUnchecked(cfg: Config, done: set<string>, tr0: seq<Event>, recorded0: set<string>, stage: nat, t0: Tally,
                       tr: seq<Event>, recorded: set<string>, t: Tally)
    requires cfg.stageSize > 0 && !cfg.checked && |Work(tr0)| < |cfg.targets|
    requires Between(cfg, done, tr0, recorded0, stage, t0)
    requires InStage(cfg, done, tr0, tr, recorded, Min(|Work(tr0)| + cfg.stageSize, |cfg.targets|), t)
    ensures Between(cfg, done, tr, recorded, stage + 1, Tally(t.news, t0.creds + t.creds, t0.skipped + t.skipped))
  {
    NextStageBounds(cfg, stage, |Work(tr0)|);
    assert cfg.ssh ==> tr[0] == tr0[0];
  }

  /** After a health check the run goes on, or has ended and may roll the stage back. */
  ghost predicate CheckedOk(cfg: Config, done: set<string>, recorded: set<string>, tr: seq<Event>, ok: bool,
                            news: seq<string>)
    requires cfg.stageSize > 0
  {
    && Running(cfg, done, tr, recorded) && (Ended(tr) <==> !ok)
    && (!ok && cfg.revertible ==>
          MayFollow(cfg, tr, RolledBack(news, true)) && MayFollow(cfg, tr, RolledBack(news, false)))
  }

  /** A stage is complete and found healthy. */
  lemma StageHealthy(cfg: Config, done: set<string>, tr0: seq<Event>, recorded0: set<string>, stage: nat, t0: Tally,
                     tr: seq<Event>, recorded: set<string>, t: Tally)
    requires cfg.stageSize > 0 && cfg.checked && |Work(tr0)| < |cfg.targets|
    requires Between(cfg, done, tr0, recorded0, stage, t0)
    requires InStage(cfg, done, tr0, tr, recorded, Min(|Work(tr0)| + cfg.stageSize, |cfg.targets|), t)
    requires Running(cfg, done, tr + [Health(stage + 1, true)], recorded)
    ensures Between(cfg, done, tr + [Health(stage + 1, true)], recorded, stage + 1,
                    Tally([], t0.creds + t.creds, t0.skipped + t.skipped))
  {
    var e := Health(stage + 1, true);
    NextStageBounds(cfg, stage, |Work(tr0)|);
    assert Work(tr + [e]) == Work(tr) && Replaced(tr + [e]) == Replaced(tr) && NewIdsThisStage(tr + [e]) == [] by {
      WorkSnoc(tr, e);
    }
    assert Healthy(tr + [e]) == Healthy(tr) + 1 && !Ended(tr + [e]) by { assert (tr + [e])[..|tr|] == tr; }
    assert cfg.ssh ==> (tr + [e])[0] == tr0[0];
  }

  /** A stage is complete and its health has been checked. */
  lemma StageChecked(cfg: Config, done: set<string>, tr0: seq<Event>, recorded0: set<string>, stage: nat, t0: Tally,
                     tr: seq<Event>, recorded: set<string>, t: Tally, ok: bool)
    requires cfg.stageSize > 0 && cfg.checked && |Work(tr0)| < |cfg.targets|
    requires Between(cfg, done, tr0, recorded0, stage, t0)
    requires InStage(cfg, done, tr0, tr, recorded, Min(|Work(tr0)| + cfg.stageSize, |cfg.targets|), t)
    ensures CheckedOk(cfg, done, recorded, tr + [Health(stage + 1, ok)], ok, t.news)
  {
    var e := Health(stage + 1, ok);
    assert MayFollow(cfg, tr, e) by { NextStageBounds(cfg, stage, |Work(tr0)|); }
    OtherNext(cfg, done, tr, recorded, e);
    assert (tr + [e])[..|tr|] == tr;
  }

  /** A run may begin with nothing, or for an SSH issuer with the rotation. */
  lemma FirstCall(cfg: Config, recorded: set<string>, tr: seq<Event>)
    requires ConfigOk(cfg)
    requires if cfg.ssh then |tr| == 1 && (tr[0].KeyRotated? || tr[0].RotationFailed?) else tr == []
    ensures Running(cfg, recorded, tr, recorded)
    ensures Ended(tr) <==> tr == [RotationFailed]
    ensures tr != [RotationFailed] ==> Between(cfg, recorded, tr, recorded, 0, Tally([], [], 0))
  {
    assert 0 * cfg.stageSize == 0;
    if cfg.ssh { FirstRotates(cfg, recorded, tr[0], tr); }
  }

  lemma FirstRotates(cfg: Config, recorded: set<string>, e: Event, tr: seq<Event>)
    requires ConfigOk(cfg) && cfg.ssh && (e.KeyRotated? || e.RotationFailed?) && tr == [e]
    ensures Running(cfg, recorded, tr, recorded) && (Ended(tr) <==> e.RotationFailed?)
    ensures Work(tr) == [] && Replaced(tr) == [] && NewIdsThisStage(tr) == [] && Healthy(tr) == 0
  {
    assert [] + [e] == tr;
    assert Running(cfg, recorded, [], recorded);
    OtherNext(cfg, recorded, [], recorded, e);
    WorkSnoc([], e);
  }

  /**
   What a report says of its run. It counts what was re-issued and skipped, and the stages once all are done. It is
   complete exactly when no call failed, and then every target was dealt with, and an SSH run has published what it
   replaced. It is rolled back exactly when a health check failed, and then names that check's stage.
   */
  ghost predicate Reports(cfg: Config, rep: Report, tr: seq<Event>)
    requires cfg.stageSize > 0
  {
    && rep.total == |cfg.targets| && Accounts(tr, rep.reissued, rep.skipped) && (rep.completed <==> !Ended(tr))
    && rep.stages == (if |Work(tr)| == |cfg.targets| && Failures(tr) == 0 && !FailedCheck(tr)
                      then StagesFor(|cfg.targets|, cfg.stageSize) else 0)
    && (rep.completed ==>
          && AllStagesHealthy(cfg, tr) && rep.reissued + rep.skipped == rep.total
          && (cfg.ssh ==> tr != [] && tr[|tr| - 1] == KrlPublished(Replaced(tr), true)))
    && (rep.rolledBack <==> FailedCheck(tr))
    && (if rep.rolledBack then StoppedAt(cfg, tr, rep.failedStage) else rep.failedStage == -1)
  }

  class Rollout {
    const cfg: Config
    const store: MemoryProgress
    const outside: Outside
    const runId: string
    /** What had been asked of others before this run. */
    ghost var Before: seq<Call>

    constructor (cfg: Config, store: MemoryProgress, outside: Outside, runId: string)
      ensures this.cfg == cfg && this.store == store && this.outside == outside && this.runId == runId
    {
      this.cfg, this.store, this.outside, this.runId := cfg, store, outside, runId;
      Before := [];
    }

    /** The trace is what was asked of others in this run, no more and no less. */
    ghost predicate Noted(tr: seq<Event>)
      reads this, outside
    {
      outside.calls == Before + CallsOf(cfg.guarded, tr)
    }

    /** One credential: skip it, or re-issue it and record that. */
    method Handle(cred: string, done: map<string, string>) returns (e: Event)
      modifies store, outside
      ensures IsWork(e) && e.cred == cred && (e.AlreadyDone? <==> cred in done) && (e.Denied? ==> cfg.guarded)
      ensures outside.calls == old(outside.calls) + CallsFor(cfg.guarded, e)
      ensures store.Of(runId).Keys == old(store.Of(runId)).Keys + RecordedBy(e)
      ensures forall r :: r != runId ==> store.Of(r) == old(store.Of(r))
    {
      if cred in done { return AlreadyDone(cred); }
      if cfg.guarded {
        var allowed := outside.Allows(cred);
        if !allowed { return Denied(cred); }
      }
      var issued, newId := outside.Reissues(cred);
      if !issued { return ReissueFailed(cred); }
      var mark := outside.Records(store, runId, cred, newId);
      e := Issued(cred, newId, mark);
    }

    /** The next credential of a stage. */
    method Next(done: map<string, string>, ghost tr0: seq<Event>, tr1: seq<Event>, i: nat, t1: Tally)
      returns (tr: seq<Event>, t: Tally, ok: bool)
      requires ConfigOk(cfg) && i < |cfg.targets| && Noted(tr1)
      requires InStage(cfg, done.Keys, tr0, tr1, store.Of(runId).Keys, i, t1)
      requires cfg.ssh ==> tr1 != [] && tr1[0].KeyRotated?
      requires cfg.checked ==> i < (Healthy(tr1) + 1) * cfg.stageSize
      modifies store, outside
      ensures Noted(tr) && Running(cfg, done.Keys, tr, store.Of(runId).Keys) && tr1 <= tr
      ensures ok ==> InStage(cfg, done.Keys, tr0, tr, store.Of(runId).Keys, i + 1, t)
      ensures !ok ==> Ended(tr) && !FailedCheck(tr) && Replaced(tr) == Replaced(tr0) + t.creds
      ensures !ok ==> Failures(tr) == 1 && |Work(tr)| == i + 1 && |t.creds| + t.skipped == i - |Work(tr0)|
    {
      ghost var recorded := store.Of(runId).Keys;
      var e := Handle(cfg.targets[i], done);
      StageNext(cfg, done.Keys, tr0, tr1, recorded, i, t1, e);
      NotedNext(tr1, e);
      if Ends(e) { StageStops(cfg, done.Keys, tr0, tr1, recorded, i, t1, e); }
      tr, ok := tr1 + [e], !Ends(e);
      t := if ok then Count(t1, e) else t1;
    }

    /** The inner loop: one stage's credentials in order, stopping at the first failure. */
    method Stage(done: map<string, string>, to: nat, tr0: seq<Event>) returns (tr: seq<Event>, t: Tally, ok: bool)
      requires ConfigOk(cfg) && |Work(tr0)| <= to <= |cfg.targets| && Noted(tr0)
      requires InStage(cfg, done.Keys, tr0, tr0, store.Of(runId).Keys, |Work(tr0)|, Tally([], [], 0))
      requires cfg.ssh ==> tr0 != [] && tr0[0].KeyRotated?
      requires cfg.checked ==> to <= (Healthy(tr0) + 1) * cfg.stageSize
      modifies store, outside
      ensures Noted(tr) && Running(cfg, done.Keys, tr, store.Of(runId).Keys)
      ensures ok ==> InStage(cfg, done.Keys, tr0, tr, store.Of(runId).Keys, to, t)
      ensures !ok ==> Ended(tr) && !FailedCheck(tr) && Failures(tr) == 1
      ensures !ok ==> |t.creds| + t.skipped + 1 == |Work(tr)| - |Work(tr0)|
      ensures Replaced(tr) == Replaced(tr0) + t.creds
    {
      tr, t, ok := tr0, Tally([], [], 0), true;
      for i := |Work(tr0)| to to
        invariant ok && Noted(tr) && InStage(cfg, done.Keys, tr0, tr, store.Of(runId).Keys, i, t)
      {
        tr, t, ok := Next(done, tr0, tr, i, t);
        if !ok { return; }
      }
    }

    lemma NotedNext(tr: seq<Event>, e: Event)
      requires outside.calls == Before + CallsOf(cfg.guarded, tr) + CallsFor(cfg.guarded, e)
      ensures Noted(tr + [e])
    {
      CallsAfter(Before, cfg.guarded, tr, e);
    }

    /** The health check after a stage, and the rollback of its new credentials when it fails. */
    method Check(ghost done: set<string>, ghost tr0: seq<Event>, ghost recorded0: set<string>, stage: nat,
                 ghost t0: Tally,
                 tr1: seq<Event>, ghost recorded: set<string>, s: Tally)
      returns (tr: seq<Event>, healthy: bool)
      requires ConfigOk(cfg) && cfg.checked && |Work(tr0)| < |cfg.targets| && Noted(tr1)
      requires Between(cfg, done, tr0, recorded0, stage, t0)
      requires InStage(cfg, done, tr0, tr1, recorded, Min(|Work(tr0)| + cfg.stageSize, |cfg.targets|), s)
      modifies outside
      ensures Noted(tr) && Running(cfg, done, tr, recorded)
      ensures healthy ==>
                Between(cfg, done, tr, recorded, stage + 1, Tally([], t0.creds + s.creds, t0.skipped + s.skipped))
      ensures !healthy ==>
                Ended(tr) && FailedCheck(tr) && StoppedAt(cfg, tr, stage + 1) && Replaced(tr) == Replaced(tr1)
      ensures !healthy ==> Work(tr) == Work(tr1)
    {
      healthy := outside.Healthy(stage + 1);
      NotedNext(tr1, Health(stage + 1, healthy));
      tr := tr1 + [Health(stage + 1, healthy)];
      StageChecked(cfg, done, tr0, recorded0, stage, t0, tr1, recorded, s, healthy);
      if healthy {
        StageHealthy(cfg, done, tr0, recorded0, stage, t0, tr1, recorded, s);
      } else {
        tr := Undo(done, recorded, tr1, stage, s.news);
      }
    }

    /** After a failed check: the rollback, where there is one. */
    method Undo(ghost done: set<string>, ghost recorded: set<string>, tr1: seq<Event>, stage: nat, news: seq<string>)
      returns (tr: seq<Event>)
      requires ConfigOk(cfg) && CheckedOk(cfg, done, recorded, tr1 + [Health(stage + 1, false)], false, news)
      requires Noted(tr1 + [Health(stage + 1, false)]) && Healthy(tr1) == stage && news == NewIdsThisStage(tr1)
      modifies outside
      ensures Noted(tr) && Running(cfg, done, tr, recorded) && Replaced(tr) == Replaced(tr1) && Work(tr) == Work(tr1)
      ensures Ended(tr) && FailedCheck(tr) && StoppedAt(cfg, tr, stage + 1)
    {
      tr := tr1 + [Health(stage + 1, false)];
      assert tr[|tr1|] == Health(stage + 1, false) && tr[..|tr1|] == tr1;
      WorkSnoc(tr1, Health(stage + 1, false));
      if cfg.revertible {
        var undone := outside.RollsBack(news);
        var e := RolledBack(news, undone);
        NotedNext(tr, e);
        OtherNext(cfg, done, tr, recorded, e);
        assert (tr + [e])[|tr1|] == tr[|tr1|] && (tr + [e])[..|tr1|] == tr1;
        tr := tr + [e];
      }
    }

    /** One stage with its check. */
    method OneStage(done: map<string, string>, tr0: seq<Event>, stage: nat, t0: Tally)
      returns (tr: seq<Event>, t: Tally, ok: bool, unhealthy: bool)
      requires ConfigOk(cfg) && Between(cfg, done.Keys, tr0, store.Of(runId).Keys, stage, t0)
      requires |Work(tr0)| < |cfg.targets| && Noted(tr0)
      modifies store, outside
      ensures Noted(tr) && Running(cfg, done.Keys, tr, store.Of(runId).Keys)
      ensures ok ==> Between(cfg, done.Keys, tr, store.Of(runId).Keys, stage + 1, t)
      ensures !ok ==> Ended(tr)
      ensures unhealthy <==> FailedCheck(tr)
      ensures unhealthy ==> !ok && StoppedAt(cfg, tr, stage + 1)
      ensures t.creds == Replaced(tr) && Accounts(tr, |t.creds|, t.skipped)
      ensures Failures(tr) == 0 <==> ok || unhealthy
    {
      ghost var recorded0 := store.Of(runId).Keys;
      StageStarts(cfg, done.Keys, tr0, recorded0, stage, t0);
      NextStageBounds(cfg, stage, |Work(tr0)|);
      var s;
      tr, s, ok := Stage(done, Min(|Work(tr0)| + cfg.stageSize, |cfg.targets|), tr0);
      ghost var recorded := store.Of(runId).Keys;
      t, unhealthy := Tally(s.news, t0.creds + s.creds, t0.skipped + s.skipped), false;
      if !ok { return; }
      if cfg.checked {
        tr, ok := Check(done.Keys, tr0, recorded0, stage, t0, tr, recorded, s);
        unhealthy := !ok;
        if unhealthy { CheckedRunHasNoFailure(cfg, tr); }
        if ok { t := t.(news := []); }
      } else {
        StageUnchecked(cfg, done.Keys, tr0, recorded0, stage, t0, tr, recorded, s);
      }
      if ok {
        FailedCheckEnds(tr);
        FailuresEnd(tr);
      }
    }

    /** The staged loop. */
    method Stages(done: map<string, string>, tr0: seq<Event>)
      returns (tr: seq<Event>, stage: nat, t: Tally, failedStage: int, ok: bool)
      requires ConfigOk(cfg) && Between(cfg, done.Keys, tr0, store.Of(runId).Keys, 0, Tally([], [], 0)) && Noted(tr0)
      modifies store, outside
      ensures Noted(tr) && Running(cfg, done.Keys, tr, store.Of(runId).Keys)
      ensures ok ==> |Work(tr)| == |cfg.targets| && Between(cfg, done.Keys, tr, store.Of(runId).Keys, stage, t)
      ensures !ok ==> Ended(tr)
      ensures failedStage != -1 <==> FailedCheck(tr)
      ensures failedStage != -1 ==> !ok && StoppedAt(cfg, tr, failedStage)
      ensures t.creds == Replaced(tr) && Accounts(tr, |t.creds|, t.skipped)
      ensures Failures(tr) == 0 <==> ok || failedStage != -1
    {
      tr, stage, t, failedStage, ok := tr0, 0, Tally([], [], 0), -1, true;
      FailedCheckEnds(tr);
      FailuresEnd(tr);
      while |Work(tr)| < |cfg.targets|
        invariant Noted(tr) && Between(cfg, done.Keys, tr, store.Of(runId).Keys, stage, t)
        invariant failedStage == -1 && ok && !FailedCheck(tr) && Failures(tr) == 0
        decreases |cfg.targets| - |Work(tr)|
      {
        var unhealthy;
        NextStageBounds(cfg, stage, |Work(tr)|);
        tr, t, ok, unhealthy := OneStage(done, tr, stage, t);
        stage := stage + 1;
        if unhealthy { failedStage := stage; }
        if !ok { return; }
      }
    }

    /** After the stages, for an SSH CA: redistribute trust, then publish the KRL. */
    method Reestablish(ghost done: set<string>, ghost recorded: set<string>, tr0: seq<Event>, revoked: seq<string>)
      returns (tr: seq<Event>, ok: bool)
      requires ConfigOk(cfg) && cfg.ssh && Running(cfg, done, tr0, recorded) && Noted(tr0) && !FailedCheck(tr0)
      requires AllStagesHealthy(cfg, tr0) && revoked == Replaced(tr0)
      modifies outside
      ensures Noted(tr) && Running(cfg, done, tr, recorded) && (ok <==> !Ended(tr)) && !FailedCheck(tr)
      ensures ok ==> AllStagesHealthy(cfg, tr) && tr == tr0 + [TrustRedistributed(true)] + [KrlPublished(revoked, true)]
      ensures Replaced(tr) == revoked && Work(tr) == Work(tr0) && Failures(tr) == Failures(tr0)
    {
      ok := outside.Redistributes();
      tr := Append(done, recorded, tr0, TrustRedistributed(ok));
      if !ok { return; }
      ok := outside.Publishes(revoked);
      tr := Append(done, recorded, tr, KrlPublished(revoked, ok));
    }

    /** Another call of the protocol that is about no single credential and is no check. */
    method Append(ghost done: set<string>, ghost recorded: set<string>, tr0: seq<Event>, e: Event)
      returns (tr: seq<Event>)
      requires ConfigOk(cfg) && Running(cfg, done, tr0, recorded) && !IsWork(e) && !e.Health? && MayFollow(cfg, tr0, e)
      requires outside.calls == Before + CallsOf(cfg.guarded, tr0) + CallsFor(cfg.guarded, e) && !FailedCheck(tr0)
      ensures tr == tr0 + [e] && Noted(tr) && Running(cfg, done, tr, recorded) && !FailedCheck(tr)
      ensures Ended(tr) <==> Ends(e) || Ended(tr0)
      ensures Work(tr) == Work(tr0) && Replaced(tr) == Replaced(tr0) && Healthy(tr) == Healthy(tr0)
      ensures Failures(tr) == Failures(tr0)
    {
      FailuresSnoc(tr0, e);
      tr := tr0 + [e];
      NotedNext(tr0, e);
      OtherNext(cfg, done, tr0, recorded, e);
      FailedCheckLast(tr0, e);
    }

    /** For an SSH issuer, the CA key is rotated before anything else. */
    method RotateFirst(ghost recorded: set<string>) returns (tr: seq<Event>, ok: bool)
      requires ConfigOk(cfg) && outside.calls == Before
      modifies outside
      ensures Noted(tr) && Running(cfg, recorded, tr, recorded) && !FailedCheck(tr) && Replaced(tr) == []
      ensures Work(tr) == [] && Failures(tr) == 0
      ensures ok ==> Between(cfg, recorded, tr, recorded, 0, Tally([], [], 0))
      ensures !ok ==> Ended(tr)
    {
      tr, ok := [], true;
      if cfg.ssh {
        var key;
        ok, key := outside.Rotates();
        tr := [if ok then KeyRotated(key) else RotationFailed];
        assert tr[..0] == [];
      }
      FirstCall(cfg, recorded, tr);
    }

    /** The opening calls: rotate the CA key of an SSH issuer, then load the progress. */
    method Begin() returns (tr: seq<Event>, done: map<string, string>, ok: bool)
      requires ConfigOk(cfg) && outside.calls == Before
      modifies outside
      ensures Noted(tr) && Running(cfg, store.Of(runId).Keys, tr, store.Of(runId).Keys) && !FailedCheck(tr)
      ensures Replaced(tr) == [] && Work(tr) == [] && Failures(tr) == 0
      ensures ok ==> done.Keys == store.Of(runId).Keys && Between(cfg, done.Keys, tr, done.Keys, 0, Tally([], [], 0))
      ensures !ok ==> Ended(tr)
    {
      done := map[];
      ghost var recorded := store.Of(runId).Keys;
      tr, ok := RotateFirst(recorded);
      if !ok { return; }
      ok := *;
      if !ok {
        tr := Append(recorded, recorded, tr, ProgressUnavailable);
        return;
      }
      done := store.Completed(runId);
    }

    /**
     ReissueFleet. The trace is exactly what was asked of others. The run completes exactly when none of its calls
     failed; it has then dealt with every target, in the number of stages its size asks for. A failed health check
     is reported with its stage and rolled back where that is configured. Whatever happened, it worked through the
     targets in order, left the recorded ones alone, and recorded what its trace says.
     */
    method ReissueFleet() returns (rep: Report, tr: seq<Event>)
      requires ConfigOk(cfg)
      modifies this, store, outside
      ensures outside.calls == old(outside.calls) + CallsOf(cfg.guarded, tr)
      ensures Ordered(cfg, tr) && WorksThrough(cfg.targets, old(store.Of(runId)).Keys, tr)
      ensures store.Of(runId).Keys == old(store.Of(runId)).Keys + Recorded(tr)
      ensures Reports(cfg, rep, tr)
      ensures rep.completed ==> (Lists(Replaced(tr), cfg.targets, store.Of(runId).Keys) <==>
                                 NoneDone(cfg.targets, old(store.Of(runId)).Keys))
    {
      Before := outside.calls;
      rep := Report(|cfg.targets|, 0, 0, 0, false, -1, false);
      var done, ok;
      tr, done, ok := Begin();
      if !ok { return; }
      assert done.Keys == old(store.Of(runId)).Keys;
      rep, tr := RunStages(done, tr);
      if rep.completed { KrlIsCompleteExactlyWhenFirst(cfg.targets, done.Keys, tr); }
    }

    /** Everything after the opening calls. */
    method RunStages(done: map<string, string>, tr0: seq<Event>) returns (rep: Report, tr: seq<Event>)
      requires ConfigOk(cfg) && Between(cfg, done.Keys, tr0, store.Of(runId).Keys, 0, Tally([], [], 0)) && Noted(tr0)
      modifies store, outside
      ensures Noted(tr) && Running(cfg, done.Keys, tr, store.Of(runId).Keys)
      ensures Reports(cfg, rep, tr)
    {
      rep := Report(|cfg.targets|, 0, 0, 0, false, -1, false);
      var stage, t, failed, ok;
      tr, stage, t, failed, ok := Stages(done, tr0);
      rep := rep.(reissued := |t.creds|, skipped := t.skipped, rolledBack := failed != -1, failedStage := failed);
      if !ok { return; }
      rep := rep.(stages := stage);
      if cfg.ssh {
        tr, ok := Reestablish(done.Keys, store.Of(runId).Keys, tr, t.creds);
        if !ok { return; }
      }
      rep := rep.(completed := true);
    }
  }

  // ---------------------------------------------------------------- what the KRL covers

  lemma {:induction false} ReplacedIsWork(tr: seq<Event>, c: string)
    requires c in Replaced(tr)
    ensures exists i :: 0 <= i < |Work(tr)| && IsDone(Work(tr)[i]) && Work(tr)[i].cred == c
  {
    var before, last := tr[..|tr| - 1], tr[|tr| - 1];
    if c in Replaced(before) {
      ReplacedIsWork(before, c);
      var i :| 0 <= i < |Work(before)| && IsDone(Work(before)[i]) && Work(before)[i].cred == c;
      assert Work(tr)[i] == Work(before)[i];
    } else {
      assert Work(tr)[|Work(before)|] == last;
    }
  }

  lemma {:induction false} RecordedIsReplaced(tr: seq<Event>, c: string)
    requires !Ended(tr)
    ensures c in Recorded(tr) <==> c in Replaced(tr)
  {
    if tr != [] { RecordedIsReplaced(tr[..|tr| - 1], c); }
  }

  /** Every target recorded for the run is on the list. */
  ghost predicate Lists(revoked: seq<string>, targets: seq<string>, recorded: set<string>) {
    forall c :: c in targets && c in recorded ==> c in revoked
  }

  ghost predicate NoneDone(targets: seq<string>, done: set<string>) {
    forall c :: c in targets ==> c !in done
  }

  /**
   The KRL of a run that finished lists every target recorded for it, exactly when none had been recorded before
   the run, that is when no earlier run of the same id had been interrupted after re-issuing one.
   */
  lemma KrlIsCompleteExactlyWhenFirst(targets: seq<string>, done: set<string>, tr: seq<Event>)
    requires WorksThrough(targets, done, tr) && |Work(tr)| == |targets| && !Ended(tr)
    ensures Lists(Replaced(tr), targets, done + Recorded(tr)) <==> NoneDone(targets, done)
  {
    forall c | c in Replaced(tr) ensures c !in done {
      ReplacedIsWork(tr, c);
      var i :| 0 <= i < |Work(tr)| && IsDone(Work(tr)[i]) && Work(tr)[i].cred == c;
      assert targets[i] == c;
    }
    forall c | c in Recorded(tr) ensures c in Replaced(tr) { RecordedIsReplaced(tr, c); }
  }

  const SMALL_SSH := Config(["c"], 1, false, false, false, true)

  const INTERRUPTED := [KeyRotated("k"), Issued("c", "n", MarkFailed(true))]

  const RESUMED := [KeyRotated("k"), AlreadyDone("c"), TrustRedistributed(true), KrlPublished([], true)]

  /** A first run that re-issues the one target and is interrupted at its mark, which is recorded all the same. */
  lemma InterruptedRun()
    ensures Ordered(SMALL_SSH, INTERRUPTED) && WorksThrough(SMALL_SSH.targets, {}, INTERRUPTED)
    ensures Recorded(INTERRUPTED) == {"c"}
  {
    var k, i := KeyRotated("k"), Issued("c", "n", MarkFailed(true));
    assert [k] + [i] == INTERRUPTED;
    FirstCall(SMALL_SSH, {}, [k]);
    assert Work([k]) == [] && Recorded([k]) == {} by {
      WorkSnoc([], k);
      assert [] + [k] == [k];
    }
    assert Running(SMALL_SSH, {}, INTERRUPTED, {"c"}) by { WorkNext(SMALL_SSH, {}, [k], {}, i); }
  }

  lemma ResumedStages()
    ensures var tr := [KeyRotated("k"), AlreadyDone("c")];
            Running(SMALL_SSH, {"c"}, tr, {"c"}) && AllStagesHealthy(SMALL_SSH, tr) && Replaced(tr) == []
  {
    var k, a := KeyRotated("k"), AlreadyDone("c");
    assert [k] + [a] == [k, a];
    FirstCall(SMALL_SSH, {"c"}, [k]);
    assert Work([k]) == [] && Replaced([k]) == [] by {
      WorkSnoc([], k);
      assert [] + [k] == [k];
    }
    assert Running(SMALL_SSH, {"c"}, [k, a], {"c"}) by { WorkNext(SMALL_SSH, {"c"}, [k], {"c"}, a); }
    assert Work([k, a]) == [a] && Replaced([k, a]) == [] by { WorkSnoc([k], a); }
    assert !Ended([k, a]) by { OrderedSnoc(SMALL_SSH, [k], a); }
  }

  /** The second run of the same id finishes, and its KRL is empty although the target was re-issued. */
  lemma KrlOmitsEarlierRun()
    ensures Ordered(SMALL_SSH, RESUMED) && WorksThrough(SMALL_SSH.targets, Recorded(INTERRUPTED), RESUMED)
    ensures AllStagesHealthy(SMALL_SSH, RESUMED) && RESUMED[3].revoked == []
    ensures !Lists(RESUMED[3].revoked, SMALL_SSH.targets, Recorded(INTERRUPTED))
  {
    InterruptedRun();
    ResumedStages();
    var tr, r, p := [KeyRotated("k"), AlreadyDone("c")], TrustRedistributed(true), KrlPublished([], true);
    OtherNext(SMALL_SSH, {"c"}, tr, {"c"}, r);
    OtherNext(SMALL_SSH, {"c"}, tr + [r], {"c"}, p);
    assert tr + [r] + [p] == RESUMED;
    assert "c" in SMALL_SSH.targets;
  }

  /** A credential's own failure ends the run without a failed check. */
  lemma StopsInStage(tr: seq<Event>, e: Event)
    requires !Ended(tr) && IsWork(e)
    ensures !FailedCheck(tr + [e])
  {
    FailedCheckEnds(tr);
    FailedCheckLast(tr, e);
  }

  function TargetsOf(configs: seq<Config>): (targets: seq<seq<string>>)
    ensures |targets| == |configs|
  {
    if configs == [] then [] else TargetsOf(configs[..|configs| - 1]) + [configs[|configs| - 1].targets]
  }

  ghost predicate RanAs(cfg: Config, rep: Report, tr: seq<Event>) {
    ConfigOk(cfg) && Ordered(cfg, tr) && (rep.completed <==> !Ended(tr))
  }

  /** Runs of one id so far, their reports, and what the store holds after them. */
  ghost predicate Resumed(configs: seq<Config>, reports: seq<Report>, runs: seq<seq<Event>>, recorded: set<string>) {
    && |reports| == |runs| == |configs| && History(TargetsOf(configs), runs) && recorded == Done(runs)
    && forall k :: 0 <= k < |runs| ==> RanAs(configs[k], reports[k], runs[k])
  }

  lemma ResumedNext(configs: seq<Config>, reports: seq<Report>, runs: seq<seq<Event>>, cfg: Config, rep: Report,
                    tr: seq<Event>)
    requires Resumed(configs, reports, runs, Done(runs)) && RanAs(cfg, rep, tr)
    requires WorksThrough(cfg.targets, Done(runs), tr)
    ensures Resumed(configs + [cfg], reports + [rep], runs + [tr], Done(runs) + Recorded(tr))
  {
    RunsMakeHistory(TargetsOf(configs), runs, cfg.targets, tr);
    assert (configs + [cfg])[..|configs|] == configs;
  }

  method ReissueOnce(store: MemoryProgress, outside: Outside, runId: string, cfg: Config)
    returns (rep: Report, tr: seq<Event>)
    requires ConfigOk(cfg)
    modifies store, outside
    ensures RanAs(cfg, rep, tr) && WorksThrough(cfg.targets, old(store.Of(runId)).Keys, tr)
    ensures store.Of(runId).Keys == old(store.Of(runId)).Keys + Recorded(tr)
    ensures outside.calls == old(outside.calls) + CallsOf(cfg.guarded, tr)
  {
    var rollout := new Rollout(cfg, store, outside, runId);
    rep, tr := rollout.ReissueFleet();
  }

  /**
   The same run id any number of times over one store, each time with whatever configuration and targets, and
   each time stopping wherever it stops: the runs form a history, so no credential is re-issued more than once
   beyond the runs that stopped between its re-issuance and its mark.
   */
  method ReissueUntilDone(store: MemoryProgress, outside: Outside, runId: string, configs: seq<Config>)
    returns (reports: seq<Report>, ghost runs: seq<seq<Event>>)
    requires (forall i :: 0 <= i < |configs| ==> ConfigOk(configs[i])) && store.Of(runId) == map[]
    modifies store, outside
    ensures |reports| == |runs| == |configs| && History(TargetsOf(configs), runs)
    ensures store.Of(runId).Keys == Done(runs)
    ensures forall i :: 0 <= i < |runs| ==> RanAs(configs[i], reports[i], runs[i])
    ensures forall c :: TotalReissues(runs, c) <= TotalStops(runs, c) + (if c in Done(runs) then 1 else 0)
    ensures forall c, k: nat :: k < |runs| && c in Done(runs[..k]) ==> Reissues(runs[k], c) == 0
  {
    reports, runs := [], [];
    for i := 0 to |configs|
      invariant Resumed(configs[..i], reports, runs, store.Of(runId).Keys)
    {
      var rep, tr := ReissueOnce(store, outside, runId, configs[i]);
      ResumedNext(configs[..i], reports, runs, configs[i], rep, tr);
      assert configs[..i + 1] == configs[..i] + [configs[i]];
      reports, runs := reports + [rep], runs + [tr];
    }
    assert configs[..|configs|] == configs;
    HistoryResumes(TargetsOf(configs), runs);
  }

  lemma HistoryResumes(targets: seq<seq<string>>, runs: seq<seq<Event>>)
    requires History(targets, runs)
    ensures forall c :: TotalReissues(runs, c) <= TotalStops(runs, c) + (if c in Done(runs) then 1 else 0)
    ensures forall c, k: nat :: k < |runs| && c in Done(runs[..k]) ==> Reissues(runs[k], c) == 0
  {
    forall c ensures TotalReissues(runs, c) <= TotalStops(runs, c) + (if c in Done(runs) then 1 else 0) {
      ResumeNeverDuplicates(targets, runs, c);
    }
    forall c, k: nat | k < |runs| && c in Done(runs[..k]) ensures Reissues(runs[k], c) == 0 {
      RecordedIsNotReissued(targets, runs, c, k);
    }
  }
}
