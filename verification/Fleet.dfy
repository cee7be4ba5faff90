/**
 Staged, resumable re-issuance of every credential a compromised issuer signed: ee/fleet. One run is
 ReissueFleet; it can stop after any call it makes, and a later run resumes from the recorded progress.
 */
module Fleet {
  import opened Names

  /** How recording a re-issuance went; a failed Mark may have been recorded all the same. */
  datatype Mark = MarkOk | MarkFailed(recorded: bool)

  /** The calls a run makes, and how each came out. */
  datatype Event =
    | KeyRotated(key: string)
    | RotationFailed
    | ProgressUnavailable
    | AlreadyDone(cred: string)
    | Denied(cred: string)
    | ReissueFailed(cred: string)
    | Issued(cred: string, newId: string, mark: Mark)
    | Health(stage: nat, ok: bool)
    | RolledBack(ids: seq<string>, ok: bool)
    | TrustRedistributed(ok: bool)
    | KrlPublished(revoked: seq<string>, ok: bool)

  datatype Report = Report(
    total: nat, reissued: nat, skipped: nat, stages: nat,
    rolledBack: bool, failedStage: int, completed: bool)

  // ---------------------------------------------------------------- reading a trace

  predicate IsWork(e: Event) {
    e.AlreadyDone? || e.Denied? || e.ReissueFailed? || e.Issued?
  }

  /** The events about single credentials, in order. */
  function Work(tr: seq<Event>): (w: seq<Event>)
    ensures forall i :: 0 <= i < |w| ==> IsWork(w[i])
  {
    if tr == [] then []
    else
      var last := tr[|tr| - 1];
      Work(tr[..|tr| - 1]) + (if IsWork(last) then [last] else [])
  }

  /** The re-issuances that were issued and recorded. */
  predicate IsDone(e: Event) { e.Issued? && e.mark.MarkOk? }

  function NewIds(tr: seq<Event>): (ids: seq<string>) {
    if tr == [] then []
    else
      var last := tr[|tr| - 1];
      NewIds(tr[..|tr| - 1]) + (if IsDone(last) then [last.newId] else [])
  }

  function Replaced(tr: seq<Event>): (creds: seq<string>) {
    if tr == [] then []
    else
      var last := tr[|tr| - 1];
      Replaced(tr[..|tr| - 1]) + (if IsDone(last) then [last.cred] else [])
  }

  /** The new ids issued since the last health check, or since the start. */
  function NewIdsThisStage(tr: seq<Event>): (ids: seq<string>) {
    if tr == [] then []
    else
      var last := tr[|tr| - 1];
      if last.Health? then []
      else NewIdsThisStage(tr[..|tr| - 1]) + (if IsDone(last) then [last.newId] else [])
  }

  function RecordedBy(e: Event): (creds: set<string>) {
    if e.Issued? && (e.mark.MarkOk? || e.mark.recorded) then {e.cred} else {}
  }

  /** Credentials with a recorded mark. */
  function Recorded(tr: seq<Event>): (creds: set<string>) {
    if tr == [] then {}
    else
      Recorded(tr[..|tr| - 1]) + RecordedBy(tr[|tr| - 1])
  }

  /** How often the credential was re-issued, and how often the run then stopped before its mark. */
  function Reissues(tr: seq<Event>, c: string): (n: nat) {
    if tr == [] then 0
    else
      var last := tr[|tr| - 1];
      Reissues(tr[..|tr| - 1], c) + (if last.Issued? && last.cred == c then 1 else 0)
  }

  function StopsBeforeMark(tr: seq<Event>, c: string): (n: nat) {
    if tr == [] then 0
    else
      var last := tr[|tr| - 1];
      StopsBeforeMark(tr[..|tr| - 1], c)
      + (if last.Issued? && last.cred == c && last.mark.MarkFailed? then 1 else 0)
  }

  /** The positions at which a re-issuance was issued and recorded, in order and without gaps. */
  ghost predicate DoneAt(tr: seq<Event>, places: seq<nat>) {
    && (forall i, j :: 0 <= i < j < |places| ==> places[i] < places[j])
    && forall i: nat :: i in places <==> i < |tr| && IsDone(tr[i])
  }

  /** New and replaced credentials are listed one by one, in the order of their re-issuance. */
  lemma {:induction false} ListedInOrder(tr: seq<Event>) returns (places: seq<nat>)
    ensures DoneAt(tr, places) && |NewIds(tr)| == |Replaced(tr)| == |places|
    ensures forall j :: 0 <= j < |places| ==> places[j] < |tr| && IsDone(tr[places[j]])
    ensures forall j :: 0 <= j < |places| ==>
              NewIds(tr)[j] == tr[places[j]].newId && Replaced(tr)[j] == tr[places[j]].cred
  {
    if tr == [] {
      places := [];
    } else {
      var n: nat := |tr| - 1;
      var before := ListedInOrder(tr[..n]);
      places := before + (if IsDone(tr[n]) then [n] else []);
      forall j | 0 <= j < |before| ensures before[j] < n && tr[before[j]] == tr[..n][before[j]] {
        assert before[j] in before;
      }
      forall i: nat ensures i in places <==> i < |tr| && IsDone(tr[i]) {
        if i < n { assert tr[..n][i] == tr[i]; }
      }
    }
  }

  /** The new ids of a stage are those of its own part of the trace, from after the last health check. */
  lemma {:induction false} StageIsItsOwnPart(before: seq<Event>, stage: seq<Event>)
    requires before != [] ==> before[|before| - 1].Health?
    requires forall i :: 0 <= i < |stage| ==> !stage[i].Health?
    ensures NewIdsThisStage(before + stage) == NewIds(stage)
  {
    var tr := before + stage;
    if stage == [] {
      assert tr == before;
    } else {
      var n := |stage| - 1;
      StageIsItsOwnPart(before, stage[..n]);
      assert tr[..|tr| - 1] == before + stage[..n] && tr[|tr| - 1] == stage[n];
    }
  }

  // ---------------------------------------------------------------- what a run may do

  /** The run has worked through the targets in order, and re-issued only what was not done before. */
  ghost predicate WorksThrough(targets: seq<string>, done: set<string>, tr: seq<Event>) {
    && |Work(tr)| <= |targets|
    && forall i :: 0 <= i < |Work(tr)| ==>
         && Work(tr)[i].cred == targets[i]
         && (Work(tr)[i].AlreadyDone? <==> targets[i] in done)
  }

  lemma {:induction false} WorkSnoc(tr: seq<Event>, e: Event)
    ensures Work(tr + [e]) == Work(tr) + (if IsWork(e) then [e] else [])
    ensures NewIds(tr + [e]) == NewIds(tr) + (if IsDone(e) then [e.newId] else [])
    ensures Replaced(tr + [e]) == Replaced(tr) + (if IsDone(e) then [e.cred] else [])
    ensures NewIdsThisStage(tr + [e]) ==
            if e.Health? then [] else NewIdsThisStage(tr) + (if IsDone(e) then [e.newId] else [])
    ensures Recorded(tr + [e]) == Recorded(tr) + RecordedBy(e)
  {
    assert (tr + [e])[..|tr|] == tr;
  }

  // ---------------------------------------------------------------- over several runs

  /** Everything recorded by the runs so far. */
  function Done(runs: seq<seq<Event>>): (creds: set<string>) {
    if runs == [] then {} else Done(runs[..|runs| - 1]) + Recorded(runs[|runs| - 1])
  }

  /** Runs of one id: each works through its own targets, given what the earlier ones recorded. */
  ghost predicate History(targets: seq<seq<string>>, runs: seq<seq<Event>>) {
    && |targets| == |runs|
    && forall k :: 0 <= k < |runs| ==> Distinct(targets[k]) && WorksThrough(targets[k], Done(runs[..k]), runs[k])
  }

  function TotalReissues(runs: seq<seq<Event>>, c: string): (n: nat) {
    if runs == [] then 0 else TotalReissues(runs[..|runs| - 1], c) + Reissues(runs[|runs| - 1], c)
  }

  function TotalStops(runs: seq<seq<Event>>, c: string): (n: nat) {
    if runs == [] then 0 else TotalStops(runs[..|runs| - 1], c) + StopsBeforeMark(runs[|runs| - 1], c)
  }

  lemma CountsSnoc(w: seq<Event>, e: Event, c: string)
    ensures Reissues(w + [e], c) == Reissues(w, c) + (if e.Issued? && e.cred == c then 1 else 0)
    ensures StopsBeforeMark(w + [e], c) ==
            StopsBeforeMark(w, c) + (if e.Issued? && e.cred == c && e.mark.MarkFailed? then 1 else 0)
    ensures Recorded(w + [e]) == Recorded(w) + RecordedBy(e)
  {
    assert (w + [e])[..|w|] == w;
  }

  lemma {:induction false} WorkKeepsCounts(tr: seq<Event>, c: string)
    ensures Reissues(Work(tr), c) == Reissues(tr, c)
    ensures StopsBeforeMark(Work(tr), c) == StopsBeforeMark(tr, c)
    ensures Recorded(Work(tr)) == Recorded(tr)
  {
    if tr != [] {
      var init, last := tr[..|tr| - 1], tr[|tr| - 1];
      WorkKeepsCounts(init, c);
      if IsWork(last) { CountsSnoc(Work(init), last, c); } else { assert Work(tr) == Work(init); }
    }
  }

  /** A credential not among these events is not counted in them. */
  lemma {:induction false} NotThere(w: seq<Event>, c: string)
    requires forall i :: 0 <= i < |w| ==> IsWork(w[i]) && (w[i].cred == c ==> !w[i].Issued?)
    ensures Reissues(w, c) == 0 && StopsBeforeMark(w, c) == 0 && c !in Recorded(w)
  {
    if w != [] { NotThere(w[..|w| - 1], c); }
  }

  /** With distinct credentials, c is re-issued at most once, and then is recorded or stopped. */
  lemma {:induction false} AtMostOnce(w: seq<Event>, c: string)
    requires forall i, j :: 0 <= i < j < |w| ==> IsWork(w[i]) && IsWork(w[j]) && w[i].cred != w[j].cred
    ensures Reissues(w, c) <= 1
    ensures Reissues(w, c) <= StopsBeforeMark(w, c) + (if c in Recorded(w) then 1 else 0)
  {
    if w != [] {
      var init, last := w[..|w| - 1], w[|w| - 1];
      if last.Issued? && last.cred == c {
        assert forall i :: 0 <= i < |init| ==> init[i] == w[i] && IsWork(init[i]) && init[i].cred != c;
        NotThere(init, c);
      } else {
        assert forall i, j :: 0 <= i < j < |init| ==> init[i] == w[i] && init[j] == w[j];
        AtMostOnce(init, c);
      }
    }
  }

  /** A single run re-issues c at most once, and not at all if c was recorded before. */
  lemma OneRun(targets: seq<string>, done: set<string>, tr: seq<Event>, c: string)
    requires Distinct(targets) && WorksThrough(targets, done, tr)
    ensures Reissues(tr, c) <= 1
    ensures Reissues(tr, c) <= StopsBeforeMark(tr, c) + (if c in Recorded(tr) then 1 else 0)
    ensures c in done ==> Reissues(tr, c) == 0 && StopsBeforeMark(tr, c) == 0 && c !in Recorded(tr)
  {
    WorkKeepsCounts(tr, c);
    AtMostOnce(Work(tr), c);
    if c in done { NotThere(Work(tr), c); }
  }

  lemma HistoryPrefix(targets: seq<seq<string>>, runs: seq<seq<Event>>, n: nat)
    requires History(targets, runs) && n <= |runs|
    ensures History(targets[..n], runs[..n])
  {
    forall k | 0 <= k < n
      ensures Distinct(targets[..n][k]) && WorksThrough(targets[..n][k], Done(runs[..n][..k]), runs[..n][k])
    {
      assert runs[..n][..k] == runs[..k];
      assert Distinct(targets[k]) && WorksThrough(targets[k], Done(runs[..k]), runs[k]);
    }
  }

  /** A credential with a recorded mark is never re-issued again. */
  lemma RecordedIsNotReissued(targets: seq<seq<string>>, runs: seq<seq<Event>>, c: string, k: nat)
    requires History(targets, runs) && k < |runs| && c in Done(runs[..k])
    ensures Reissues(runs[k], c) == 0
  {
    OneRun(targets[k], Done(runs[..k]), runs[k], c);
  }

  /**
   Resume: over any sequence of runs, however each stopped, a credential is re-issued at most once more than
   the runs that stopped between its re-issuance and its mark.
   */
  lemma {:induction false} ResumeNeverDuplicates(targets: seq<seq<string>>, runs: seq<seq<Event>>, c: string)
    requires History(targets, runs)
    ensures TotalReissues(runs, c) <= TotalStops(runs, c) + (if c in Done(runs) then 1 else 0)
  {
    if runs != [] {
      var n := |runs| - 1;
      HistoryPrefix(targets, runs, n);
      ResumeNeverDuplicates(targets[..n], runs[..n], c);
      OneRun(targets[n], Done(runs[..n]), runs[n], c);
    }
  }

  /**
   So a history of runs of one id over one store is a History: each starts from what the earlier
   ones recorded, and the resume guarantee holds of it.
   */
  lemma RunsMakeHistory(targets: seq<seq<string>>, runs: seq<seq<Event>>, next: seq<string>, tr: seq<Event>)
    requires History(targets, runs) && Distinct(next) && WorksThrough(next, Done(runs), tr)
    ensures History(targets + [next], runs + [tr]) && Done(runs + [tr]) == Done(runs) + Recorded(tr)
  {
    var ts, rs := targets + [next], runs + [tr];
    assert rs[..|runs|] == runs;
    forall k | 0 <= k < |rs| ensures Distinct(ts[k]) && WorksThrough(ts[k], Done(rs[..k]), rs[k]) {
      if k < |runs| { assert rs[..k] == runs[..k]; }
    }
  }
}
