/**
 What a rollback leaves behind. The mark of a re-issuance stays when its stage is rolled back, so later runs of
 the same id skip the credential and can complete while its replacement is gone.
 */
module FleetRollback {
  import opened Fleet
  import opened FleetRun
  import opened Names

  /** The re-issuance is recorded. */
  predicate Marked(e: Event, c: string) { e.Issued? && e.cred == c && (e.mark.MarkOk? || e.mark.recorded) }

  /** Some run handed the id to a rollback. */
  ghost predicate HandedBack(runs: seq<seq<Event>>, id: string) {
    exists k, j :: 0 <= k < |runs| && 0 <= j < |runs[k]| && runs[k][j].RolledBack? && id in runs[k][j].ids
  }

  ghost predicate StandsAt(runs: seq<seq<Event>>, c: string, k: nat, i: nat) {
    k < |runs| && i < |runs[k]| && Marked(runs[k][i], c) && !HandedBack(runs, runs[k][i].newId)
  }

  /** The credential has a recorded replacement that no run has rolled back. */
  ghost predicate Stands(runs: seq<seq<Event>>, c: string) {
    exists k: nat, i: nat :: StandsAt(runs, c, k, i)
  }

  /** The run rolled back at least one re-issuance. */
  predicate RolledSomeBack(tr: seq<Event>) {
    exists j :: 0 <= j < |tr| && tr[j].RolledBack? && tr[j].ids != []
  }

  /** The runs of one id, each with its own configuration. */
  ghost predicate Runs(configs: seq<Config>, runs: seq<seq<Event>>) {
    && |configs| == |runs| && History(TargetsOf(configs), runs)
    && forall k :: 0 <= k < |runs| ==> ConfigOk(configs[k]) && Ordered(configs[k], runs[k])
  }

  // ---------------------------------------------------------------- single traces

  lemma {:induction false} RecordedHasMark(tr: seq<Event>, c: string)
    ensures c in Recorded(tr) <==> exists i :: 0 <= i < |tr| && Marked(tr[i], c)
  {
    if tr != [] {
      var n := |tr| - 1;
      RecordedHasMark(tr[..n], c);
      if c in Recorded(tr[..n]) {
        var i :| 0 <= i < n && Marked(tr[..n][i], c);
        assert Marked(tr[i], c);
      }
      if i :| 0 <= i < |tr| && Marked(tr[i], c) {
        if i < n { assert Marked(tr[..n][i], c); }
      }
    }
  }

  lemma {:induction false} NewIdIsDone(tr: seq<Event>, id: string) returns (i: nat)
    requires id in NewIdsThisStage(tr)
    ensures i < |tr| && IsDone(tr[i]) && tr[i].newId == id
  {
    var n := |tr| - 1;
    if id in NewIdsThisStage(tr[..n]) { i := NewIdIsDone(tr[..n], id); } else { i := n; }
  }

  lemma {:induction false} CountsEach(tr: seq<Event>, c: string, i: nat)
    requires i < |tr| && tr[i].Issued? && tr[i].cred == c
    ensures Reissues(tr, c) >= 1
  {
    if i < |tr| - 1 { CountsEach(tr[..|tr| - 1], c, i); }
  }

  lemma {:induction false} CountsBoth(tr: seq<Event>, c: string, i: nat, j: nat)
    requires i < j < |tr| && tr[i].Issued? && tr[i].cred == c && tr[j].Issued? && tr[j].cred == c
    ensures Reissues(tr, c) >= 2
  {
    if j < |tr| - 1 { CountsBoth(tr[..|tr| - 1], c, i, j); } else { CountsEach(tr[..j], c, i); }
  }

  // ---------------------------------------------------------------- whole histories

  lemma {:induction false} DoneByOne(runs: seq<seq<Event>>, c: string)
    ensures c in Done(runs) <==> exists k :: 0 <= k < |runs| && c in Recorded(runs[k])
  {
    if runs != [] {
      var n := |runs| - 1;
      DoneByOne(runs[..n], c);
      if c in Done(runs[..n]) {
        var k :| 0 <= k < n && c in Recorded(runs[..n][k]);
        assert c in Recorded(runs[k]);
      }
      if k :| 0 <= k < |runs| && c in Recorded(runs[k]) {
        if k < n { assert c in Recorded(runs[..n][k]); }
      }
    }
  }

  lemma RecordedOnlyOnce(targets: seq<seq<string>>, runs: seq<seq<Event>>, c: string, k: nat, l: nat)
    requires History(targets, runs) && k < l < |runs| && c in Recorded(runs[k])
    ensures c !in Recorded(runs[l])
  {
    assert c in Recorded(runs[..l][k]);
    DoneByOne(runs[..l], c);
    OneRun(targets[l], Done(runs[..l]), runs[l], c);
  }

  /** There is one recorded re-issuance of a credential in all the runs. */
  lemma OneMark(targets: seq<seq<string>>, runs: seq<seq<Event>>, c: string, k: nat, i: nat, l: nat, j: nat)
    requires History(targets, runs) && k < |runs| && l < |runs| && i < |runs[k]| && j < |runs[l]|
    requires Marked(runs[k][i], c) && Marked(runs[l][j], c)
    ensures k == l && i == j
  {
    RecordedHasMark(runs[k], c);
    RecordedHasMark(runs[l], c);
    if k < l { RecordedOnlyOnce(targets, runs, c, k, l); }
    if l < k { RecordedOnlyOnce(targets, runs, c, l, k); }
    OneRun(targets[k], Done(runs[..k]), runs[k], c);
    if i < j { CountsBoth(runs[k], c, i, j); }
    if j < i { CountsBoth(runs[k], c, j, i); }
  }

  /** A rollback with something to undo leaves a recorded credential without its replacement. */
  lemma RollbackUndoes(configs: seq<Config>, runs: seq<seq<Event>>, k: nat, j: nat) returns (c: string)
    requires Runs(configs, runs) && k < |runs| && j < |runs[k]| && runs[k][j].RolledBack? && runs[k][j].ids != []
    ensures c in Done(runs) && !Stands(runs, c)
  {
    var tr, id := runs[k], runs[k][j].ids[0];
    RollbackGetsTheStage(configs[k], tr, j);
    var i := NewIdIsDone(tr[..j - 1], id);
    c := tr[i].cred;
    assert Marked(tr[i], c) && HandedBack(runs, tr[i].newId);
    RecordedHasMark(tr, c);
    DoneByOne(runs, c);
    forall l: nat, m: nat | StandsAt(runs, c, l, m) ensures false {
      OneMark(TargetsOf(configs), runs, c, k, i, l, m);
    }
  }

  lemma UndisturbedStands(runs: seq<seq<Event>>, c: string)
    requires c in Done(runs) && forall k :: 0 <= k < |runs| ==> !RolledSomeBack(runs[k])
    ensures Stands(runs, c)
  {
    DoneByOne(runs, c);
    var k: nat :| k < |runs| && c in Recorded(runs[k]);
    RecordedHasMark(runs[k], c);
    var i: nat :| i < |runs[k]| && Marked(runs[k][i], c);
    assert StandsAt(runs, c, k, i);
  }

  /**
   After any runs of one id, every recorded credential has a replacement that stands exactly when no run rolled a
   re-issuance back. Completion of the last run makes no difference: it skips what is recorded.
   */
  lemma RecordedStandsExactlyWithoutRollback(configs: seq<Config>, runs: seq<seq<Event>>)
    requires Runs(configs, runs)
    ensures (forall c :: c in Done(runs) ==> Stands(runs, c)) <==>
            (forall k :: 0 <= k < |runs| ==> !RolledSomeBack(runs[k]))
  {
    if k: nat :| k < |runs| && RolledSomeBack(runs[k]) {
      var j :| 0 <= j < |runs[k]| && runs[k][j].RolledBack? && runs[k][j].ids != [];
      var c := RollbackUndoes(configs, runs, k, j);
    } else {
      forall c | c in Done(runs) ensures Stands(runs, c) { UndisturbedStands(runs, c); }
    }
  }

  // ---------------------------------------------------------------- the shortest such runs

  const ONE := Config(["c"], 1, false, true, true, false)

  const FIRST := [Issued("c", "n", MarkOk), Health(1, false), RolledBack(["n"], true)]

  const SECOND := [AlreadyDone("c"), Health(1, true)]

  lemma FirstIssue()
    ensures var tr := [FIRST[0]];
            && Running(ONE, {}, tr, {"c"}) && |Work(tr)| == 1 && NewIdsThisStage(tr) == ["n"]
            && !Ended(tr) && Healthy(tr) == 0
  {
    var i := FIRST[0];
    assert [] + [i] == [i];
    assert Running(ONE, {}, [], {});
    WorkNext(ONE, {}, [], {}, i);
    assert Work([i]) == [i] && NewIdsThisStage([i]) == ["n"] by { WorkSnoc([], i); }
    assert !Ended([i]) && Healthy([i]) == 0 by { OrderedSnoc(ONE, [], i); }
  }

  lemma FirstRun()
    ensures Running(ONE, {}, FIRST, {"c"})
  {
    var i, h, b := FIRST[0], FIRST[1], FIRST[2];
    assert [i] + [h] == [i, h] && [i, h] + [b] == FIRST;
    FirstIssue();
    assert Running(ONE, {}, [i, h], {"c"}) by { OtherNext(ONE, {}, [i], {"c"}, h); }
    assert [i, h][..1] == [i];
    OtherNext(ONE, {}, [i, h], {"c"}, b);
  }

  lemma SecondSkips()
    ensures var tr := [SECOND[0]];
            Running(ONE, {"c"}, tr, {"c"}) && |Work(tr)| == 1 && !Ended(tr) && Healthy(tr) == 0
  {
    var a := SECOND[0];
    assert [] + [a] == [a];
    assert Running(ONE, {"c"}, [], {"c"});
    WorkNext(ONE, {"c"}, [], {"c"}, a);
    assert Work([a]) == [a] by { WorkSnoc([], a); }
    assert !Ended([a]) && Healthy([a]) == 0 by { OrderedSnoc(ONE, [], a); }
  }

  lemma SecondRun()
    ensures Running(ONE, {"c"}, SECOND, {"c"}) && !Ended(SECOND)
  {
    var a, h := SECOND[0], SECOND[1];
    assert [a] + [h] == SECOND;
    SecondSkips();
    OtherNext(ONE, {"c"}, [a], {"c"}, h);
  }

  /** The first run's only stage is rolled back; the second run of the id completes, and nothing stands. */
  lemma CompletedWithoutReplacement()
    ensures Runs([ONE, ONE], [FIRST, SECOND]) && !Ended(SECOND)
    ensures Done([FIRST, SECOND]) == {"c"} && !Stands([FIRST, SECOND], "c")
  {
    TwoRuns();
    SecondRun();
    var c := RollbackUndoes([ONE, ONE], [FIRST, SECOND], 0, 2);
  }

  lemma TwoRuns()
    ensures Runs([ONE, ONE], [FIRST, SECOND]) && Done([FIRST, SECOND]) == {"c"}
  {
    FirstRun();
    SecondRun();
    assert History([ONE.targets], [FIRST]) && Done([FIRST]) == {"c"} by {
      RunsMakeHistory([], [], ONE.targets, FIRST);
      assert [] + [FIRST] == [FIRST] && [] + [ONE.targets] == [ONE.targets];
    }
    RunsMakeHistory([ONE.targets], [FIRST], ONE.targets, SECOND);
    assert [FIRST] + [SECOND] == [FIRST, SECOND] && [ONE.targets] + [ONE.targets] == [ONE.targets, ONE.targets];
    TargetsOfTwo(ONE, ONE);
  }

  lemma TargetsOfTwo(a: Config, b: Config)
    ensures TargetsOf([a, b]) == [a.targets, b.targets]
  {
    assert [a, b][..1] == [a] && [a][..0] == [];
    assert TargetsOf([a]) == [a.targets];
  }
}
