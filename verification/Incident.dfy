/**
 Remediation of a compromised credential (ee/incident): for the credential and everything downstream of it,
 reissue, then revoke, then rotate. The remediator may fail at any call, also after the call took effect.
 */
module Incident {
  import opened Names
  import opened CredentialGraph

  /** Which credentials are valid, and whose each one is. */
  datatype World = World(valid: set<string>, holder: map<string, string>)

  /** A call to the remediator: whether it reported success, and whether it took effect. */
  datatype Call =
    | Reissue(cred: string, ok: bool, done: bool, id: string)
    | Revoke(cred: string, ok: bool, done: bool)
    | Rotate(cred: string, ok: bool)

  function Apply(w: World, c: Call): (w': World) {
    match c
    case Reissue(cred, _, done, id) =>
      if !done then w
      else if cred in w.holder then World(w.valid + {id}, w.holder[id := w.holder[cred]])
      else w.(valid := w.valid + {id})
    case Revoke(cred, _, done) => if done then w.(valid := w.valid - {cred}) else w
    case Rotate(_, _) => w
  }

  function ApplyAll(w: World, trace: seq<Call>): (w': World) {
    if trace == [] then w else Apply(ApplyAll(w, trace[..|trace| - 1]), trace[|trace| - 1])
  }

  predicate Serves(w: World, cred: string, workload: string) {
    cred in w.valid && cred in w.holder && w.holder[cred] == workload
  }

  ghost predicate HasValid(w: World, workload: string) {
    exists c :: Serves(w, c, workload)
  }

  /** Every workload with a valid credential in w has one in w'. */
  ghost predicate NoOutage(w: World, w': World) {
    forall x :: HasValid(w, x) ==> HasValid(w', x)
  }

  // ---------------------------------------------------------------- traces

  /** Success means the call took effect, and a new credential has an id no credential had. */
  predicate CallOk(w: World, c: Call) {
    match c
    case Reissue(_, ok, done, id) => (ok ==> done) && (done ==> id !in w.holder && id !in w.valid)
    case Revoke(_, ok, done) => ok ==> done
    case Rotate(_, _) => true
  }

  /** A credential is revoked only right after its replacement was issued. */
  predicate ReplacedFirst(trace: seq<Call>, i: nat)
    requires i < |trace|
  {
    trace[i].Revoke? ==>
      0 < i && trace[i - 1].Reissue? && trace[i - 1].cred == trace[i].cred && trace[i - 1].ok
  }

  /** The last call issued a replacement for the credential. */
  predicate JustReissued(trace: seq<Call>, cred: string) {
    trace != [] && trace[|trace| - 1].Reissue? && trace[|trace| - 1].cred == cred && trace[|trace| - 1].ok
  }

  ghost predicate Legal(w: World, trace: seq<Call>) {
    forall i: nat :: i < |trace| ==> CallOk(ApplyAll(w, trace[..i]), trace[i]) && ReplacedFirst(trace, i)
  }

  lemma ApplySnoc(w: World, trace: seq<Call>, c: Call)
    ensures ApplyAll(w, trace + [c]) == Apply(ApplyAll(w, trace), c)
  {
    assert (trace + [c])[..|trace|] == trace;
  }

  lemma LegalSnoc(w: World, trace: seq<Call>, c: Call)
    requires Legal(w, trace) && CallOk(ApplyAll(w, trace), c)
    requires c.Revoke? ==> JustReissued(trace, c.cred)
    ensures Legal(w, trace + [c])
  {
    var trace' := trace + [c];
    forall i: nat | i < |trace'| ensures CallOk(ApplyAll(w, trace'[..i]), trace'[i]) && ReplacedFirst(trace', i) {
      assert trace'[..i] == trace[..i];
      if i < |trace| {
        assert CallOk(ApplyAll(w, trace[..i]), trace[i]) && ReplacedFirst(trace, i);
      } else {
        assert trace[..i] == trace;
      }
    }
  }

  /** Only a revocation can take a credential away, and then its replacement is there. */
  lemma RevokeAfterReplacement(w: World, cred: string, id: string, done: bool)
    requires id != cred && id in w.valid && (cred in w.holder ==> id in w.holder && w.holder[id] == w.holder[cred])
    ensures NoOutage(w, Apply(w, Revoke(cred, done, done)))
  {
    var w' := Apply(w, Revoke(cred, done, done));
    forall x | HasValid(w, x) ensures HasValid(w', x) {
      var c :| Serves(w, c, x);
      if c == cred { assert Serves(w', id, x); } else { assert Serves(w', c, x); }
    }
  }

  lemma GrowingKeeps(w: World, c: Call)
    requires !c.Revoke? && CallOk(w, c)
    ensures NoOutage(w, Apply(w, c))
  {
    var w' := Apply(w, c);
    forall x | HasValid(w, x) ensures HasValid(w', x) {
      var k :| Serves(w, k, x);
      assert Serves(w', k, x);
    }
  }

  lemma ReplacementStands(w: World, r: Call, c: Call)
    requires r.Reissue? && c.Revoke? && r.cred == c.cred && r.ok && CallOk(w, r)
    ensures NoOutage(Apply(w, r), Apply(Apply(w, r), c))
  {
    var w' := Apply(w, r);
    if r.cred in w.holder {
      RevokeAfterReplacement(w', c.cred, r.id, c.done);
    } else {
      forall x | HasValid(w', x) ensures HasValid(Apply(w', c), x) {
        var k :| Serves(w', k, x);
        assert Serves(Apply(w', c), k, x);
      }
    }
  }

  /** No call of a legal trace takes a workload's last valid credential. */
  lemma CallKeeps(w: World, trace: seq<Call>, n: nat)
    requires Legal(w, trace) && n < |trace|
    ensures NoOutage(ApplyAll(w, trace[..n]), ApplyAll(w, trace[..n + 1]))
  {
    var c := trace[n];
    var now := ApplyAll(w, trace[..n]);
    Advance(w, trace, n);
    assert CallOk(now, c) && ReplacedFirst(trace, n);
    if c.Revoke? {
      var before := ApplyAll(w, trace[..n - 1]);
      assert CallOk(before, trace[n - 1]);
      Advance(w, trace, n - 1);
      ReplacementStands(before, trace[n - 1], c);
    } else {
      GrowingKeeps(now, c);
    }
  }

  lemma Advance(w: World, trace: seq<Call>, n: nat)
    requires n < |trace|
    ensures ApplyAll(w, trace[..n + 1]) == Apply(ApplyAll(w, trace[..n]), trace[n])
  {
    assert trace[..n + 1][..n] == trace[..n];
  }

  lemma NoOutageChains(a: World, b: World, c: World)
    requires NoOutage(a, b) && NoOutage(b, c)
    ensures NoOutage(a, c)
  {
  }

  /** However calls fail, between any two points of a legal trace no workload loses its last valid credential. */
  lemma {:induction false} NeverAnOutage(w: World, trace: seq<Call>, m: nat, n: nat)
    requires Legal(w, trace) && m <= n <= |trace|
    ensures NoOutage(ApplyAll(w, trace[..m]), ApplyAll(w, trace[..n]))
    decreases n
  {
    var start, end := ApplyAll(w, trace[..m]), ApplyAll(w, trace[..n]);
    if m < n {
      var last := ApplyAll(w, trace[..n - 1]);
      assert NoOutage(start, last) by { NeverAnOutage(w, trace, m, n - 1); }
      assert NoOutage(last, end) by { CallKeeps(w, trace, n - 1); }
      NoOutageChains(start, last, end);
    }
  }

  /** All that keeps a workload served is this credential. */
  ghost predicate LastOne(w: World, cred: string, workload: string) {
    Serves(w, cred, workload) && forall c :: Serves(w, c, workload) ==> c == cred
  }

  /** The world after a credential was reissued as `id` and then revoked. */
  function Swapped(w: World, cred: string, id: string): (w': World) {
    ApplyAll(w, [Reissue(cred, true, true, id), Revoke(cred, true, true)])
  }

  lemma SwappedIs(w: World, cred: string, id: string)
    ensures Swapped(w, cred, id) ==
            World(w.valid + {id} - {cred}, if cred in w.holder then w.holder[id := w.holder[cred]] else w.holder)
  {
    var r, v := Reissue(cred, true, true, id), Revoke(cred, true, true);
    ApplySnoc(w, [], r);
    ApplySnoc(w, [r], v);
    assert [] + [r] == [r] && [r] + [v] == [r, v] && ApplyAll(w, []) == w;
  }

  /** What the answered id must not be: the last credential of the workload it is revoked for, or of any other. */
  ghost predicate SafeReplacement(w: World, cred: string, id: string) {
    cred in w.holder ==>
      if id == cred then !LastOne(w, cred, w.holder[cred])
      else forall x :: LastOne(w, id, x) ==> x == w.holder[cred]
  }

  /** Whatever id a reissue answers with, reissue and revoke leave all workloads served exactly when it is safe. */
  lemma NoOutageExactlyForSafeReplacements(w: World, cred: string, id: string)
    ensures NoOutage(w, Swapped(w, cred, id)) <==> SafeReplacement(w, cred, id)
  {
    var w' := Swapped(w, cred, id);
    SwappedIs(w, cred, id);
    if SafeReplacement(w, cred, id) {
      forall x | HasValid(w, x) ensures HasValid(w', x) { StillServed(w, cred, id, x); }
    } else if id == cred {
      assert !HasValid(w', w.holder[cred]) by {
        assert forall c :: Serves(w', c, w.holder[cred]) ==> Serves(w, c, w.holder[cred]) && c != cred;
      }
    } else {
      var x :| LastOne(w, id, x) && x != w.holder[cred];
      assert !HasValid(w', x) by {
        assert forall c :: Serves(w', c, x) ==> Serves(w, c, x) && c != id;
      }
    }
  }

  lemma StillServed(w: World, cred: string, id: string, x: string)
    requires HasValid(w, x) && SafeReplacement(w, cred, id)
    ensures HasValid(Swapped(w, cred, id), x)
  {
    var w' := Swapped(w, cred, id);
    SwappedIs(w, cred, id);
    if cred !in w.holder {
      var c :| Serves(w, c, x);
      assert Serves(w', c, x);
    } else if id != cred && x == w.holder[cred] {
      assert Serves(w', id, x);
    } else {
      assert !LastOne(w, id, x);
      var d :| Serves(w, d, x);
      assert d != id || exists c :: Serves(w, c, x) && c != id;
      var c :| Serves(w, c, x) && c != id;
      assert Serves(w', c, x);
    }
  }

  // ---------------------------------------------------------------- one target

  datatype Stage = NoError | ReissueError | RevokeError | RotateError

  datatype StepResult = StepResult(
    cred: string, reissued: string, revokeOk: bool, rotateOk: bool, err: Stage, hasValidCredential: bool)

  /** How the remediator will answer for one target. */
  datatype Answers = Answers(
    reissueOk: bool, reissueDone: bool, id: string, revokeOk: bool, revokeDone: bool, rotateOk: bool)

  function CallsFor(cred: string, a: Answers): (calls: seq<Call>)
    ensures calls != [] && forall c :: c in calls ==> c.cred == cred
  {
    [Reissue(cred, a.reissueOk, a.reissueDone, a.id)]
    + (if !a.reissueOk then []
       else [Revoke(cred, a.revokeOk, a.revokeDone)]
            + (if a.revokeOk then [Rotate(cred, a.rotateOk)] else []))
  }

  /** The calls for a target, one after another. */
  lemma CallsInOrder(before: seq<Call>, cred: string, a: Answers)
    ensures var one := before + [Reissue(cred, a.reissueOk, a.reissueDone, a.id)];
            var two := one + [Revoke(cred, a.revokeOk, a.revokeDone)];
            before + CallsFor(cred, a) ==
            if !a.reissueOk then one else if !a.revokeOk then two else two + [Rotate(cred, a.rotateOk)]
  {
  }

  function ResultFor(cred: string, a: Answers): (r: StepResult) {
    if !a.reissueOk then StepResult(cred, "", false, false, ReissueError, true)
    else if !a.revokeOk then StepResult(cred, a.id, false, false, RevokeError, true)
    else if !a.rotateOk then StepResult(cred, a.id, true, false, RotateError, true)
    else StepResult(cred, a.id, true, true, NoError, true)
  }

  predicate Succeeded(a: Answers) { a.reissueOk && a.revokeOk && a.rotateOk }

  /**
   What the result's hasValidCredential, always set, amounts to: after a target's calls its workload has a
   valid credential exactly when it had one before or a replacement was issued.
   */
  lemma ValidCredentialMeaning(w: World, cred: string, a: Answers)
    requires cred in w.holder && Legal(w, CallsFor(cred, a))
    ensures HasValid(ApplyAll(w, CallsFor(cred, a)), w.holder[cred]) <==> HasValid(w, w.holder[cred]) || a.reissueDone
  {
    var calls, x := CallsFor(cred, a), w.holder[cred];
    var r := calls[0];
    assert calls[..0] == [] && calls[..1] == [r] && ApplyAll(w, []) == w;
    assert CallOk(ApplyAll(w, calls[..0]), r);
    ApplySnoc(w, [], r);
    assert [] + [r] == [r] && calls[..|calls|] == calls;
    var w1 := Apply(w, r);
    NeverAnOutage(w, calls, 0, |calls|);
    NeverAnOutage(w, calls, 1, |calls|);
    if a.reissueDone {
      assert Serves(w1, a.id, x);
    } else {
      assert w1 == w && calls == [r];
    }
  }

  // ---------------------------------------------------------------- the whole report

  datatype Report = Report(root: string, steps: seq<StepResult>, completed: bool, recoverable: bool)

  function Calls(targets: seq<string>, answers: seq<Answers>): (calls: seq<Call>)
    requires |answers| <= |targets|
  {
    if answers == [] then []
    else
      var n := |answers| - 1;
      Calls(targets, answers[..n]) + CallsFor(targets[n], answers[n])
  }

  /** The report says of each target what happened to it, and in all whether everything worked. */
  ghost predicate ReportsOn(rep: Report, root: string, targets: seq<string>, answers: seq<Answers>) {
    && rep.root == root && |rep.steps| == |answers| <= |targets|
    && (forall i :: 0 <= i < |answers| ==> rep.steps[i] == ResultFor(targets[i], answers[i]))
    && (rep.completed <==> AllSucceeded(answers))
    && rep.recoverable
  }

  predicate AllSucceeded(answers: seq<Answers>) {
    forall i :: 0 <= i < |answers| ==> Succeeded(answers[i])
  }

  lemma Regroup(a: seq<Call>, b: seq<Call>, c: seq<Call>)
    ensures (a + b) + c == a + (b + c)
  {
  }

  /** One more target: its result is appended, and an error in it makes the report incomplete. */
  lemma ReportGrows(rep: Report, root: string, targets: seq<string>, answers: seq<Answers>, a: Answers)
    requires ReportsOn(rep, root, targets, answers) && |answers| < |targets|
    ensures var sr := ResultFor(targets[|answers|], a);
            ReportsOn(Report(root, rep.steps + [sr], rep.completed && sr.err == NoError, true), root, targets,
                      answers + [a])
    ensures Calls(targets, answers + [a]) == Calls(targets, answers) + CallsFor(targets[|answers|], a)
  {
    assert (answers + [a])[..|answers|] == answers;
    assert AllSucceeded(answers + [a]) <==> AllSucceeded(answers) && Succeeded(a) by {
      if AllSucceeded(answers + [a]) {
        forall i | 0 <= i < |answers| ensures Succeeded(answers[i]) { assert (answers + [a])[i] == answers[i]; }
        assert Succeeded((answers + [a])[|answers|]);
      }
    }
  }

  predicate EveryCallOk(calls: seq<Call>) {
    forall i :: 0 <= i < |calls| ==> calls[i].ok
  }

  /** A report is complete exactly when every call made succeeded, and then all three were made for each target. */
  lemma CompletedMeansAllDone(rep: Report, root: string, targets: seq<string>, answers: seq<Answers>)
    requires |answers| == |targets| && ReportsOn(rep, root, targets, answers)
    ensures rep.completed <==> EveryCallOk(Calls(targets, answers))
    ensures rep.completed <==> |Calls(targets, answers)| == 3 * |targets| && EveryCallOk(Calls(targets, answers))
  {
    AllOk(targets, answers);
  }

  lemma {:induction false} AllOk(targets: seq<string>, answers: seq<Answers>)
    requires |answers| <= |targets|
    ensures AllSucceeded(answers) <==> EveryCallOk(Calls(targets, answers))
    ensures AllSucceeded(answers) ==> |Calls(targets, answers)| == 3 * |answers|
  {
    if answers != [] {
      var n := |answers| - 1;
      AllOk(targets, answers[..n]);
      OneOk(targets[n], answers[n]);
      BothOk(Calls(targets, answers[..n]), CallsFor(targets[n], answers[n]));
      assert answers == answers[..n] + [answers[n]];
    }
  }

  lemma BothOk(a: seq<Call>, b: seq<Call>)
    ensures EveryCallOk(a + b) <==> EveryCallOk(a) && EveryCallOk(b)
  {
    if EveryCallOk(a + b) {
      forall i | 0 <= i < |a| ensures a[i].ok { assert (a + b)[i] == a[i]; }
      forall i | 0 <= i < |b| ensures b[i].ok { assert (a + b)[|a| + i] == b[i]; }
    }
  }

  lemma OneOk(cred: string, a: Answers)
    ensures Succeeded(a) <==> EveryCallOk(CallsFor(cred, a))
    ensures Succeeded(a) ==> |CallsFor(cred, a)| == 3
  {
    var calls := CallsFor(cred, a);
    assert calls[0].ok == a.reissueOk;
    if a.reissueOk {
      assert calls[1].ok == a.revokeOk;
      if a.revokeOk { assert calls[2].ok == a.rotateOk; }
    }
  }

  // ---------------------------------------------------------------- what a step says

  function Place(c: Call): (n: nat) {
    match c
    case Reissue(_, _, _, _) => 0
    case Revoke(_, _, _) => 1
    case Rotate(_, _) => 2
  }

  /** For each credential the calls come in order, each at most once, and none after a failed one. */
  ghost predicate InOrder(calls: seq<Call>) {
    forall i, j :: 0 <= i < j < |calls| && calls[i].cred == calls[j].cred ==>
      Place(calls[i]) < Place(calls[j]) && calls[i].ok
  }

  /** A call of that place for the credential was made, with that outcome. */
  ghost predicate Made(calls: seq<Call>, cred: string, place: nat, ok: bool) {
    exists c :: c in calls && c.cred == cred && Place(c) == place && c.ok == ok
  }

  /** Field by field a step's result says which calls were made for its credential and how they went. */
  ghost predicate Tells(r: StepResult, calls: seq<Call>) {
    && (Made(calls, r.cred, 0, true) || Made(calls, r.cred, 0, false))
    && (r.err == ReissueError <==> Made(calls, r.cred, 0, false))
    && (r.err == RevokeError <==> Made(calls, r.cred, 1, false))
    && (r.err == RotateError <==> Made(calls, r.cred, 2, false))
    && (r.revokeOk <==> Made(calls, r.cred, 1, true))
    && (r.rotateOk <==> Made(calls, r.cred, 2, true))
    && forall c :: c in calls && c.cred == r.cred && c.Reissue? ==> r.reissued == if c.ok then c.id else ""
  }

  lemma OneTells(cred: string, a: Answers)
    ensures Tells(ResultFor(cred, a), CallsFor(cred, a)) && InOrder(CallsFor(cred, a))
  {
    var calls := CallsFor(cred, a);
    assert calls[0] in calls;
    if a.reissueOk {
      assert calls[1] in calls;
      if a.revokeOk { assert calls[2] in calls; }
    }
  }

  /** The calls for a credential that is a target once are those made at its turn. */
  lemma {:induction false} CallsAtTurn(targets: seq<string>, answers: seq<Answers>, i: nat, c: Call)
    requires i < |answers| <= |targets| && Distinct(targets) && c.cred == targets[i]
    ensures c in Calls(targets, answers) <==> c in CallsFor(targets[i], answers[i])
  {
    var n := |answers| - 1;
    if i < n {
      CallsAtTurn(targets, answers[..n], i, c);
    } else if c in Calls(targets, answers[..n]) {
      CallsAreForTargets(targets, answers[..n], c);
    }
  }

  lemma {:induction false} CallsAreForTargets(targets: seq<string>, answers: seq<Answers>, c: Call)
    requires |answers| <= |targets| && c in Calls(targets, answers)
    ensures c.cred in targets[..|answers|]
  {
    var n := |answers| - 1;
    if c in CallsFor(targets[n], answers[n]) {
      assert targets[..|answers|][n] == targets[n];
    } else {
      CallsAreForTargets(targets, answers[..n], c);
      assert targets[..n] <= targets[..|answers|];
    }
  }

  /** Every step of a report says what was called for its credential in the whole remediation. */
  lemma StepsTell(rep: Report, root: string, targets: seq<string>, answers: seq<Answers>, i: nat)
    requires ReportsOn(rep, root, targets, answers) && |answers| == |targets| && Distinct(targets) && i < |targets|
    ensures rep.steps[i].cred == targets[i] && Tells(rep.steps[i], Calls(targets, answers))
  {
    OneTells(targets[i], answers[i]);
    forall c: Call | c.cred == targets[i]
      ensures c in Calls(targets, answers) <==> c in CallsFor(targets[i], answers[i])
    {
      CallsAtTurn(targets, answers, i, c);
    }
  }

  lemma {:induction false} CallsKeepOrder(targets: seq<string>, answers: seq<Answers>)
    requires |answers| <= |targets| && Distinct(targets)
    ensures InOrder(Calls(targets, answers))
  {
    if answers != [] {
      var n := |answers| - 1;
      var a, b := Calls(targets, answers[..n]), CallsFor(targets[n], answers[n]);
      CallsKeepOrder(targets, answers[..n]);
      OneTells(targets[n], answers[n]);
      forall c | c in a ensures c.cred != targets[n] { CallsAreForTargets(targets, answers[..n], c); }
      Joined(a, b, targets[n]);
    }
  }

  lemma Joined(a: seq<Call>, b: seq<Call>, cred: string)
    requires InOrder(a) && (forall c :: c in a ==> c.cred != cred)
    requires InOrder(b) && (forall c :: c in b ==> c.cred == cred)
    ensures InOrder(a + b)
  {
    var all := a + b;
    forall i, j | 0 <= i < j < |all| && all[i].cred == all[j].cred
      ensures Place(all[i]) < Place(all[j]) && all[i].ok
    {
      if i < |a| { assert a[i] in a; }
      if j >= |a| { assert b[j - |a|] in b; }
    }
  }

  // ---------------------------------------------------------------- the workflow

  /** What is to be remediated: the credential itself, then each credential downstream of it, by id. */
  ghost predicate IsPlan(g: Graph, root: string, targets: seq<string>) {
    && targets != [] && targets[0] == root && Sorted(targets[1..])
    && forall t :: t in targets[1..] <==> Downstream(g, root, t) && t in g.nodes && g.nodes[t] == Credential
  }

  /** There is one plan only, and no credential is in it twice. */
  lemma OnePlan(g: Graph, root: string, a: seq<string>, b: seq<string>)
    requires IsPlan(g, root, a) && IsPlan(g, root, b)
    ensures a == b && Distinct(a)
  {
    SortedIsUnique(a[1..], b[1..]);
    assert a == [root] + a[1..] && b == [root] + b[1..];
    SortedIsDistinct(a[1..]);
    forall j | 0 < j < |a| ensures a[0] != a[j] { assert a[1..][j - 1] in a[1..]; }
    forall i, j | 0 < i < j < |a| ensures a[i] != a[j] { assert a[i] == a[1..][i - 1] && a[j] == a[1..][j - 1]; }
  }

  /** A remediation remediates every credential of the plan once, and its report says how each one went. */
  lemma ReportTells(g: Graph, rep: Report, root: string, targets: seq<string>, answers: seq<Answers>)
    requires IsPlan(g, root, targets) && |answers| == |targets| && ReportsOn(rep, root, targets, answers)
    ensures |rep.steps| == |targets| && InOrder(Calls(targets, answers))
    ensures forall i :: 0 <= i < |targets| ==>
              rep.steps[i].cred == targets[i] && Tells(rep.steps[i], Calls(targets, answers))
  {
    OnePlan(g, root, targets, targets);
    CallsKeepOrder(targets, answers);
    forall i | 0 <= i < |targets|
      ensures rep.steps[i].cred == targets[i] && Tells(rep.steps[i], Calls(targets, answers))
    {
      StepsTell(rep, root, targets, answers, i);
    }
  }

  /** A sorted list of ids that all come before position i of another. */
  ghost predicate SortedUpTo(rest: seq<string>, ids: seq<string>, i: nat)
    requires i <= |ids|
  {
    Sorted(rest) && forall t, j :: t in rest && i <= j < |ids| ==> Before(t, ids[j])
  }

  lemma UpToNext(rest: seq<string>, ids: seq<string>, i: nat)
    requires Sorted(ids) && i < |ids| && SortedUpTo(rest, ids, i)
    ensures SortedUpTo(rest, ids, i + 1) && SortedUpTo(rest + [ids[i]], ids, i + 1)
  {
    forall k | 0 <= k < |rest| ensures Before(rest[k], ids[i]) { assert rest[k] in rest; }
    forall t, j | t in rest + [ids[i]] && i + 1 <= j < |ids| ensures Before(t, ids[j]) {
      if t !in rest { assert t == ids[i]; }
    }
  }

  datatype Outcome = Ok(value: Report) | KeyRequired

  class Workflow {
    /** What the remediator has done to the world. */
    var world: World
    var recorded: map<string, Report>
    ghost const start: World
    ghost var trace: seq<Call>

    ghost predicate Valid()
      reads this
    {
      world == ApplyAll(start, trace) && Legal(start, trace)
    }

    constructor (start: World)
      ensures Valid() && world == this.start == start && trace == [] && recorded == map[]
    {
      this.start, world, trace, recorded := start, start, [], map[];
    }

    /** Any call the remediator may make of it. */
    method Take(c: Call)
      requires Valid() && CallOk(world, c)
      requires c.Revoke? ==> JustReissued(trace, c.cred)
      modifies this`world, this`trace
      ensures Valid() && trace == old(trace) + [c]
    {
      LegalSnoc(start, trace, c);
      ApplySnoc(start, trace, c);
      world := Apply(world, c);
      trace := trace + [c];
    }

    method CallReissue(cred: string) returns (ok: bool, id: string, ghost done: bool)
      requires Valid()
      modifies this`world, this`trace
      ensures Valid() && trace == old(trace) + [Reissue(cred, ok, done, id)]
    {
      id := *;
      var effect: bool := *;
      ok := *;
      if id in world.holder || id in world.valid { effect := false; }
      ok := ok && effect;
      done := effect;
      Take(Reissue(cred, ok, effect, id));
    }

    method CallRevoke(cred: string) returns (ok: bool, ghost done: bool)
      requires Valid() && JustReissued(trace, cred)
      modifies this`world, this`trace
      ensures Valid() && trace == old(trace) + [Revoke(cred, ok, done)]
    {
      var effect: bool := *;
      ok := *;
      ok := ok && effect;
      done := effect;
      Take(Revoke(cred, ok, effect));
    }

    method CallRotate(cred: string) returns (ok: bool)
      requires Valid()
      modifies this`world, this`trace
      ensures Valid() && trace == old(trace) + [Rotate(cred, ok)]
    {
      ok := *;
      Take(Rotate(cred, ok));
    }

    method RemediateOne(cred: string) returns (sr: StepResult, ghost a: Answers)
      requires Valid()
      modifies this`world, this`trace
      ensures Valid() && trace == old(trace) + CallsFor(cred, a) && sr == ResultFor(cred, a)
    {
      sr := StepResult(cred, "", false, false, NoError, true);
      var reissueOk, id, reissueDone := CallReissue(cred);
      a := Answers(reissueOk, reissueDone, id, false, false, false);
      if !reissueOk {
        CallsInOrder(old(trace), cred, a);
        return sr.(err := ReissueError), a;
      }
      sr := sr.(reissued := id);
      var revokeOk, revokeDone := CallRevoke(cred);
      a := a.(revokeOk := revokeOk, revokeDone := revokeDone);
      if !revokeOk {
        CallsInOrder(old(trace), cred, a);
        return sr.(err := RevokeError), a;
      }
      sr := sr.(revokeOk := true);
      var rotateOk := CallRotate(cred);
      a := a.(rotateOk := rotateOk);
      CallsInOrder(old(trace), cred, a);
      if !rotateOk { return sr.(err := RotateError), a; }
      sr := sr.(rotateOk := true);
    }

    method Targets(g: Graph, root: string) returns (targets: seq<string>)
      ensures IsPlan(g, root, targets)
    {
      var affected := Reachable(g, root);
      var rest := [];
      for i := 0 to |affected|
        invariant SortedUpTo(rest, affected, i)
        invariant forall t :: t in rest <==> t in affected[..i] && t in g.nodes && g.nodes[t] == Credential
      {
        UpToNext(rest, affected, i);
        assert affected[..i + 1] == affected[..i] + [affected[i]];
        if affected[i] in g.nodes && g.nodes[affected[i]] == Credential { rest := rest + [affected[i]]; }
      }
      assert affected[..|affected|] == affected;
      targets := [root] + rest;
      assert targets[1..] == rest;
    }

    method RemediateAll(root: string, targets: seq<string>) returns (rep: Report, ghost answers: seq<Answers>)
      requires Valid()
      modifies this`world, this`trace
      ensures Valid() && |answers| == |targets| && trace == old(trace) + Calls(targets, answers)
      ensures ReportsOn(rep, root, targets, answers)
    {
      rep := Report(root, [], true, true);
      answers := [];
      for i := 0 to |targets|
        invariant Valid() && |answers| == i && trace == old(trace) + Calls(targets, answers)
        invariant ReportsOn(rep, root, targets, answers)
      {
        var sr, a := RemediateOne(targets[i]);
        ReportGrows(rep, root, targets, answers, a);
        Regroup(old(trace), Calls(targets, answers), CallsFor(targets[i], a));
        rep := rep.(steps := rep.steps + [sr]);
        if sr.err != NoError { rep := rep.(completed := false); }
        if !sr.hasValidCredential { rep := rep.(recoverable := false); }
        answers := answers + [a];
      }
    }

    /**
     Remediates once per idempotency key: a repeated key gets the recorded report, complete or not, and makes
     no further call.
     */
    method Remediate(g: Graph, root: string, key: string)
      returns (r: Outcome, ghost targets: seq<string>, ghost answers: seq<Answers>)
      requires Valid()
      modifies this
      ensures Valid()
      ensures key == "" ==> r == KeyRequired
      ensures key == "" || key in old(recorded) ==>
                trace == old(trace) && world == old(world) && recorded == old(recorded)
      ensures key != "" ==> key in recorded && r == Ok(recorded[key])
      ensures key != "" ==> recorded == old(recorded)[key := recorded[key]]
      ensures key in old(recorded) ==> recorded[key] == old(recorded)[key]
      ensures key != "" && key !in old(recorded) ==>
                IsPlan(g, root, targets) && |answers| == |targets| && ReportsOn(r.value, root, targets, answers)
                && trace == old(trace) + Calls(targets, answers)
      ensures NoOutage(old(world), world)
    {
      targets, answers := [], [];
      if key == "" { return KeyRequired, targets, answers; }
      if key in recorded { return Ok(recorded[key]), targets, answers; }
      var plan := Targets(g, root);
      targets := plan;
      var rep;
      rep, answers := RemediateAll(root, plan);
      recorded := recorded[key := rep];
      assert trace[..|trace|] == trace && trace[..|old(trace)|] == old(trace);
      NeverAnOutage(start, trace, |old(trace)|, |trace|);
      r := Ok(rep);
    }
  }
}
