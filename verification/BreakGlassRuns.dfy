/** What holds of grants over whole runs of break-glass calls: their states and their use counts. */
module BreakGlassRuns {
  import opened Text
  import opened BreakGlass

  // ---------------------------------------------------------------- what a snapshot rests on

  predicate Story(max: int, log: seq<Entry>, i: nat, j: nat, l: nat, k: nat) {
    && i < j < l < k < |log| && log[i].Requested? && log[j].Decided? && log[l].Accessed? && log[k].Snapshot?
    && log[i].id == log[j].id == log[l].id == log[k].id
    && log[i].operator == log[l].operator == log[k].operator
    && log[i].tenant == log[j].tenant == log[k].tenant && log[j].approve
    && log[l].at == log[k].audited < log[i].expiresAt <= log[i].at + max
  }

  lemma ApprovalStory(max: int, log: seq<Entry>, g: Grant) returns (i: nat, j: nat)
    requires Approved(max, log, g)
    ensures i < j < |log| && Approves(log[j], g)
    ensures log[i] == Requested(g.id, g.tenant, g.operator, g.requestedAt, g.expiresAt)
    ensures g.expiresAt <= g.requestedAt + max
  {
    j :| j < |log| && Approves(log[j], g) && Asked(max, log[..j], g);
    i :| i < j && log[..j][i] == Requested(g.id, g.tenant, g.operator, g.requestedAt, g.expiresAt);
  }

  lemma AccessStory(max: int, log: seq<Entry>, g: Grant, at: nat) returns (i: nat, j: nat, l: nat)
    requires Audited(max, log, g, at)
    ensures i < j < l < |log| && Approves(log[j], g) && log[l] == Accessed(g.id, g.operator, at)
    ensures log[i] == Requested(g.id, g.tenant, g.operator, g.requestedAt, g.expiresAt)
    ensures at < g.expiresAt <= g.requestedAt + max
  {
    l :| l < |log| && log[l] == Accessed(g.id, g.operator, at) && Approved(max, log[..l], g);
    i, j := ApprovalStory(max, log[..l], g);
  }

  /**
   In every run each snapshot was preceded by its operator's own request, the approval of the tenant it shows
   and an audited access of that operator, in that order, audited before an expiry within the maximum.
   */
  lemma EverySnapshotHasItsStory(max: int, now: nat, steps: seq<Step>, k: nat)
    requires now > 0 && k < |Run(max, now, steps).log| && Run(max, now, steps).log[k].Snapshot?
    ensures exists i: nat, j: nat, l: nat :: Story(max, Run(max, now, steps).log, i, j, l, k)
  {
    var log := Run(max, now, steps).log;
    assert Justified(max, log[..k], log[k]) by { RunKeepsInv(max, now, steps); }
    var g: Grant :| g.id == log[k].id && g.tenant == log[k].tenant && g.operator == log[k].operator
                    && Audited(max, log[..k], g, log[k].audited);
    var i, j, l := AccessStory(max, log[..k], g, log[k].audited);
    assert Story(max, log, i, j, l, k);
  }

  // ---------------------------------------------------------------- states

  /** Pending may become anything but revoked, active may expire, and everything else is final. */
  predicate Allowed(a: GrantState, b: GrantState) {
    a == b || (a == Pending && b != Revoked) || (a == Active && b == Expired)
  }

  /**
   A consent or refusal written over an outcome it contradicts: an approval over a denied grant, or a
   refusal over one that is active or has expired.
   */
  predicate Contradicts(w: World, s: Step) {
    s.ConsentWrite? && CanWrite(w, s) &&
    var c := w.consents[s.call];
    var state := StateAt(w.grants[c.grant.id], w.now);
    if c.approve then state == Denied else state == Active || state == Expired
  }

  ghost predicate Moves(w: World, w': World) {
    forall id :: id in w.grants ==>
      id in w'.grants && Allowed(StateAt(w.grants[id], w.now), StateAt(w'.grants[id], w'.now))
  }

  /** What writing a decision over a stored grant does to its state. */
  lemma WrittenState(g: Grant, c: Consent, seen: nat, at: nat, now: nat)
    requires SameTerms(g, c.grant) && g.revokedAt == 0 && c.grant.revokedAt == 0 && g.expiresAt > 0
    requires StateAt(c.grant, seen) == Pending && 0 < at
    ensures Allowed(StateAt(g, now), StateAt(Written(c, at), now)) <==>
            !(if c.approve then StateAt(g, now) == Denied else StateAt(g, now) == Active || StateAt(g, now) == Expired)
  {
  }

  lemma WriteMoves(max: int, w: World, s: Step)
    requires Inv(max, w) && s.ConsentWrite? && CanWrite(w, s)
    ensures Moves(w, Do(max, w, s)) <==> !Contradicts(w, s)
  {
    var c := w.consents[s.call];
    var id := c.grant.id;
    var w' := Do(max, w, s);
    assert GrantOk(max, w.log, w.grants[id]) && GrantOk(max, w.log, c.grant);
    assert w'.grants == w.grants[id := Written(c, s.at)] && w'.now == w.now;
    WrittenState(w.grants[id], c, s.seen, s.at, w.now);
    assert Allowed(StateAt(w.grants[id], w.now), StateAt(w'.grants[id], w'.now)) <==> !Contradicts(w, s);
  }

  lemma TickMoves(max: int, w: World, s: Step)
    requires s.Tick?
    ensures Moves(w, Do(max, w, s))
  {
  }

  lemma RequestMoves(max: int, w: World, s: Step)
    requires NamesOk(w) && s.Request?
    ensures Moves(w, Do(max, w, s))
  {
    NewIdIsFree(w);
  }

  /** Other operations leave the stored grants' states alone. */
  lemma OtherMoves(max: int, w: World, s: Step)
    requires NamesOk(w) && !s.Tick? && (s.ConsentWrite? ==> !CanWrite(w, s))
    ensures Moves(w, Do(max, w, s))
  {
    if s.Request? { RequestMoves(max, w, s); }
  }

  /** A step moves every grant's state as allowed exactly when it is no contradicting write. */
  lemma StepMoves(max: int, w: World, s: Step)
    requires Inv(max, w) && NamesOk(w)
    ensures Moves(w, Do(max, w, s)) <==> !Contradicts(w, s)
  {
    if s.ConsentWrite? && CanWrite(w, s) {
      WriteMoves(max, w, s);
    } else if s.Tick? {
      TickMoves(max, w, s);
    } else {
      OtherMoves(max, w, s);
    }
  }

  lemma MovesOn(a: World, b: World, c: World)
    requires Moves(a, b) && Moves(b, c)
    ensures Moves(a, c)
  {
  }

  ghost predicate SomeContradiction(max: int, now: nat, steps: seq<Step>, m: nat) {
    exists n: nat :: m <= n < |steps| && Contradicts(Run(max, now, steps[..n]), steps[n])
  }

  lemma LastMoves(max: int, now: nat, steps: seq<Step>)
    requires now > 0 && steps != [] && !Contradicts(Run(max, now, steps[..|steps| - 1]), steps[|steps| - 1])
    ensures Moves(Run(max, now, steps[..|steps| - 1]), Run(max, now, steps))
  {
    RunKeepsInv(max, now, steps[..|steps| - 1]);
    StepMoves(max, Run(max, now, steps[..|steps| - 1]), steps[|steps| - 1]);
  }

  lemma NoContradictionBefore(max: int, now: nat, steps: seq<Step>, m: nat, k: nat)
    requires !SomeContradiction(max, now, steps, m) && k <= |steps|
    ensures !SomeContradiction(max, now, steps[..k], m)
  {
    forall n: nat | m <= n < k ensures !Contradicts(Run(max, now, steps[..k][..n]), steps[..k][n]) {
      assert steps[..k][..n] == steps[..n];
    }
  }

  /** From any point of a run on, if no write contradicts, every grant's state only moves as allowed. */
  lemma {:induction false} StatesMoveOnward(max: int, now: nat, steps: seq<Step>, m: nat)
    requires now > 0 && m <= |steps| && !SomeContradiction(max, now, steps, m)
    ensures Moves(Run(max, now, steps[..m]), Run(max, now, steps))
    decreases |steps|
  {
    if m == |steps| {
      assert steps[..m] == steps;
    } else {
      var k := |steps| - 1;
      NoContradictionBefore(max, now, steps, m, k);
      StatesMoveOnward(max, now, steps[..k], m);
      assert steps[..k][..m] == steps[..m];
      LastMoves(max, now, steps);
      MovesOn(Run(max, now, steps[..m]), Run(max, now, steps[..k]), Run(max, now, steps));
    }
  }

  // ---------------------------------------------------------------- use counts

  /** How many snapshots a grant has given. */
  function Snapshots(log: seq<Entry>, id: Text): (n: nat) {
    if log == [] then 0
    else Snapshots(log[..|log| - 1], id) + (if log[|log| - 1].Snapshot? && log[|log| - 1].id == id then 1 else 0)
  }

  /** A consent written back after the grant has been used. */
  predicate Late(w: World, s: Step) {
    s.ConsentWrite? && CanWrite(w, s) && Snapshots(w.log, w.consents[s.call].grant.id) > 0
  }

  ghost predicate CountsExact(grants: map<Text, Grant>, log: seq<Entry>) {
    forall id :: id in grants ==> grants[id].useCount == Snapshots(log, id)
  }

  ghost predicate CountsAtMost(grants: map<Text, Grant>, log: seq<Entry>) {
    forall id :: id in grants ==> grants[id].useCount <= Snapshots(log, id)
  }

  ghost predicate Exact(w: World) { CountsExact(w.grants, w.log) }

  ghost predicate AtMost(w: World) { CountsAtMost(w.grants, w.log) }

  lemma SnapshotsSnoc(log: seq<Entry>, e: Entry, id: Text)
    ensures Snapshots(log + [e], id) == Snapshots(log, id) + (if e.Snapshot? && e.id == id then 1 else 0)
  {
    assert (log + [e])[..|log|] == log;
  }

  lemma {:induction false} NoSnapshotsUnlogged(log: seq<Entry>, id: Text)
    requires forall e :: e in log ==> e.id != id
    ensures Snapshots(log, id) == 0
  {
    if log != [] {
      assert log[|log| - 1] in log;
      NoSnapshotsUnlogged(log[..|log| - 1], id);
    }
  }

  /** Writing back a grant with no uses keeps the counts exact only if it had none. */
  lemma ResetCount(grants: map<Text, Grant>, log: seq<Entry>, e: Entry, at: Text, g: Grant)
    requires at in grants && CountsAtMost(grants, log) && !e.Snapshot? && g.useCount == 0
    ensures CountsAtMost(grants[at := g], log + [e])
    ensures CountsExact(grants[at := g], log + [e]) <==> CountsExact(grants, log) && Snapshots(log, at) == 0
  {
    var grants' := grants[at := g];
    forall id ensures Snapshots(log + [e], id) == Snapshots(log, id) { SnapshotsSnoc(log, e, id); }
    if CountsExact(grants', log + [e]) {
      assert grants'[at].useCount == Snapshots(log + [e], at);
      forall id | id in grants ensures grants[id].useCount == Snapshots(log, id) {
        assert id in grants';
      }
    }
  }

  /** Counting a snapshot as it is returned changes nothing. */
  lemma BumpCount(grants: map<Text, Grant>, log: seq<Entry>, e: Entry, g: Grant)
    requires e.Snapshot? && e.id in grants && g.useCount == grants[e.id].useCount + 1
    requires CountsAtMost(grants, log)
    ensures CountsAtMost(grants[e.id := g], log + [e])
    ensures CountsExact(grants[e.id := g], log + [e]) <==> CountsExact(grants, log)
  {
    var grants' := grants[e.id := g];
    forall id ensures Snapshots(log + [e], id) == Snapshots(log, id) + (if id == e.id then 1 else 0) {
      SnapshotsSnoc(log, e, id);
    }
    if CountsExact(grants', log + [e]) {
      forall id | id in grants ensures grants[id].useCount == Snapshots(log, id) {
        assert id in grants';
      }
    }
  }

  lemma WriteCounts(max: int, w: World, s: Step)
    requires Inv(max, w) && AtMost(w) && s.ConsentWrite? && CanWrite(w, s)
    ensures AtMost(Do(max, w, s))
    ensures Exact(Do(max, w, s)) <==> Exact(w) && !Late(w, s)
  {
    var c := w.consents[s.call];
    assert GrantOk(max, w.log, c.grant);
    var e := Decided(c.grant.id, c.tenant, c.subject, c.approve, s.at);
    ResetCount(w.grants, w.log, e, c.grant.id, Written(c, s.at));
  }

  lemma EndCounts(max: int, w: World, s: Step)
    requires AtMost(w) && s.AccessEnd? && CanEnd(w, s) && s.readOk
    ensures AtMost(Do(max, w, s)) && (Exact(w) <==> Exact(Do(max, w, s)))
  {
    var a := w.accesses[s.call];
    var e := Snapshot(a.grant.id, a.grant.tenant, a.operator, a.at, w.now);
    var g := w.grants[a.grant.id];
    BumpCount(w.grants, w.log, e, g.(useCount := g.useCount + 1));
  }

  lemma RequestCounts(max: int, w: World, s: Step)
    requires NamesOk(w) && AtMost(w) && s.Request? && CanAsk(max, w, s)
    ensures AtMost(Do(max, w, s)) && (Exact(w) <==> Exact(Do(max, w, s)))
  {
    NewIdIsFree(w);
    var added := GrantId(w.nextGrant + 1);
    var w' := Do(max, w, s);
    var e := w'.log[|w.log|];
    assert w'.log == w.log + [e];
    forall id ensures Snapshots(w'.log, id) == Snapshots(w.log, id) { SnapshotsSnoc(w.log, e, id); }
    NoSnapshotsUnlogged(w.log, added);
    if !Exact(w) {
      var id :| id in w.grants && w.grants[id].useCount != Snapshots(w.log, id);
      assert w'.grants[id].useCount != Snapshots(w'.log, id);
    }
  }

  lemma OtherCounts(max: int, w: World, s: Step)
    requires AtMost(w) && !(s.Request? && CanAsk(max, w, s)) && !(s.ConsentWrite? && CanWrite(w, s))
    requires !(s.AccessEnd? && CanEnd(w, s) && s.readOk)
    ensures AtMost(Do(max, w, s)) && (Exact(w) <==> Exact(Do(max, w, s)))
  {
    OthersOnlyAudit(max, w, s);
    var log := Do(max, w, s).log;
    if log != w.log {
      forall id ensures Snapshots(log, id) == Snapshots(w.log, id) { SnapshotsSnoc(w.log, log[|w.log|], id); }
    }
  }

  /** Counts stay exact through a step exactly when it is no late consent, and a count once lost stays lost. */
  lemma StepCounts(max: int, w: World, s: Step)
    requires Inv(max, w) && NamesOk(w) && AtMost(w)
    ensures AtMost(Do(max, w, s))
    ensures Exact(Do(max, w, s)) <==> Exact(w) && !Late(w, s)
  {
    if s.ConsentWrite? && CanWrite(w, s) {
      WriteCounts(max, w, s);
    } else if s.AccessEnd? && CanEnd(w, s) && s.readOk {
      EndCounts(max, w, s);
    } else if s.Request? && CanAsk(max, w, s) {
      RequestCounts(max, w, s);
    } else {
      OtherCounts(max, w, s);
    }
  }

  predicate LateAt(max: int, now: nat, steps: seq<Step>, n: nat) {
    n < |steps| && Late(Run(max, now, steps[..n]), steps[n])
  }

  ghost predicate SomeLateConsent(max: int, now: nat, steps: seq<Step>) {
    exists n: nat :: LateAt(max, now, steps, n)
  }

  /** At the end of a run every grant's count is the number of snapshots returned, exactly when no consent was late. */
  lemma {:induction false} CountsExactUnlessLate(max: int, now: nat, steps: seq<Step>)
    requires now > 0
    ensures AtMost(Run(max, now, steps))
    ensures Exact(Run(max, now, steps)) <==> !SomeLateConsent(max, now, steps)
  {
    if steps != [] {
      var k := |steps| - 1;
      var before := steps[..k];
      CountsExactUnlessLate(max, now, before);
      RunKeepsInv(max, now, before);
      StepCounts(max, Run(max, now, before), steps[k]);
      LateSnoc(max, now, steps);
    }
  }

  lemma LateAtPrefix(max: int, now: nat, steps: seq<Step>, k: nat, n: nat)
    requires n < k <= |steps|
    ensures LateAt(max, now, steps[..k], n) == LateAt(max, now, steps, n)
  {
    assert steps[..k][..n] == steps[..n];
  }

  lemma LateSnoc(max: int, now: nat, steps: seq<Step>)
    requires steps != []
    ensures var k := |steps| - 1;
            SomeLateConsent(max, now, steps) <==> SomeLateConsent(max, now, steps[..k]) || LateAt(max, now, steps, k)
  {
    var k := |steps| - 1;
    forall n: nat | n < k ensures LateAt(max, now, steps[..k], n) == LateAt(max, now, steps, n) {
      LateAtPrefix(max, now, steps, k, n);
    }
  }

  /**
   A decision with nothing between its read and its write is never late, and contradicts the outcome exactly when
   it is a refusal and the expiry has come between its clock readings.
   */
  lemma UndisturbedDecision(max: int, w: World, s: Step)
    requires Inv(max, w) && Exact(w) && s.ConsentWrite? && CanWrite(w, s)
    requires w.grants[w.consents[s.call].grant.id] == w.consents[s.call].grant
    ensures !Late(w, s)
    ensures Contradicts(w, s) <==> !w.consents[s.call].approve && w.now >= w.consents[s.call].grant.expiresAt
  {
    var c := w.consents[s.call];
    assert GrantOk(max, w.log, c.grant);
    assert w.grants[c.grant.id].useCount == Snapshots(w.log, c.grant.id);
  }

  // ---------------------------------------------------------------- snapshots and the expiry

  /** The entry is no snapshot, or one returned before its grant expired. */
  ghost predicate InTime(log: seq<Entry>, e: Entry) {
    e.Snapshot? ==> forall r :: r in log && r.Requested? && r.id == e.id ==> e.at < r.expiresAt
  }

  ghost predicate AllInTime(log: seq<Entry>) {
    forall e :: e in log ==> InTime(log, e)
  }

  /** Requests in the log are on the grants' terms. */
  ghost predicate OnTerms(log: seq<Entry>, grants: map<Text, Grant>) {
    forall e :: e in log && e.Requested? ==> e.id in grants && grants[e.id].expiresAt == e.expiresAt
  }

  ghost predicate RequestsMatch(w: World) { OnTerms(w.log, w.grants) }

  /** A snapshot returned when the clock has reached the expiry: the access was audited in time, the end came after. */
  predicate Overdue(w: World, s: Step) {
    s.AccessEnd? && CanEnd(w, s) && s.readOk && w.now >= w.accesses[s.call].grant.expiresAt
  }

  lemma OnTermsGrows(log: seq<Entry>, grants: map<Text, Grant>, e: Entry, id: Text, g: Grant)
    requires OnTerms(log, grants) && (id in grants ==> g.expiresAt == grants[id].expiresAt)
    requires e.Requested? ==> e.id == id && e.expiresAt == g.expiresAt
    ensures OnTerms(log + [e], grants[id := g])
  {
    var log', grants' := log + [e], grants[id := g];
    forall x | x in log' && x.Requested? ensures x.id in grants' && grants'[x.id].expiresAt == x.expiresAt {
      assert x in log || x == e;
    }
  }

  lemma RequestKeepsRequests(max: int, w: World, s: Step)
    requires NamesOk(w) && RequestsMatch(w) && s.Request? && CanAsk(max, w, s)
    ensures RequestsMatch(Do(max, w, s))
  {
    NewIdIsFree(w);
    var g := NewGrant(GrantId(w.nextGrant + 1), s);
    OnTermsGrows(w.log, w.grants, Requested(g.id, s.tenant, s.actor.id, g.requestedAt, g.expiresAt), g.id, g);
  }

  lemma WriteKeepsRequests(max: int, w: World, s: Step)
    requires Inv(max, w) && RequestsMatch(w) && s.ConsentWrite? && CanWrite(w, s)
    ensures RequestsMatch(Do(max, w, s))
  {
    var c := w.consents[s.call];
    assert Held(w.grants, c.grant);
    OnTermsGrows(w.log, w.grants, Decided(c.grant.id, c.tenant, c.subject, c.approve, s.at), c.grant.id,
                 Written(c, s.at));
  }

  lemma EndKeepsRequests(max: int, w: World, s: Step)
    requires RequestsMatch(w) && s.AccessEnd? && CanEnd(w, s) && s.readOk
    ensures RequestsMatch(Do(max, w, s))
  {
    var a := w.accesses[s.call];
    var g := w.grants[a.grant.id];
    OnTermsGrows(w.log, w.grants, Snapshot(a.grant.id, a.grant.tenant, a.operator, a.at, w.now), a.grant.id,
                 g.(useCount := g.useCount + 1));
  }

  lemma OthersKeepRequests(max: int, w: World, s: Step)
    requires RequestsMatch(w)
    requires !(s.Request? && CanAsk(max, w, s)) && !(s.ConsentWrite? && CanWrite(w, s))
    requires !(s.AccessEnd? && CanEnd(w, s) && s.readOk)
    ensures RequestsMatch(Do(max, w, s))
  {
    OthersOnlyAudit(max, w, s);
    var log' := Do(max, w, s).log;
    forall e | e in log' && e.Requested? ensures e in w.log {}
  }

  lemma StepKeepsRequests(max: int, w: World, s: Step)
    requires Inv(max, w) && NamesOk(w) && RequestsMatch(w)
    ensures RequestsMatch(Do(max, w, s))
  {
    if s.ConsentWrite? && CanWrite(w, s) {
      WriteKeepsRequests(max, w, s);
    } else if s.AccessEnd? && CanEnd(w, s) && s.readOk {
      EndKeepsRequests(max, w, s);
    } else if s.Request? && CanAsk(max, w, s) {
      RequestKeepsRequests(max, w, s);
    } else {
      OthersKeepRequests(max, w, s);
    }
  }

  lemma {:induction false} RunKeepsRequests(max: int, now: nat, steps: seq<Step>)
    requires now > 0
    ensures RequestsMatch(Run(max, now, steps))
  {
    if steps != [] {
      var before := steps[..|steps| - 1];
      RunKeepsRequests(max, now, before);
      RunKeepsInv(max, now, before);
      StepKeepsRequests(max, Run(max, now, before), steps[|steps| - 1]);
    }
  }

  /** An entry that is neither a snapshot nor a request for a known grant changes nothing. */
  lemma InTimeSnoc(log: seq<Entry>, e: Entry)
    requires e.Requested? ==> forall x :: x in log ==> x.id != e.id
    ensures AllInTime(log + [e]) <==> AllInTime(log) && InTime(log, e)
  {
    var log' := log + [e];
    assert forall x :: x in log' <==> x in log || x == e;
    if AllInTime(log') {
      forall x | x in log ensures InTime(log, x) { assert InTime(log', x); }
      assert InTime(log', e);
    }
    if AllInTime(log) && InTime(log, e) {
      forall x | x in log' ensures InTime(log', x) {
        if x in log { assert InTime(log, x); }
      }
    }
  }

  lemma EndInTime(max: int, w: World, s: Step)
    requires Inv(max, w) && RequestsMatch(w) && s.AccessEnd? && CanEnd(w, s) && s.readOk
    ensures var a := w.accesses[s.call];
            InTime(w.log, Snapshot(a.grant.id, a.grant.tenant, a.operator, a.at, w.now)) <==> !Overdue(w, s)
  {
    var a := w.accesses[s.call];
    var g := a.grant;
    assert AccessOk(max, w.log, w.grants, a);
    var r := Requested(g.id, g.tenant, g.operator, g.requestedAt, g.expiresAt);
    assert r in w.log && w.grants[g.id].expiresAt == g.expiresAt;
  }

  lemma StepEndInTime(max: int, w: World, s: Step)
    requires Inv(max, w) && RequestsMatch(w) && s.AccessEnd? && CanEnd(w, s) && s.readOk
    ensures AllInTime(Do(max, w, s).log) <==> AllInTime(w.log) && !Overdue(w, s)
  {
    EndInTime(max, w, s);
    var a := w.accesses[s.call];
    InTimeSnoc(w.log, Snapshot(a.grant.id, a.grant.tenant, a.operator, a.at, w.now));
  }

  lemma StepWriteInTime(max: int, w: World, s: Step)
    requires s.ConsentWrite? && CanWrite(w, s)
    ensures AllInTime(Do(max, w, s).log) <==> AllInTime(w.log)
  {
    var c := w.consents[s.call];
    InTimeSnoc(w.log, Decided(c.grant.id, c.tenant, c.subject, c.approve, s.at));
  }

  lemma RequestInTime(max: int, w: World, s: Step)
    requires NamesOk(w) && s.Request? && CanAsk(max, w, s)
    ensures AllInTime(Do(max, w, s).log) <==> AllInTime(w.log)
  {
    NewIdIsFree(w);
    var g := NewGrant(GrantId(w.nextGrant + 1), s);
    InTimeSnoc(w.log, Requested(g.id, s.tenant, s.actor.id, g.requestedAt, g.expiresAt));
  }

  lemma OthersInTime(max: int, w: World, s: Step)
    requires !(s.Request? && CanAsk(max, w, s)) && !(s.ConsentWrite? && CanWrite(w, s))
    requires !(s.AccessEnd? && CanEnd(w, s) && s.readOk)
    ensures AllInTime(Do(max, w, s).log) <==> AllInTime(w.log)
  {
    OthersOnlyAudit(max, w, s);
    var log := Do(max, w, s).log;
    if log != w.log { InTimeSnoc(w.log, log[|w.log|]); }
  }

  /** A step keeps every snapshot in time exactly when it returns none overdue. */
  lemma StepInTime(max: int, w: World, s: Step)
    requires Inv(max, w) && NamesOk(w) && RequestsMatch(w)
    ensures AllInTime(Do(max, w, s).log) <==> AllInTime(w.log) && !Overdue(w, s)
  {
    if s.AccessEnd? && CanEnd(w, s) && s.readOk {
      StepEndInTime(max, w, s);
    } else if s.ConsentWrite? && CanWrite(w, s) {
      StepWriteInTime(max, w, s);
    } else if s.Request? && CanAsk(max, w, s) {
      RequestInTime(max, w, s);
    } else {
      OthersInTime(max, w, s);
    }
  }

  predicate OverdueAt(max: int, now: nat, steps: seq<Step>, n: nat) {
    n < |steps| && Overdue(Run(max, now, steps[..n]), steps[n])
  }

  ghost predicate SomeOverdue(max: int, now: nat, steps: seq<Step>) {
    exists n: nat :: OverdueAt(max, now, steps, n)
  }

  lemma OverdueAtPrefix(max: int, now: nat, steps: seq<Step>, k: nat, n: nat)
    requires n < k <= |steps|
    ensures OverdueAt(max, now, steps[..k], n) == OverdueAt(max, now, steps, n)
  {
    assert steps[..k][..n] == steps[..n];
  }

  lemma OverdueSnoc(max: int, now: nat, steps: seq<Step>)
    requires steps != []
    ensures var k := |steps| - 1;
            SomeOverdue(max, now, steps) <==> SomeOverdue(max, now, steps[..k]) || OverdueAt(max, now, steps, k)
  {
    var k := |steps| - 1;
    forall n: nat | n < k ensures OverdueAt(max, now, steps[..k], n) == OverdueAt(max, now, steps, n) {
      OverdueAtPrefix(max, now, steps, k, n);
    }
  }

  /** Every snapshot of a run was returned before its grant expired, exactly when no call ended after it. */
  lemma {:induction false} SnapshotsInTimeUnlessOverdue(max: int, now: nat, steps: seq<Step>)
    requires now > 0
    ensures AllInTime(Run(max, now, steps).log) <==> !SomeOverdue(max, now, steps)
  {
    if steps != [] {
      var k := |steps| - 1;
      SnapshotsInTimeUnlessOverdue(max, now, steps[..k]);
      RunKeepsInv(max, now, steps[..k]);
      RunKeepsRequests(max, now, steps[..k]);
      StepInTime(max, Run(max, now, steps[..k]), steps[k]);
      OverdueSnoc(max, now, steps);
    }
  }

  // ---------------------------------------------------------------- two consents at once

  const OPERATOR := Operator("op", "operator", true)

  const REQUEST := Request(Full, OPERATOR, "t", [65], 0, 1)

  const EXPIRY: nat := 1 + DEFAULT_TTL

  lemma OneMore(max: int, now: nat, steps: seq<Step>, s: Step)
    ensures Run(max, now, steps + [s]) == Do(max, Run(max, now, steps), s)
  {
    assert (steps + [s])[..|steps|] == steps;
  }

  /** A run that requests a grant. */
  lemma RequestedGrant() returns (steps: seq<Step>, g: Grant)
    ensures steps == [AddTenant("t"), REQUEST] && g.expiresAt == EXPIRY
    ensures g.id == GrantId(1) && g.tenant == "t" && g.operator == "op" && g.expiresAt > 1 && Unsettled(g)
    ensures g.revokedAt == 0 && g.useCount == 0
    ensures var w := Run(DEFAULT_MAX_TTL, 1, steps);
            && w.now == 1 && w.grants == map[g.id := g] && w.accesses == map[] && w.consents == map[]
  {
    assert TrimSpace([65]) == [65];
    g := NewGrant(GrantId(1), REQUEST);
    OneMore(DEFAULT_MAX_TTL, 1, [], AddTenant("t"));
    OneMore(DEFAULT_MAX_TTL, 1, [AddTenant("t")], REQUEST);
    steps := [AddTenant("t")] + [REQUEST];
  }

  /** A run with both an approval and a refusal of the grant under way. */
  lemma TwoDecisions() returns (steps: seq<Step>, g: Grant)
    ensures g.id == GrantId(1) && g.tenant == "t" && g.operator == "op" && g.expiresAt > 1 && Unsettled(g)
    ensures g.revokedAt == 0 && g.useCount == 0
    ensures var w := Run(DEFAULT_MAX_TTL, 1, steps);
            && w.now == 1 && w.grants == map[g.id := g] && w.accesses == map[]
            && w.consents == map[0 := Consent(g, "t", 1, "a", true), 1 := Consent(g, "t", 1, "b", false)]
  {
    steps, g := RequestedGrant();
    var yes := ConsentRead(0, Full, "t", g.id, "a", true);
    var no := ConsentRead(1, Full, "t", g.id, "b", false);
    OneMore(DEFAULT_MAX_TTL, 1, steps, yes);
    OneMore(DEFAULT_MAX_TTL, 1, steps + [yes], no);
    steps := steps + [yes] + [no];
  }

  /** The approval lands, the refusal still under way. */
  lemma ApprovedFirst() returns (steps: seq<Step>, g: Grant)
    ensures g.id == GrantId(1) && g.tenant == "t" && g.operator == "op" && g.expiresAt > 1 && Unsettled(g)
    ensures g.revokedAt == 0 && g.useCount == 0
    ensures var w := Run(DEFAULT_MAX_TTL, 1, steps);
            && w.now == 1 && w.grants == map[g.id := g.(consentedAt := 1, consentedBy := "a")]
            && w.accesses == map[] && w.consents == map[1 := Consent(g, "t", 1, "b", false)]
  {
    steps, g := TwoDecisions();
    OneMore(DEFAULT_MAX_TTL, 1, steps, ConsentWrite(0, 1, 1));
    steps := steps + [ConsentWrite(0, 1, 1)];
  }

  /** An operator's use of an active grant, with nothing in between. */
  lemma OneUse(max: int, w: World, id: Text)
    requires w.now > 0 && id in w.grants && w.grants[id].id == id && w.grants[id].operator == "op"
    requires StateAt(w.grants[id], w.now) == Active && 2 !in w.accesses
    ensures var w1 := Do(max, w, AccessRead(2, Full, OPERATOR, id));
            var w2 := Do(max, w1, AccessAudit(2, w.now, true));
            var w3 := Do(max, w2, AccessEnd(2, true));
            && w3.now == w.now && w3.consents == w.consents && Snapshots(w3.log, id) > 0
            && id in w3.grants && StateAt(w3.grants[id], w.now) == Active
  {
    var w1 := Do(max, w, AccessRead(2, Full, OPERATOR, id));
    var w2 := Do(max, w1, AccessAudit(2, w.now, true));
    assert w2.accesses[2].grant == w.grants[id] && w2.accesses[2].at == w.now && w2.grants == w.grants;
    SnapshotsSnoc(w2.log, Snapshot(id, w.grants[id].tenant, "op", w.now, w.now), id);
  }

  /** Then the grant is used. */
  lemma UsedMeanwhile() returns (steps: seq<Step>, g: Grant)
    ensures g.id == GrantId(1) && g.expiresAt > 1 && Unsettled(g) && g.revokedAt == 0 && g.useCount == 0
    ensures var w := Run(DEFAULT_MAX_TTL, 1, steps);
            && w.now == 1 && g.id in w.grants && StateAt(w.grants[g.id], 1) == Active
            && 1 in w.consents && w.consents[1] == Consent(g, "t", 1, "b", false)
            && Snapshots(w.log, g.id) > 0
  {
    steps, g := ApprovedFirst();
    OneUse(DEFAULT_MAX_TTL, Run(DEFAULT_MAX_TTL, 1, steps), g.id);
    OneMore(DEFAULT_MAX_TTL, 1, steps, AccessRead(2, Full, OPERATOR, g.id));
    steps := steps + [AccessRead(2, Full, OPERATOR, g.id)];
    OneMore(DEFAULT_MAX_TTL, 1, steps, AccessAudit(2, 1, true));
    steps := steps + [AccessAudit(2, 1, true)];
    OneMore(DEFAULT_MAX_TTL, 1, steps, AccessEnd(2, true));
    steps := steps + [AccessEnd(2, true)];
  }

  /** Two decisions made at once can deny a grant after it was active and used, and lose its count. */
  lemma OverlappingDecisions()
    ensures exists steps: seq<Step> ::
              && SomeContradiction(DEFAULT_MAX_TTL, 1, steps, 0)
              && !Exact(Run(DEFAULT_MAX_TTL, 1, steps))
  {
    var before, g := UsedMeanwhile();
    var no := ConsentWrite(1, 1, 1);
    var w := Run(DEFAULT_MAX_TTL, 1, before);
    assert CanWrite(w, no) && Contradicts(w, no) && Late(w, no);
    LastOne(DEFAULT_MAX_TTL, 1, before, no);
    CountsExactUnlessLate(DEFAULT_MAX_TTL, 1, before + [no]);
  }

  lemma LastOne(max: int, now: nat, before: seq<Step>, s: Step)
    ensures Contradicts(Run(max, now, before), s) ==> SomeContradiction(max, now, before + [s], 0)
    ensures Late(Run(max, now, before), s) ==> SomeLateConsent(max, now, before + [s])
  {
    var steps := before + [s];
    assert steps[..|before|] == before && steps[|before|] == s;
    if Late(Run(max, now, before), s) { assert LateAt(max, now, steps, |before|); }
  }

  // ---------------------------------------------------------------- the clock between two operations

  /** One refusal of a requested grant, with the clock reaching the expiry between its read and its write. */
  function UnderWay(): (steps: seq<Step>) {
    [AddTenant("t"), REQUEST] + [ConsentRead(0, Full, "t", GrantId(1), "b", false)] + [Tick(EXPIRY)]
  }

  function RefusalRun(): (steps: seq<Step>) {
    UnderWay() + [ConsentWrite(0, 1, EXPIRY)]
  }

  /** The grant has expired when the refusal is written, and then it is denied. */
  lemma RefusalAcrossExpiry()
    ensures var w, w' := Run(DEFAULT_MAX_TTL, 1, UnderWay()), Run(DEFAULT_MAX_TTL, 1, RefusalRun());
            && GrantId(1) in w.grants && StateAt(w.grants[GrantId(1)], w.now) == Expired
            && GrantId(1) in w'.grants && StateAt(w'.grants[GrantId(1)], w'.now) == Denied && w'.now == w.now
    ensures SomeContradiction(DEFAULT_MAX_TTL, 1, RefusalRun(), 0)
  {
    var steps, g := RequestedGrant();
    TwoMore(DEFAULT_MAX_TTL, 1, steps, ConsentRead(0, Full, "t", g.id, "b", false), Tick(EXPIRY));
    ExpiredUnderWay(DEFAULT_MAX_TTL, Run(DEFAULT_MAX_TTL, 1, steps), g);
    DeniedAfterExpiry(DEFAULT_MAX_TTL, Run(DEFAULT_MAX_TTL, 1, UnderWay()), g);
    OneMore(DEFAULT_MAX_TTL, 1, UnderWay(), ConsentWrite(0, 1, EXPIRY));
    LastOne(DEFAULT_MAX_TTL, 1, UnderWay(), ConsentWrite(0, 1, EXPIRY));
  }

  lemma ExpiredUnderWay(max: int, w: World, g: Grant)
    requires w.now == 1 && w.grants == map[g.id := g] && w.consents == map[] && g.tenant == "t"
    ensures var w' := Do(max, Do(max, w, ConsentRead(0, Full, "t", g.id, "b", false)), Tick(EXPIRY));
            && w'.now == EXPIRY && w'.grants == w.grants
            && w'.consents == map[0 := Consent(g, "t", 1, "b", false)]
  {
    var w1 := Do(max, w, ConsentRead(0, Full, "t", g.id, "b", false));
    assert w1 == w.(consents := map[0 := Consent(g, "t", 1, "b", false)]);
  }

  lemma DeniedAfterExpiry(max: int, w: World, g: Grant)
    requires w.now == EXPIRY == g.expiresAt && w.grants == map[g.id := g] && Unsettled(g) && g.revokedAt == 0
    requires w.consents == map[0 := Consent(g, "t", 1, "b", false)]
    ensures var s := ConsentWrite(0, 1, EXPIRY); var w' := Do(max, w, s);
            && Contradicts(w, s) && StateAt(g, w.now) == Expired
            && w'.now == w.now && g.id in w'.grants && StateAt(w'.grants[g.id], w.now) == Denied
  {
    assert CanWrite(w, ConsentWrite(0, 1, EXPIRY));
  }

  /** One use of an approved grant, with the clock reaching the expiry between its audit and its end. */
  function ApprovedRun(): (steps: seq<Step>) {
    [AddTenant("t"), REQUEST] + [ConsentRead(0, Full, "t", GrantId(1), "a", true)] + [ConsentWrite(0, 1, 1)]
  }

  function AuditedRun(): (steps: seq<Step>) {
    ApprovedRun() + [AccessRead(2, Full, OPERATOR, GrantId(1))] + [AccessAudit(2, 1, true)]
  }

  function LateSnapshotRun(): (steps: seq<Step>) {
    AuditedRun() + [Tick(EXPIRY)] + [AccessEnd(2, true)]
  }

  lemma TwoMore(max: int, now: nat, steps: seq<Step>, a: Step, b: Step)
    ensures Run(max, now, steps + [a] + [b]) == Do(max, Do(max, Run(max, now, steps), a), b)
  {
    OneMore(max, now, steps, a);
    OneMore(max, now, steps + [a], b);
  }

  lemma Approval(max: int, w: World, g: Grant)
    requires w.now == 1 && w.grants == map[g.id := g] && w.consents == map[] && w.accesses == map[]
    requires g.tenant == "t" && g.expiresAt > 1 && Unsettled(g) && g.revokedAt == 0
    ensures var w' := Do(max, Do(max, w, ConsentRead(0, Full, "t", g.id, "a", true)), ConsentWrite(0, 1, 1));
            && w'.now == 1 && w'.accesses == map[]
            && w'.grants == map[g.id := g.(consentedAt := 1, consentedBy := "a")]
  {
    var w1 := Do(max, w, ConsentRead(0, Full, "t", g.id, "a", true));
    assert w1.consents == map[0 := Consent(g, "t", 1, "a", true)] && w1.grants == w.grants;
  }

  lemma AuditedUse(max: int, w: World, id: Text)
    requires w.now == 1 && id in w.grants && w.grants[id].operator == "op" && w.accesses == map[]
    requires StateAt(w.grants[id], 1) == Active
    ensures var w' := Do(max, Do(max, w, AccessRead(2, Full, OPERATOR, id)), AccessAudit(2, 1, true));
            && w'.now == 1 && w'.grants == w.grants
            && w'.accesses == map[2 := Access(w.grants[id], "op", 1, 1)]
  {
    var w1 := Do(max, w, AccessRead(2, Full, OPERATOR, id));
    assert w1.accesses == map[2 := Access(w.grants[id], "op", 1, 0)] && w1.grants == w.grants;
  }

  lemma LateEnd(max: int, w: World, g: Grant)
    requires w.now == 1 && w.grants == map[g.id := g] && w.accesses == map[2 := Access(g, "op", 1, 1)]
    requires g.tenant == "t" && g.expiresAt == EXPIRY
    ensures var w' := Do(max, Do(max, w, Tick(EXPIRY)), AccessEnd(2, true));
            && w'.now == EXPIRY && w'.log != []
            && w'.log[|w'.log| - 1] == Snapshot(g.id, "t", "op", 1, EXPIRY)
  {
    var w1 := Do(max, w, Tick(EXPIRY));
    assert w1 == w.(now := EXPIRY);
  }

  lemma ApprovedRunIs() returns (g: Grant)
    ensures g.id == GrantId(1) && g.tenant == "t" && g.operator == "op" && g.expiresAt == EXPIRY
    ensures StateAt(g, 1) == Active
    ensures var w := Run(DEFAULT_MAX_TTL, 1, ApprovedRun());
            w.now == 1 && w.accesses == map[] && w.grants == map[g.id := g]
  {
    var steps;
    steps, g := RequestedGrant();
    TwoMore(DEFAULT_MAX_TTL, 1, steps, ConsentRead(0, Full, "t", g.id, "a", true), ConsentWrite(0, 1, 1));
    Approval(DEFAULT_MAX_TTL, Run(DEFAULT_MAX_TTL, 1, steps), g);
    g := g.(consentedAt := 1, consentedBy := "a");
  }

  /** The snapshot comes last, at the moment the grant expires, on an audit from before. */
  lemma SnapshotAfterExpiry()
    ensures var w := Run(DEFAULT_MAX_TTL, 1, LateSnapshotRun());
            && w.now == EXPIRY && w.log != []
            && w.log[|w.log| - 1] == Snapshot(GrantId(1), "t", "op", 1, EXPIRY)
  {
    var g := ApprovedRunIs();
    TwoMore(DEFAULT_MAX_TTL, 1, ApprovedRun(), AccessRead(2, Full, OPERATOR, g.id), AccessAudit(2, 1, true));
    AuditedUse(DEFAULT_MAX_TTL, Run(DEFAULT_MAX_TTL, 1, ApprovedRun()), g.id);
    LateRun(DEFAULT_MAX_TTL, AuditedRun(), g);
  }

  lemma LateRun(max: int, steps: seq<Step>, g: Grant)
    requires var w := Run(max, 1, steps);
             w.now == 1 && w.grants == map[g.id := g] && w.accesses == map[2 := Access(g, "op", 1, 1)]
    requires g.tenant == "t" && g.expiresAt == EXPIRY
    ensures var w := Run(max, 1, steps + [Tick(EXPIRY)] + [AccessEnd(2, true)]);
            w.now == EXPIRY && w.log != [] && w.log[|w.log| - 1] == Snapshot(g.id, "t", "op", 1, EXPIRY)
  {
    TwoMore(max, 1, steps, Tick(EXPIRY), AccessEnd(2, true));
    LateEnd(max, Run(max, 1, steps), g);
  }
}
