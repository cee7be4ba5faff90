/** Who is behind each entry of the break-glass log: the steps of the run in which they identified themselves. */
module BreakGlassActors {
  import opened Text
  import opened BreakGlass
  import opened BreakGlassRuns

  /** An operator of the provider: named, with a role, and past the second factor. */
  predicate Identified(actor: Operator, operator: string) {
    actor.id == operator && operator != "" && actor.mfa && actor.role != ""
  }

  /** The step in which the entry's author called. */
  predicate Vouches(s: Step, e: Entry) {
    match e
    case Requested(_, tenant, operator, at, expiresAt) =>
      && s.Request? && s.mode == Full && Identified(s.actor, operator) && s.tenant == tenant && s.at == at
      && expiresAt == at + (if s.ttl == 0 then DEFAULT_TTL else s.ttl)
    case Decided(id, tenant, subject, approve, _) =>
      && s.ConsentRead? && s.mode != Off && s.id == id && s.tenant == tenant && s.subject == subject
      && s.approve == approve
    case Accessed(id, operator, _) =>
      s.AccessRead? && s.mode != Off && s.id == id && Identified(s.actor, operator)
    case Snapshot(id, _, operator, _, _) =>
      s.AccessRead? && s.mode != Off && s.id == id && Identified(s.actor, operator)
  }

  ghost predicate Vouched(steps: seq<Step>, e: Entry) {
    exists n :: 0 <= n < |steps| && Vouches(steps[n], e)
  }

  /** Entries, and the entries that calls in flight are about to make. */
  ghost predicate AllVouched(steps: seq<Step>, w: World) {
    && (forall k :: 0 <= k < |w.log| ==> Vouched(steps, w.log[k]))
    && (forall c :: c in w.consents ==>
          var x := w.consents[c]; Vouched(steps, Decided(x.grant.id, x.tenant, x.subject, x.approve, 0)))
    && (forall c :: c in w.accesses ==> Vouched(steps, Accessed(w.accesses[c].grant.id, w.accesses[c].operator, 0)))
  }

  lemma VouchedGrows(steps: seq<Step>, s: Step, e: Entry)
    ensures Vouched(steps, e) ==> Vouched(steps + [s], e)
    ensures Vouches(s, e) ==> Vouched(steps + [s], e)
  {
    if Vouched(steps, e) {
      var n :| 0 <= n < |steps| && Vouches(steps[n], e);
      assert Vouches((steps + [s])[n], e);
    }
    if Vouches(s, e) { assert (steps + [s])[|steps|] == s; }
  }

  /** Entries that differ in times alone have the same authors. */
  lemma SameDecider(steps: seq<Step>, id: Text, tenant: string, subject: string, approve: bool, at: nat)
    requires Vouched(steps, Decided(id, tenant, subject, approve, 0))
    ensures Vouched(steps, Decided(id, tenant, subject, approve, at))
  {
    var n :| 0 <= n < |steps| && Vouches(steps[n], Decided(id, tenant, subject, approve, 0));
    assert Vouches(steps[n], Decided(id, tenant, subject, approve, at));
  }

  lemma SameReader(steps: seq<Step>, id: Text, operator: string, tenant: string, at: nat, back: nat)
    requires Vouched(steps, Accessed(id, operator, 0))
    ensures Vouched(steps, Accessed(id, operator, at)) && Vouched(steps, Snapshot(id, tenant, operator, at, back))
  {
    var n :| 0 <= n < |steps| && Vouches(steps[n], Accessed(id, operator, 0));
    assert Vouches(steps[n], Accessed(id, operator, at)) && Vouches(steps[n], Snapshot(id, tenant, operator, at, back));
  }

  ghost predicate OwnIds(w: World) {
    forall id :: id in w.grants ==> w.grants[id].id == id
  }

  /** The entry a step adds, if any, was vouched for, now or when its call began. */
  lemma AddedIsVouched(max: int, steps: seq<Step>, w: World, s: Step)
    requires AllVouched(steps, w) && OwnIds(w)
    ensures var w' := Do(max, w, s);
      || w'.log == w.log
      || (|w'.log| == |w.log| + 1 && w'.log[..|w.log|] == w.log && Vouched(steps + [s], w'.log[|w.log|]))
  {
    var w' := Do(max, w, s);
    if s.Request? && CanAsk(max, w, s) {
      var g := NewGrant(GrantId(w.nextGrant + 1), s);
      VouchedGrows(steps, s, Requested(g.id, s.tenant, s.actor.id, g.requestedAt, g.expiresAt));
    } else if s.ConsentWrite? && CanWrite(w, s) {
      var c := w.consents[s.call];
      SameDecider(steps, c.grant.id, c.tenant, c.subject, c.approve, s.at);
      VouchedGrows(steps, s, Decided(c.grant.id, c.tenant, c.subject, c.approve, s.at));
    } else if s.AccessAudit? && CanAudit(w, s) && s.recorded {
      var a := w.accesses[s.call];
      SameReader(steps, a.grant.id, a.operator, a.grant.tenant, s.at, 0);
      VouchedGrows(steps, s, Accessed(a.grant.id, a.operator, s.at));
    } else if s.AccessEnd? && CanEnd(w, s) && s.readOk {
      var a := w.accesses[s.call];
      SameReader(steps, a.grant.id, a.operator, a.grant.tenant, a.at, w.now);
      VouchedGrows(steps, s, Snapshot(a.grant.id, a.grant.tenant, a.operator, a.at, w.now));
    }
  }

  lemma ConsentsVouched(max: int, steps: seq<Step>, w: World, s: Step)
    requires AllVouched(steps, w) && OwnIds(w)
    ensures var w' := Do(max, w, s); forall c :: c in w'.consents ==>
      var x := w'.consents[c]; Vouched(steps + [s], Decided(x.grant.id, x.tenant, x.subject, x.approve, 0))
  {
    var w' := Do(max, w, s);
    forall c | c in w'.consents
      ensures var x := w'.consents[c]; Vouched(steps + [s], Decided(x.grant.id, x.tenant, x.subject, x.approve, 0))
    {
      var x := w'.consents[c];
      VouchedGrows(steps, s, Decided(x.grant.id, x.tenant, x.subject, x.approve, 0));
    }
  }

  lemma AccessesVouched(max: int, steps: seq<Step>, w: World, s: Step)
    requires AllVouched(steps, w) && OwnIds(w)
    ensures var w' := Do(max, w, s); forall c :: c in w'.accesses ==>
      Vouched(steps + [s], Accessed(w'.accesses[c].grant.id, w'.accesses[c].operator, 0))
  {
    var w' := Do(max, w, s);
    forall c | c in w'.accesses
      ensures Vouched(steps + [s], Accessed(w'.accesses[c].grant.id, w'.accesses[c].operator, 0))
    {
      VouchedGrows(steps, s, Accessed(w'.accesses[c].grant.id, w'.accesses[c].operator, 0));
    }
  }

  lemma StepVouched(max: int, steps: seq<Step>, w: World, s: Step)
    requires AllVouched(steps, w) && OwnIds(w)
    ensures AllVouched(steps + [s], Do(max, w, s))
  {
    AddedIsVouched(max, steps, w, s);
    ConsentsVouched(max, steps, w, s);
    AccessesVouched(max, steps, w, s);
    var w' := Do(max, w, s);
    forall k | 0 <= k < |w'.log| ensures Vouched(steps + [s], w'.log[k]) {
      if k < |w.log| {
        assert w'.log[k] == w.log[k];
        VouchedGrows(steps, s, w.log[k]);
      }
    }
  }

  /** In every run every entry was made by someone who identified themselves for it in a step of the run. */
  lemma {:induction false} EveryEntryIsVouched(max: int, now: nat, steps: seq<Step>)
    requires now > 0
    ensures AllVouched(steps, Run(max, now, steps))
  {
    if steps != [] {
      var n := |steps| - 1;
      EveryEntryIsVouched(max, now, steps[..n]);
      assert OwnIds(Run(max, now, steps[..n])) by { RunKeepsInv(max, now, steps[..n]); }
      StepVouched(max, steps[..n], Run(max, now, steps[..n]), steps[n]);
      assert steps[..n] + [steps[n]] == steps;
    }
  }

  /** Behind each snapshot: a request, an approval and an access, each with the call of its author. */
  lemma EverySnapshotHasItsActors(max: int, now: nat, steps: seq<Step>, k: nat)
    requires now > 0 && k < |Run(max, now, steps).log| && Run(max, now, steps).log[k].Snapshot?
    ensures var log := Run(max, now, steps).log;
      exists i: nat, j: nat, l: nat ::
        && Story(max, log, i, j, l, k)
        && Vouched(steps, log[i]) && Vouched(steps, log[j]) && Vouched(steps, log[l]) && Vouched(steps, log[k])
  {
    EverySnapshotHasItsStory(max, now, steps, k);
    EveryEntryIsVouched(max, now, steps);
    var log := Run(max, now, steps).log;
    var i: nat, j: nat, l: nat :| Story(max, log, i, j, l, k);
    assert Vouched(steps, log[i]) && Vouched(steps, log[j]) && Vouched(steps, log[l]) && Vouched(steps, log[k]);
  }

  // ---------------------------------------------------------------- states

  /** When a grant is in each state; the five cases exclude each other. */
  lemma StateMeaning(g: Grant, now: nat)
    ensures StateAt(g, now) == Active <==>
            g.consentedAt != 0 && g.deniedAt == 0 && g.revokedAt == 0 && now < g.expiresAt
    ensures StateAt(g, now) == Pending <==>
            && g.deniedAt == 0 && g.revokedAt == 0 && (g.expiresAt == 0 || now < g.expiresAt)
            && (g.consentedAt == 0 || g.expiresAt == 0)
    ensures StateAt(g, now) == Expired <==> g.deniedAt == 0 && g.revokedAt == 0 && 0 < g.expiresAt <= now
    ensures StateAt(g, now) == Denied <==> g.deniedAt != 0 && g.revokedAt == 0
    ensures StateAt(g, now) == Revoked <==> g.revokedAt != 0
  {
  }
}
