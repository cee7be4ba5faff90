/** The break-glass calls of ee/provider, run among everything else that happens at the provider. */
module BreakGlassService {
  import opened Text
  import opened BreakGlass

  datatype Error =
    | Unlicensed | ReadOnlyLicense | Forbidden | ReasonRequired | InvalidDuration | NotFound
    | NotConsented | WrongOperator | ExpiredGrant | AuditFailed | ReadFailed

  datatype Outcome<T> = Ok(value: T) | Err(error: Error)

  predicate Mine(step: Step, me: nat) {
    (step.ConsentRead? || step.ConsentWrite? || step.AccessRead? || step.AccessAudit? || step.AccessEnd?)
    && step.call == me
  }

  /** The copies this call holds are no one else's to change. */
  predicate SameHands(w: World, w': World, me: nat) {
    && (me in w.consents <==> me in w'.consents) && (me in w.consents ==> w'.consents[me] == w.consents[me])
    && (me in w.accesses <==> me in w'.accesses) && (me in w.accesses ==> w'.accesses[me] == w.accesses[me])
  }

  lemma OthersLeaveHands(max: int, w: World, step: Step, me: nat)
    requires !Mine(step, me)
    ensures SameHands(w, Do(max, w, step), me)
  {
  }

  /** Time and the log only grow, and no tenant or grant is ever removed. */
  ghost predicate Grows(w: World, w': World) {
    w.now <= w'.now && w.log <= w'.log && w.grants.Keys <= w'.grants.Keys && w.tenants <= w'.tenants
  }

  lemma StepGrows(max: int, w: World, step: Step)
    ensures Grows(w, Do(max, w, step))
  {
  }

  lemma RunSnoc(max: int, now: nat, steps: seq<Step>, s: Step)
    ensures Run(max, now, steps + [s]) == Do(max, Run(max, now, steps), s)
  {
    assert (steps + [s])[..|steps|] == steps;
  }

  /** Whatever a call holds a copy of is in the store, under its id. */
  lemma CopiesAreStored(max: int, start: nat, trace: seq<Step>, me: nat)
    requires start > 0
    ensures var w := Run(max, start, trace);
            && (me in w.consents ==> w.consents[me].grant.id in w.grants)
            && (me in w.accesses ==> w.accesses[me].grant.id in w.grants)
    ensures var w := Run(max, start, trace); forall id :: id in w.grants ==> w.grants[id].id == id
  {
    RunKeepsInv(max, start, trace);
    var w := Run(max, start, trace);
    if me in w.accesses { assert AccessOk(max, w.log, w.grants, w.accesses[me]); }
  }

  /** The request checks that look at nothing stored, in the order they are made. */
  function RequestRefusal(max: int, mode: Mode, actor: Operator, reason: Text, ttl: int): (e: seq<Error>) {
    if mode == Off then [Unlicensed]
    else if mode == ReadOnly then [ReadOnlyLicense]
    else if !IsOperator(actor) then [Forbidden]
    else if TrimSpace(reason) == [] then [ReasonRequired]
    else if TtlOf(ttl) < 0 || TtlOf(ttl) > max then [InvalidDuration]
    else []
  }

  /** Thirty minutes unless the caller says otherwise. */
  function EffectiveTtl(ttl: int): (t: int) {
    if ttl == 0 then 30 * 60 * 1_000_000_000 else ttl
  }

  /** Which requests are turned away at once, and why: licence, then operator, then reason, then duration. */
  ghost predicate TurnedAway(max: int, mode: Mode, actor: Operator, reason: Text, ttl: int, e: seq<Error>) {
    var known := actor.id != "" && actor.mfa && actor.role != "";
    && (mode == Off <==> e == [Unlicensed])
    && (mode == ReadOnly <==> e == [ReadOnlyLicense])
    && (mode == Full && !known <==> e == [Forbidden])
    && (mode == Full && known && Trims(reason, []) <==> e == [ReasonRequired])
    && (mode == Full && known && !Trims(reason, []) && (ttl < 0 || EffectiveTtl(ttl) > max) <==> e == [InvalidDuration])
    && (mode == Full && known && !Trims(reason, []) && ttl >= 0 && EffectiveTtl(ttl) <= max <==> e == [])
  }

  lemma RefusalMeaning(max: int, mode: Mode, actor: Operator, reason: Text, ttl: int)
    ensures TurnedAway(max, mode, actor, reason, ttl, RequestRefusal(max, mode, actor, reason, ttl))
    ensures Trims(reason, TrimSpace(reason)) && TtlOf(ttl) == EffectiveTtl(ttl)
  {
    TrimSpaceExactly(reason, []);
    TrimSpaceExactly(reason, TrimSpace(reason));
  }

  /** One call at the provider; `me` tells it from all other calls. */
  class Call {
    const me: nat
    const max: int
    ghost const start: nat
    var world: World
    /** Every step since the start, by this call and by everything else. */
    ghost var trace: seq<Step>

    ghost predicate Valid()
      reads this
    {
      start > 0 && world.now > 0 && world == Run(max, start, trace)
    }

    constructor (me: nat, configuredMax: int, start: nat)
      requires start > 0
      ensures Valid() && this.me == me && max == MaxTtl(configuredMax) && trace == []
      ensures me !in world.consents && me !in world.accesses
    {
      this.me, max, this.start, world, trace := me, MaxTtl(configuredMax), start, Start(start), [];
    }

    method Take(step: Step)
      requires Valid()
      modifies this
      ensures Valid() && trace == old(trace) + [step] && world == Do(max, old(world), step)
      ensures Grows(old(world), world)
    {
      RunSnoc(max, start, trace, step);
      StepGrows(max, world, step);
      world := Do(max, world, step);
      trace := trace + [step];
    }

    /** Whatever else happens before this call's next operation. */
    method Interfere()
      requires Valid()
      modifies this
      ensures Valid() && old(trace) <= trace && SameHands(old(world), world, me) && Grows(old(world), world)
      ensures forall k :: |old(trace)| <= k < |trace| ==> !Mine(trace[k], me)
    {
      var n: int := *;
      while n > 0
        invariant Valid() && old(trace) <= trace && SameHands(old(world), world, me) && Grows(old(world), world)
        invariant forall k :: |old(trace)| <= k < |trace| ==> !Mine(trace[k], me)
      {
        var step: Step := *;
        if !Mine(step, me) {
          OthersLeaveHands(max, world, step, me);
          Take(step);
        }
        n := n - 1;
      }
    }

    /** Opens a pending grant; a failed audit reports an error but leaves the grant. */
    method RequestBreakGlass(mode: Mode, actor: Operator, tenant: string, reason: Text, ttl: int)
      returns (r: Outcome<Grant>, ghost g: Grant)
      requires Valid()
      modifies this
      ensures Valid() && old(trace) <= trace && Grows(old(world), world)
      ensures exists e :: TurnedAway(max, mode, actor, reason, ttl, e)
                && if e != [] then r == Err(e[0]) && world == old(world)
                   else (r.Err? ==> r.error == NotFound || r.error == AuditFailed)
      ensures r.Ok? ==> r.value == g
      ensures r.Ok? || r.error == AuditFailed ==>
                && mode == Full && actor.id != "" && actor.mfa && actor.role != ""
                && Trims(reason, g.reason) && g.reason != [] && g.expiresAt == g.requestedAt + EffectiveTtl(ttl)
      ensures r.Ok? || r.error == AuditFailed ==>
                && g.tenant == tenant && g.operator == actor.id
                && g.expiresAt == g.requestedAt + TtlOf(ttl) <= g.requestedAt + max
                && old(world).now <= g.requestedAt <= world.now && StateAt(g, g.requestedAt) == Pending
                && g.consentedBy == g.deniedBy == "" && g.useCount == g.consentedAt == g.deniedAt == g.revokedAt == 0
                && g.id !in old(world).grants && g.id in world.grants && world.grants[g.id] == g
                && Requested(g.id, tenant, actor.id, g.requestedAt, g.expiresAt) in world.log[|old(world).log|..]
    {
      g := Grant([], "", "", [], 0, 0, 0, "", 0, "", 0, 0);
      RefusalMeaning(max, mode, actor, reason, ttl);
      assert TurnedAway(max, mode, actor, reason, ttl, RequestRefusal(max, mode, actor, reason, ttl));
      if mode == Off { return Err(Unlicensed), g; }
      if mode == ReadOnly { return Err(ReadOnlyLicense), g; }
      if !IsOperator(actor) { return Err(Forbidden), g; }
      if TrimSpace(reason) == [] { return Err(ReasonRequired), g; }
      if TtlOf(ttl) < 0 || TtlOf(ttl) > max { return Err(InvalidDuration), g; }
      Interfere();
      if tenant !in world.tenants { return Err(NotFound), g; }
      var now := world.now;
      Interfere();
      r, g := CreateGrant(Request(mode, actor, tenant, reason, ttl, now));
      assert world.log[|old(world).log|..][|world.log| - 1 - |old(world).log|] == world.log[|world.log| - 1];
    }

    method CreateGrant(s: Step) returns (r: Outcome<Grant>, ghost g: Grant)
      requires Valid() && s.Request? && CanAsk(max, world, s)
      modifies this
      ensures Valid() && trace == old(trace) + [s] && Grows(old(world), world)
      ensures g == NewGrant(GrantId(old(world).nextGrant + 1), s)
      ensures g.id !in old(world).grants && g.id in world.grants && world.grants[g.id] == g
      ensures world.log == old(world).log + [Requested(g.id, g.tenant, g.operator, g.requestedAt, g.expiresAt)]
      ensures r == Ok(g) || r == Err(AuditFailed)
    {
      RunKeepsInv(max, start, trace);
      NewIdIsFree(world);
      var grant := NewGrant(GrantId(world.nextGrant + 1), s);
      g := grant;
      Take(s);
      var audited: bool := *;
      r := if audited then Ok(grant) else Err(AuditFailed);
    }

    /** Nothing of this call is in flight. */
    ghost predicate Fresh()
      reads this
    {
      me !in world.consents && me !in world.accesses
    }

    /** What this call wrote is in the log from here on. */
    ghost predicate LoggedSince(from: nat, e: Entry)
      reads this
    {
      exists k: nat :: from <= k < |world.log| && world.log[k] == e
    }

    /**
     The tenant's decision: it takes effect exactly on a grant of that tenant which was pending when checked,
     even when its audit record then fails.
     */
    method ConsentBreakGlass(mode: Mode, tenant: string, id: Text, subject: string, approve: bool)
      returns (r: Outcome<Grant>, ghost at: nat)
      requires Valid() && Fresh()
      modifies this
      ensures Valid() && old(trace) <= trace && Grows(old(world), world)
      ensures mode == Off ==> r == Err(Unlicensed) && world == old(world)
      ensures mode != Off && id !in old(world).grants ==> r == Err(NotFound)
      ensures mode != Off && id in old(world).grants && old(world).grants[id].tenant != tenant ==> r == Err(Forbidden)
      ensures r.Ok? ==> r.value.id == id && r.value.tenant == tenant
                        && (approve ==> r.value.consentedAt == at && r.value.consentedBy == subject)
                        && (!approve ==> r.value.deniedAt == at && r.value.deniedBy == subject)
      ensures r.Ok? || r.error == AuditFailed ==>
                old(world).now <= at <= world.now
                && LoggedSince(|old(world).log|, Decided(id, tenant, subject, approve, at))
      ensures r.Err? && r.error != AuditFailed ==>
                forall k :: |old(trace)| <= k < |trace| ==> !trace[k].ConsentWrite? || trace[k].call != me
    {
      at := 0;
      if mode == Off { return Err(Unlicensed), at; }
      if id !in world.grants { return Err(NotFound), at; }
      var grant := world.grants[id];
      if grant.tenant != tenant { return Err(Forbidden), at; }
      var c := ReadForConsent(mode, tenant, id, subject, approve);
      r, at := Decide(c);
    }

    method ReadForConsent(mode: Mode, tenant: string, id: Text, subject: string, approve: bool) returns (c: Consent)
      requires Valid() && me !in world.consents
      requires mode != Off && id in world.grants && world.grants[id].tenant == tenant
      modifies this
      ensures Valid() && trace == old(trace) + [ConsentRead(me, mode, tenant, id, subject, approve)]
      ensures Grows(old(world), world) && world.log == old(world).log && world.now == old(world).now
      ensures me in world.consents && world.consents[me] == c
      ensures c == Consent(old(world).grants[id], tenant, world.now, subject, approve)
      ensures c.grant.id == id
    {
      CopiesAreStored(max, start, trace, me);
      c := Consent(world.grants[id], tenant, world.now, subject, approve);
      Take(ConsentRead(me, mode, tenant, id, subject, approve));
    }

    /** From the copy read to the decision written. */
    method Decide(c: Consent) returns (r: Outcome<Grant>, ghost at: nat)
      requires Valid() && me in world.consents && world.consents[me] == c && c.since == world.now
      modifies this
      ensures Valid() && old(trace) <= trace && Grows(old(world), world)
      ensures r == Ok(Written(c, at)) || r == Err(NotConsented) || r == Err(AuditFailed)
      ensures r != Err(NotConsented) ==>
                old(world).now <= at <= world.now
                && LoggedSince(|old(world).log|, Decided(c.grant.id, c.tenant, c.subject, c.approve, at))
      ensures r == Err(NotConsented) ==> forall k :: |old(trace)| <= k < |trace| ==> !Mine(trace[k], me)
    {
      at := 0;
      Interfere();
      var seen := world.now;
      if StateAt(c.grant, seen) != Pending { return Err(NotConsented), at; }
      Interfere();
      var now := world.now;
      at := now;
      Interfere();
      WriteBack(seen, now, c);
      assert world.log[|world.log| - 1] == Decided(c.grant.id, c.tenant, c.subject, c.approve, at);
      var audited: bool := *;
      r := if audited then Ok(Written(c, now)) else Err(AuditFailed);
    }

    /** Writes the decision over the stored grant. */
    method WriteBack(seen: nat, at: nat, ghost c: Consent)
      requires Valid() && me in world.consents && world.consents[me] == c
      requires c.since <= seen <= at <= world.now && StateAt(c.grant, seen) == Pending
      modifies this
      ensures Valid() && trace == old(trace) + [ConsentWrite(me, seen, at)] && Grows(old(world), world)
      ensures world.log == old(world).log + [Decided(c.grant.id, c.tenant, c.subject, c.approve, at)]
    {
      CopiesAreStored(max, start, trace, me);
      Take(ConsentWrite(me, seen, at));
    }

    /**
     The operator's read: a snapshot of the grant's tenant, and only to the operator who asked, with the grant
     active at the time in the audit record; it may come back later than that.
     */
    method BreakGlassResults(mode: Mode, actor: Operator, id: Text) returns (r: Outcome<string>, ghost at: nat)
      requires Valid() && Fresh()
      modifies this
      ensures Valid() && old(trace) <= trace && Grows(old(world), world)
      ensures actor.id == "" || !actor.mfa || actor.role == "" ==> r == Err(Forbidden) && world == old(world)
      ensures actor.id != "" && actor.mfa && actor.role != "" && mode == Off ==>
                r == Err(Unlicensed) && world == old(world)
      ensures actor.id != "" && actor.mfa && actor.role != "" && mode != Off ==>
                if id !in old(world).grants then r == Err(NotFound)
                else if old(world).grants[id].operator != actor.id then r == Err(WrongOperator)
                else
                  && (r == Err(ExpiredGrant) <==> StateAt(old(world).grants[id], at) == Expired)
                  && (r == Err(NotConsented) <==> StateAt(old(world).grants[id], at) !in {Active, Expired})
      ensures r.Ok? ==> id in old(world).grants && old(world).grants[id].tenant == r.value
                        && old(world).grants[id].operator == actor.id && StateAt(old(world).grants[id], at) == Active
      ensures r.Ok? ==> old(world).now <= at <= world.now
                        && exists back: nat :: at <= back <= world.now
                             && LoggedSince(|old(world).log|, Snapshot(id, r.value, actor.id, at, back))
      ensures r.Err? ==> forall k :: |old(trace)| <= k < |trace| ==> trace[k] != AccessEnd(me, true)
    {
      at := 0;
      if !IsOperator(actor) { return Err(Forbidden), at; }
      if mode == Off { return Err(Unlicensed), at; }
      if id !in world.grants { return Err(NotFound), at; }
      var grant := world.grants[id];
      if grant.operator != actor.id { return Err(WrongOperator), at; }
      CopiesAreStored(max, start, trace, me);
      Take(AccessRead(me, mode, actor, id));
      r, at := ReadOut(grant, actor.id, world.now);
    }

    /** From the copy read to the snapshot counted and returned. */
    method ReadOut(grant: Grant, operator: string, since: nat) returns (r: Outcome<string>, ghost at: nat)
      requires Valid() && me in world.accesses && world.accesses[me] == Access(grant, operator, since, 0)
      requires since == world.now
      modifies this
      ensures Valid() && old(trace) <= trace && Grows(old(world), world)
      ensures r == Err(ExpiredGrant) <==> StateAt(grant, at) == Expired
      ensures r == Err(NotConsented) <==> StateAt(grant, at) !in {Active, Expired}
      ensures r.Ok? ==> r.value == grant.tenant && StateAt(grant, at) == Active && old(world).now <= at <= world.now
                        && exists back: nat :: at <= back <= world.now
                             && LoggedSince(|old(world).log|, Snapshot(grant.id, grant.tenant, operator, at, back))
      ensures r.Err? ==> forall k :: |old(trace)| <= k < |trace| ==> trace[k] != AccessEnd(me, true)
    {
      Interfere();
      var now := world.now;
      at := now;
      var state := StateAt(grant, now);
      if state == Expired { return Err(ExpiredGrant), at; }
      if state != Active { return Err(NotConsented), at; }
      Interfere();
      ghost var back;
      r, back := Finish(grant, operator, since, now);
    }

    /** The audit record, the read and the count, once the grant was found active. */
    method Finish(grant: Grant, operator: string, since: nat, now: nat) returns (r: Outcome<string>, ghost back: nat)
      requires Valid() && me in world.accesses && world.accesses[me] == Access(grant, operator, since, 0)
      requires since <= now <= world.now && 0 < now && StateAt(grant, now) == Active
      modifies this
      ensures Valid() && old(trace) <= trace && Grows(old(world), world)
      ensures r.Err? ==> r.error == AuditFailed || r.error == ReadFailed
      ensures r.Ok? ==> r.value == grant.tenant
                        && now <= back <= world.now
                        && LoggedSince(|old(world).log|, Snapshot(grant.id, grant.tenant, operator, now, back))
      ensures r.Err? ==> forall k :: |old(trace)| <= k < |trace| ==> trace[k] != AccessEnd(me, true)
    {
      back := 0;
      var audited: bool := *;
      Take(AccessAudit(me, now, audited));
      if !audited { return Err(AuditFailed), back; }
      r, back := EndAccess(grant, operator, since, now);
    }

    /** The audited access, with anything others do before its end. */
    method EndAccess(grant: Grant, operator: string, since: nat, now: nat) returns (r: Outcome<string>, ghost back: nat)
      requires Valid() && me in world.accesses && world.accesses[me] == Access(grant, operator, since, now)
      requires 0 < now <= world.now
      modifies this
      ensures Valid() && old(trace) <= trace && Grows(old(world), world)
      ensures r.Err? ==> r.error == ReadFailed
      ensures r.Ok? ==> r.value == grant.tenant
                        && now <= back <= world.now
                        && LoggedSince(|old(world).log|, Snapshot(grant.id, grant.tenant, operator, now, back))
      ensures r.Err? ==> forall k :: |old(trace)| <= k < |trace| ==> trace[k] != AccessEnd(me, true)
    {
      Interfere();
      var readOk: bool := *;
      CopiesAreStored(max, start, trace, me);
      back := world.now;
      Take(AccessEnd(me, readOk));
      if !readOk { return Err(ReadFailed), back; }
      assert world.log[|world.log| - 1] == Snapshot(grant.id, grant.tenant, operator, now, back);
      r := Ok(grant.tenant);
    }
  }
}
