/**
 Break-glass access of ee/provider: an operator asks, the tenant consents or refuses, and until the grant
 expires the operator may read the tenant's snapshot. Each store operation is atomic, a service call is
 several of them, and calls interleave freely; a run is any sequence of such operations and clock ticks.
 */
module BreakGlass {
  import opened Text

  const MINUTE := 60_000_000_000
  const DEFAULT_TTL := 30 * MINUTE
  const DEFAULT_MAX_TTL := 120 * MINUTE

  datatype Mode = Off | ReadOnly | Full

  datatype Operator = Operator(id: string, role: string, mfa: bool)

  /** Times are nanoseconds; 0 is the zero time, which the clock never shows. */
  datatype Grant = Grant(
    id: Text, tenant: string, operator: string, reason: Text, requestedAt: nat, expiresAt: nat,
    consentedAt: nat, consentedBy: string, deniedAt: nat, deniedBy: string, revokedAt: nat, useCount: nat)

  datatype GrantState = Pending | Active | Denied | Revoked | Expired

  function StateAt(g: Grant, now: nat): (s: GrantState) {
    if g.revokedAt != 0 then Revoked
    else if g.deniedAt != 0 then Denied
    else if g.consentedAt != 0 && now < g.expiresAt then Active
    else if g.expiresAt != 0 && now >= g.expiresAt then Expired
    else Pending
  }

  /** A consent call of a tenant that has read the grant, at time `since`, and not yet written it back. */
  datatype Consent = Consent(grant: Grant, tenant: string, since: nat, subject: string, approve: bool)

  /** An operator's access call that has read the grant; `at` is when it was audited, 0 before that. */
  datatype Access = Access(grant: Grant, operator: string, since: nat, at: nat)

  /**
   What has happened, in order: who asked, who decided, whose access was audited, and which snapshot was handed
   out to whom. A snapshot carries the clock reading of its audit record and the time it was returned at.
   */
  datatype Entry =
    | Requested(id: Text, tenant: string, operator: string, at: nat, expiresAt: nat)
    | Decided(id: Text, tenant: string, subject: string, approve: bool, at: nat)
    | Accessed(id: Text, operator: string, at: nat)
    | Snapshot(id: Text, tenant: string, operator: string, audited: nat, at: nat)

  datatype World = World(
    now: nat,
    tenants: set<string>,
    grants: map<Text, Grant>,
    nextGrant: nat,
    consents: map<nat, Consent>,
    accesses: map<nat, Access>,
    log: seq<Entry>)

  /**
   The atomic operations. A call reads the clock between its store operations: `seen` and `at` are those
   readings, no earlier than its first operation and no later than the step.
   */
  datatype Step =
    | Tick(to: nat)
    | AddTenant(tenant: string)
    | Request(mode: Mode, actor: Operator, tenant: string, reason: Text, ttl: int, at: nat)
    | ConsentRead(call: nat, mode: Mode, tenant: string, id: Text, subject: string, approve: bool)
    | ConsentWrite(call: nat, seen: nat, at: nat)
    | AccessRead(call: nat, mode: Mode, actor: Operator, id: Text)
    | AccessAudit(call: nat, at: nat, recorded: bool)
    | AccessEnd(call: nat, readOk: bool)

  predicate IsOperator(actor: Operator) {
    actor.id != "" && actor.mfa && actor.role != ""
  }

  /** NewService: a maximum that is not positive means the default. */
  function MaxTtl(configured: int): (m: int)
    ensures m > 0 && m == (if configured > 0 then configured else 2 * 60 * 60 * 1_000_000_000)
  {
    if configured <= 0 then DEFAULT_MAX_TTL else configured
  }

  function TtlOf(ttl: int): (t: int) {
    if ttl == 0 then DEFAULT_TTL else ttl
  }

  predicate CanAsk(max: int, w: World, s: Step)
    requires s.Request?
  {
    && s.mode == Full && IsOperator(s.actor) && TrimSpace(s.reason) != []
    && 0 <= TtlOf(s.ttl) <= max && s.tenant in w.tenants && 0 < s.at <= w.now
  }

  function NewGrant(id: Text, s: Step): (g: Grant)
    requires s.Request? && TtlOf(s.ttl) >= 0
  {
    Grant(id, s.tenant, s.actor.id, TrimSpace(s.reason), s.at, s.at + TtlOf(s.ttl), 0, "", 0, "", 0, 0)
  }

  predicate CanRead(w: World, s: Step)
    requires s.ConsentRead?
  {
    s.mode != Off && s.call !in w.consents && s.id in w.grants && w.grants[s.id].tenant == s.tenant
  }

  predicate CanWrite(w: World, s: Step)
    requires s.ConsentWrite?
  {
    && s.call in w.consents && w.consents[s.call].since <= s.seen <= s.at <= w.now
    && StateAt(w.consents[s.call].grant, s.seen) == Pending && w.consents[s.call].grant.id in w.grants
  }

  function Written(c: Consent, at: nat): (g: Grant) {
    if c.approve then c.grant.(consentedAt := at, consentedBy := c.subject)
    else c.grant.(deniedAt := at, deniedBy := c.subject)
  }

  predicate CanAccess(w: World, s: Step)
    requires s.AccessRead?
  {
    && IsOperator(s.actor) && s.mode != Off && s.call !in w.accesses
    && s.id in w.grants && w.grants[s.id].operator == s.actor.id
  }

  predicate CanAudit(w: World, s: Step)
    requires s.AccessAudit?
  {
    && s.call in w.accesses && w.accesses[s.call].at == 0
    && w.accesses[s.call].since <= s.at <= w.now && StateAt(w.accesses[s.call].grant, s.at) == Active
  }

  predicate CanEnd(w: World, s: Step)
    requires s.AccessEnd?
  {
    s.call in w.accesses && w.accesses[s.call].at != 0 && w.accesses[s.call].grant.id in w.grants
  }

  // ---------------------------------------------------------------- grant ids

  /** The decimal form, padded with zeros to six digits. */
  function Padded(n: nat): (t: Text) {
    var d := Decimal(n);
    if |d| < 6 then seq(6 - |d|, _ => 48) + d else d
  }

  function GrantId(n: nat): (t: Text) {
    Ascii("grant-") + Padded(n)
  }

  function Value(t: Text): (v: int) {
    if t == [] then 0 else 10 * Value(t[..|t| - 1]) + t[|t| - 1] - 48
  }

  lemma {:induction false} ValueOfDecimal(n: nat)
    ensures Value(Decimal(n)) == n
  {
    var d := Decimal(n);
    if n < 10 {
      assert d[..0] == [];
    } else {
      assert d[..|d| - 1] == Decimal(n / 10);
      ValueOfDecimal(n / 10);
    }
  }

  lemma {:induction false} DecimalDigits(n: nat)
    ensures var d := Decimal(n); |d| > 0 && (n > 0 ==> d[0] != 48) && forall i :: 0 <= i < |d| ==> 48 <= d[i] <= 57
  {
    if n >= 10 { DecimalDigits(n / 10); }
  }

  lemma {:induction false} ValueOfPadded(k: nat, d: Text)
    ensures Value(seq(k, _ => 48) + d) == Value(d)
    decreases k + |d|
  {
    var z := seq(k, _ => 48);
    if d != [] {
      assert (z + d)[..k + |d| - 1] == z + d[..|d| - 1];
      ValueOfPadded(k, d[..|d| - 1]);
    } else if k > 0 {
      assert z + d == z && z[..k - 1] == seq(k - 1, _ => 48) + [];
      ValueOfPadded(k - 1, []);
    } else {
      assert z + d == d;
    }
  }

  /** The one text of at least six digits, and no leading zero beyond six, that reads as the number. */
  lemma ValueOfId(n: nat)
    ensures Value(Padded(n)) == n && |Padded(n)| >= 6 && (|Padded(n)| > 6 ==> Padded(n)[0] != 48)
    ensures forall i :: 0 <= i < |Padded(n)| ==> 48 <= Padded(n)[i] <= 57
  {
    ValueOfDecimal(n);
    DecimalDigits(n);
    if |Decimal(n)| < 6 { ValueOfPadded(6 - |Decimal(n)|, Decimal(n)); }
  }

  /** Two grants never get one id. */
  lemma GrantIdsAreUnique(m: nat, n: nat)
    requires GrantId(m) == GrantId(n)
    ensures m == n
  {
    var prefix := Ascii("grant-");
    assert Padded(m) == GrantId(m)[|prefix|..] == Padded(n);
    ValueOfId(m);
    ValueOfId(n);
  }

  // ---------------------------------------------------------------- the step function

  /** The world after a snapshot is returned and counted. */
  function Counted(w: World, call: nat): (w': World)
    requires call in w.accesses && w.accesses[call].grant.id in w.grants
  {
    var a := w.accesses[call];
    var g := w.grants[a.grant.id];
    w.(log := w.log + [Snapshot(a.grant.id, a.grant.tenant, a.operator, a.at, w.now)],
       grants := w.grants[a.grant.id := g.(useCount := g.useCount + 1)])
  }

  function Do(max: int, w: World, s: Step): (w': World) {
    match s
    case Tick(to) => if to >= w.now then w.(now := to) else w
    case AddTenant(t) => w.(tenants := w.tenants + {t})
    case Request(_, _, _, _, _, _) =>
      if !CanAsk(max, w, s) then w
      else
        var g := NewGrant(GrantId(w.nextGrant + 1), s);
        w.(nextGrant := w.nextGrant + 1, grants := w.grants[g.id := g],
           log := w.log + [Requested(g.id, s.tenant, s.actor.id, g.requestedAt, g.expiresAt)])
    case ConsentRead(call, _, tenant, id, subject, approve) =>
      if !CanRead(w, s) then w
      else w.(consents := w.consents[call := Consent(w.grants[id], tenant, w.now, subject, approve)])
    case ConsentWrite(call, _, at) =>
      if !CanWrite(w, s) then w
      else
        var c := w.consents[call];
        w.(grants := w.grants[c.grant.id := Written(c, at)], consents := w.consents - {call},
           log := w.log + [Decided(c.grant.id, c.tenant, c.subject, c.approve, at)])
    case AccessRead(call, _, actor, id) =>
      if !CanAccess(w, s) then w
      else w.(accesses := w.accesses[call := Access(w.grants[id], actor.id, w.now, 0)])
    case AccessAudit(call, at, recorded) =>
      if !CanAudit(w, s) then w
      else if !recorded then w.(accesses := w.accesses - {call})
      else
        var a := w.accesses[call];
        w.(accesses := w.accesses[call := a.(at := at)], log := w.log + [Accessed(a.grant.id, a.operator, at)])
    case AccessEnd(call, readOk) =>
      if !CanEnd(w, s) then w
      else if !readOk then w.(accesses := w.accesses - {call})
      else
        Counted(w, call).(accesses := w.accesses - {call})
  }

  function Start(now: nat): (w: World) {
    World(now, {}, map[], 0, map[], map[], [])
  }

  function Run(max: int, now: nat, steps: seq<Step>): (w: World) {
    if steps == [] then Start(now)
    else Do(max, Run(max, now, steps[..|steps| - 1]), steps[|steps| - 1])
  }

  // ---------------------------------------------------------------- every snapshot is justified

  predicate SameTerms(g: Grant, h: Grant) {
    && g.id == h.id && g.tenant == h.tenant && g.operator == h.operator
    && g.requestedAt == h.requestedAt && g.expiresAt == h.expiresAt
  }

  /** The grant's operator asked for it, on these terms and for no longer than allowed. */
  ghost predicate Asked(max: int, log: seq<Entry>, g: Grant) {
    && Requested(g.id, g.tenant, g.operator, g.requestedAt, g.expiresAt) in log
    && 0 < g.requestedAt <= g.expiresAt <= g.requestedAt + max
  }

  predicate Approves(e: Entry, g: Grant) {
    e.Decided? && e.id == g.id && e.tenant == g.tenant && e.approve
  }

  /** After the request, its tenant approved it. */
  ghost predicate Approved(max: int, log: seq<Entry>, g: Grant) {
    exists j: nat :: j < |log| && Approves(log[j], g) && Asked(max, log[..j], g)
  }

  /** After the approval, an access by its operator before it expired was audited. */
  ghost predicate Audited(max: int, log: seq<Entry>, g: Grant, at: nat) {
    at < g.expiresAt &&
    exists l: nat :: l < |log| && log[l] == Accessed(g.id, g.operator, at) && Approved(max, log[..l], g)
  }

  /** A snapshot rests on a request, an approval and an audited access, in that order. */
  ghost predicate Justified(max: int, log: seq<Entry>, e: Entry) {
    e.Snapshot? ==>
      exists g: Grant ::
        g.id == e.id && g.tenant == e.tenant && g.operator == e.operator && Audited(max, log, g, e.audited)
  }

  ghost predicate AllJustified(max: int, log: seq<Entry>) {
    forall k: nat :: k < |log| ==> Justified(max, log[..k], log[k])
  }

  lemma ApprovedGrows(max: int, log: seq<Entry>, more: seq<Entry>, g: Grant)
    requires Approved(max, log, g)
    ensures Approved(max, log + more, g)
  {
    var j: nat :| j < |log| && Approves(log[j], g) && Asked(max, log[..j], g);
    assert (log + more)[j] == log[j] && (log + more)[..j] == log[..j];
  }

  lemma AuditedGrows(max: int, log: seq<Entry>, more: seq<Entry>, g: Grant, at: nat)
    requires Audited(max, log, g, at)
    ensures Audited(max, log + more, g, at)
  {
    var l: nat :| l < |log| && log[l] == Accessed(g.id, g.operator, at) && Approved(max, log[..l], g);
    assert (log + more)[l] == log[l] && (log + more)[..l] == log[..l];
  }

  lemma ApprovedByTerms(max: int, log: seq<Entry>, g: Grant, h: Grant)
    requires Approved(max, log, g) && SameTerms(g, h)
    ensures Approved(max, log, h)
  {
    var j: nat :| j < |log| && Approves(log[j], g) && Asked(max, log[..j], g);
    assert Approves(log[j], h) && Asked(max, log[..j], h);
  }

  lemma JustifiedSnoc(max: int, log: seq<Entry>, e: Entry)
    requires AllJustified(max, log) && Justified(max, log, e)
    ensures AllJustified(max, log + [e])
  {
    var log' := log + [e];
    forall k: nat | k < |log'| ensures Justified(max, log'[..k], log'[k]) {
      if k < |log| {
        assert log'[..k] == log[..k] && Justified(max, log[..k], log[k]);
      } else {
        assert log'[..k] == log;
      }
    }
  }

  predicate Unsettled(g: Grant) { g.consentedAt == 0 && g.deniedAt == 0 }

  /** What is true of a grant in the store, and of any copy a call holds of one. */
  ghost predicate GrantOk(max: int, log: seq<Entry>, g: Grant) {
    && Asked(max, log, g) && g.revokedAt == 0
    && (g.consentedAt != 0 ==> Approved(max, log, g))
    && (Unsettled(g) ==> g.useCount == 0)
  }

  lemma GrantOkGrows(max: int, log: seq<Entry>, more: seq<Entry>, g: Grant)
    requires GrantOk(max, log, g)
    ensures GrantOk(max, log + more, g)
  {
    if g.consentedAt != 0 { ApprovedGrows(max, log, more, g); }
  }

  ghost predicate GrantsOk(max: int, log: seq<Entry>, grants: map<Text, Grant>) {
    forall id :: id in grants ==> grants[id].id == id && GrantOk(max, log, grants[id])
  }

  /** The same grant, no less settled. */
  predicate Onward(g: Grant, g': Grant) { SameTerms(g, g') && (Unsettled(g') ==> Unsettled(g)) }

  predicate Held(grants: map<Text, Grant>, g: Grant) { g.id in grants && Onward(g, grants[g.id]) }

  ghost predicate ConsentsOk(max: int, log: seq<Entry>, grants: map<Text, Grant>, now: nat, cs: map<nat, Consent>) {
    forall k :: k in cs ==>
      && Held(grants, cs[k].grant) && GrantOk(max, log, cs[k].grant) && 0 < cs[k].since <= now
      && cs[k].tenant == cs[k].grant.tenant
  }

  ghost predicate AccessOk(max: int, log: seq<Entry>, grants: map<Text, Grant>, a: Access) {
    && Held(grants, a.grant) && GrantOk(max, log, a.grant) && a.since > 0 && a.operator == a.grant.operator
    && (a.at != 0 ==> a.grant.consentedAt != 0 && Audited(max, log, a.grant, a.at))
  }

  ghost predicate AccessesOk(max: int, log: seq<Entry>, grants: map<Text, Grant>, accs: map<nat, Access>) {
    forall k :: k in accs ==> AccessOk(max, log, grants, accs[k])
  }

  ghost predicate Inv(max: int, w: World) {
    && w.now > 0
    && GrantsOk(max, w.log, w.grants)
    && ConsentsOk(max, w.log, w.grants, w.now, w.consents)
    && AccessesOk(max, w.log, w.grants, w.accesses)
    && AllJustified(max, w.log)
  }

  /** A longer log and a store that keeps every grant's terms leave calls in flight as good as before. */
  lemma InFlightKept(max: int, w: World, more: seq<Entry>, grants: map<Text, Grant>)
    requires ConsentsOk(max, w.log, w.grants, w.now, w.consents) && AccessesOk(max, w.log, w.grants, w.accesses)
    requires forall id :: id in w.grants ==> id in grants && Onward(w.grants[id], grants[id])
    ensures ConsentsOk(max, w.log + more, grants, w.now, w.consents)
    ensures AccessesOk(max, w.log + more, grants, w.accesses)
  {
    forall k | k in w.consents ensures GrantOk(max, w.log + more, w.consents[k].grant) {
      GrantOkGrows(max, w.log, more, w.consents[k].grant);
    }
    forall k | k in w.accesses ensures AccessOk(max, w.log + more, grants, w.accesses[k]) {
      var a := w.accesses[k];
      GrantOkGrows(max, w.log, more, a.grant);
      if a.at != 0 { AuditedGrows(max, w.log, more, a.grant, a.at); }
    }
  }

  lemma GrantsKept(max: int, log: seq<Entry>, more: seq<Entry>, grants: map<Text, Grant>, g: Grant)
    requires GrantsOk(max, log, grants) && GrantOk(max, log + more, g)
    ensures GrantsOk(max, log + more, grants[g.id := g])
  {
    var grants' := grants[g.id := g];
    forall k | k in grants' ensures grants'[k].id == k && GrantOk(max, log + more, grants'[k]) {
      if k != g.id { GrantOkGrows(max, log, more, grants[k]); }
    }
  }

  /** One more entry and one more or newer grant keep everything said of the rest. */
  lemma Extended(max: int, w: World, e: Entry, g: Grant)
    requires Inv(max, w) && GrantOk(max, w.log + [e], g)
    requires g.id in w.grants ==> Onward(w.grants[g.id], g)
    requires Justified(max, w.log, e)
    ensures Inv(max, w.(log := w.log + [e], grants := w.grants[g.id := g]))
  {
    GrantsKept(max, w.log, [e], w.grants, g);
    InFlightKept(max, w, [e], w.grants[g.id := g]);
    JustifiedSnoc(max, w.log, e);
  }

  lemma CallsEnd(max: int, w: World, call: nat)
    requires Inv(max, w)
    ensures Inv(max, w.(consents := w.consents - {call})) && Inv(max, w.(accesses := w.accesses - {call}))
  {
  }

  lemma RequestKeeps(max: int, w: World, s: Step)
    requires Inv(max, w) && s.Request? && CanAsk(max, w, s) && GrantId(w.nextGrant + 1) !in w.grants
    ensures Inv(max, Do(max, w, s))
  {
    var g := NewGrant(GrantId(w.nextGrant + 1), s);
    var e := Requested(g.id, g.tenant, g.operator, g.requestedAt, g.expiresAt);
    assert e in w.log + [e] && GrantOk(max, w.log + [e], g);
    Extended(max, w, e, g);
  }

  /** The grant a consent writes back is on record as decided. */
  lemma WrittenIsOk(max: int, log: seq<Entry>, c: Consent, at: nat)
    requires GrantOk(max, log, c.grant) && at > 0 && c.tenant == c.grant.tenant
    ensures GrantOk(max, log + [Decided(c.grant.id, c.tenant, c.subject, c.approve, at)], Written(c, at))
    ensures Onward(c.grant, Written(c, at)) && !Unsettled(Written(c, at))
  {
    var e := Decided(c.grant.id, c.tenant, c.subject, c.approve, at);
    var g := Written(c, at);
    if c.approve {
      assert Approves((log + [e])[|log|], g) && (log + [e])[..|log|] == log && Asked(max, log, g);
    } else if c.grant.consentedAt != 0 {
      ApprovedGrows(max, log, [e], c.grant);
      ApprovedByTerms(max, log + [e], c.grant, g);
    }
  }

  lemma ConsentWriteKeeps(max: int, w: World, s: Step)
    requires Inv(max, w) && s.ConsentWrite? && CanWrite(w, s)
    ensures Inv(max, Do(max, w, s))
  {
    var c := w.consents[s.call];
    WrittenIsOk(max, w.log, c, s.at);
    var e := Decided(c.grant.id, c.tenant, c.subject, c.approve, s.at);
    var g := Written(c, s.at);
    Extended(max, w, e, g);
    CallsEnd(max, w.(log := w.log + [e], grants := w.grants[g.id := g]), s.call);
  }

  /** An audited access of an active grant is one after its approval. */
  lemma AuditIsOk(max: int, log: seq<Entry>, g: Grant, at: nat)
    requires GrantOk(max, log, g) && StateAt(g, at) == Active
    ensures Audited(max, log + [Accessed(g.id, g.operator, at)], g, at)
  {
    var log' := log + [Accessed(g.id, g.operator, at)];
    assert log'[|log|] == Accessed(g.id, g.operator, at) && log'[..|log|] == log;
  }

  lemma AccessReplaced(max: int, w: World, call: nat, a: Access)
    requires Inv(max, w) && AccessOk(max, w.log, w.grants, a)
    ensures Inv(max, w.(accesses := w.accesses[call := a]))
  {
  }

  lemma AccessAuditKeeps(max: int, w: World, s: Step)
    requires Inv(max, w) && s.AccessAudit? && CanAudit(w, s) && s.recorded
    ensures Inv(max, Do(max, w, s))
  {
    var a := w.accesses[s.call];
    var e := Accessed(a.grant.id, a.operator, s.at);
    assert AccessOk(max, w.log, w.grants, a);
    var stored := w.grants[a.grant.id];
    GrantOkGrows(max, w.log, [e], stored);
    Extended(max, w, e, stored);
    assert w.grants[stored.id := stored] == w.grants;
    AuditIsOk(max, w.log, a.grant, s.at);
    AccessReplaced(max, w.(log := w.log + [e]), s.call, a.(at := s.at));
  }

  lemma CountedIsOk(max: int, log: seq<Entry>, more: seq<Entry>, g: Grant)
    requires GrantOk(max, log, g) && !Unsettled(g)
    ensures GrantOk(max, log + more, g.(useCount := g.useCount + 1))
  {
    if g.consentedAt != 0 {
      ApprovedGrows(max, log, more, g);
      ApprovedByTerms(max, log + more, g, g.(useCount := g.useCount + 1));
    }
  }

  /** The facts about an audited access and its grant. */
  lemma AccessFacts(max: int, w: World, call: nat)
    requires Inv(max, w) && call in w.accesses && w.accesses[call].at != 0
    ensures var a := w.accesses[call];
            && a.grant.id in w.grants && w.grants[a.grant.id].id == a.grant.id && !Unsettled(w.grants[a.grant.id])
            && Audited(max, w.log, a.grant, a.at) && a.operator == a.grant.operator
            && GrantOk(max, w.log, w.grants[a.grant.id])
  {
    assert AccessOk(max, w.log, w.grants, w.accesses[call]);
  }

  lemma CountedIs(w: World, call: nat, e: Entry, g': Grant)
    requires call in w.accesses && w.accesses[call].grant.id in w.grants
    requires var a := w.accesses[call];
             var g := w.grants[a.grant.id];
             && g.id == a.grant.id && g' == g.(useCount := g.useCount + 1)
             && e == Snapshot(a.grant.id, a.grant.tenant, a.operator, a.at, w.now)
    ensures Counted(w, call) == w.(log := w.log + [e], grants := w.grants[g'.id := g'])
  {
  }

  lemma CountedKeeps(max: int, w: World, call: nat)
    requires Inv(max, w) && call in w.accesses && w.accesses[call].at != 0 && w.accesses[call].grant.id in w.grants
    ensures Inv(max, Counted(w, call))
  {
    AccessFacts(max, w, call);
    var a := w.accesses[call];
    var g := w.grants[a.grant.id];
    var g' := g.(useCount := g.useCount + 1);
    var e := Snapshot(a.grant.id, a.grant.tenant, a.operator, a.at, w.now);
    var w' := w.(log := w.log + [e], grants := w.grants[g'.id := g']);
    assert Inv(max, w') by {
      CountedIsOk(max, w.log, [e], g);
      assert Justified(max, w.log, e);
      Extended(max, w, e, g');
    }
    CountedIs(w, call, e, g');
  }

  // ---------------------------------------------------------------- ids are never reused

  ghost predicate Issued(id: Text, next: nat) {
    exists n: nat :: n <= next && id == GrantId(n)
  }

  /** Every grant has an id given out before, and everything logged is about a grant there is. */
  ghost predicate NamesOk(w: World) {
    && (forall id :: id in w.grants ==> Issued(id, w.nextGrant))
    && (forall e :: e in w.log ==> e.id in w.grants)
  }

  lemma NewIdIsFree(w: World)
    requires NamesOk(w)
    ensures GrantId(w.nextGrant + 1) !in w.grants
  {
    var id := GrantId(w.nextGrant + 1);
    if id in w.grants {
      var n: nat :| n <= w.nextGrant && id == GrantId(n);
      GrantIdsAreUnique(n, w.nextGrant + 1);
    }
  }

  lemma IssuedStays(id: Text, next: nat)
    requires Issued(id, next)
    ensures Issued(id, next + 1)
  {
    var n: nat :| n <= next && id == GrantId(n);
    assert n <= next + 1 && id == GrantId(n);
  }

  /** Any other step leaves the store alone and logs at most an audited access. */
  lemma OthersOnlyAudit(max: int, w: World, s: Step)
    requires !(s.Request? && CanAsk(max, w, s)) && !(s.ConsentWrite? && CanWrite(w, s))
    requires !(s.AccessEnd? && CanEnd(w, s) && s.readOk)
    ensures Do(max, w, s).grants == w.grants
    ensures var log := Do(max, w, s).log;
            log == w.log || (|log| == |w.log| + 1 && log == w.log + [log[|w.log|]] && log[|w.log|].Accessed?)
  {
  }

  /** One more entry about a grant there is, or about the one added. */
  lemma NamesGrow(w: World, e: Entry, id: Text, g: Grant, next': nat)
    requires NamesOk(w) && (next' == w.nextGrant || next' == w.nextGrant + 1) && Issued(id, next') && e.id == id
    ensures NamesOk(w.(log := w.log + [e], grants := w.grants[id := g], nextGrant := next'))
  {
    forall x | x in w.grants ensures Issued(x, next') {
      if next' != w.nextGrant { IssuedStays(x, w.nextGrant); }
    }
  }

  lemma StepKeepsNames(max: int, w: World, s: Step)
    requires NamesOk(w) && Inv(max, w)
    ensures NamesOk(Do(max, w, s))
  {
    if s.ConsentWrite? && CanWrite(w, s) {
      var c := w.consents[s.call];
      NamesGrow(w, Decided(c.grant.id, c.tenant, c.subject, c.approve, s.at), c.grant.id, Written(c, s.at),
                w.nextGrant);
    } else if s.AccessEnd? && CanEnd(w, s) && s.readOk {
      var a := w.accesses[s.call];
      var g := w.grants[a.grant.id];
      NamesGrow(w, Snapshot(a.grant.id, a.grant.tenant, a.operator, a.at, w.now), a.grant.id,
                g.(useCount := g.useCount + 1), w.nextGrant);
    } else if s.Request? && CanAsk(max, w, s) {
      var g := NewGrant(GrantId(w.nextGrant + 1), s);
      assert Issued(g.id, w.nextGrant + 1);
      NamesGrow(w, Requested(g.id, s.tenant, s.actor.id, g.requestedAt, g.expiresAt), g.id, g, w.nextGrant + 1);
    } else {
      OtherNames(max, w, s);
    }
  }

  lemma OtherNames(max: int, w: World, s: Step)
    requires NamesOk(w) && Inv(max, w)
    requires !(s.Request? && CanAsk(max, w, s)) && !(s.ConsentWrite? && CanWrite(w, s))
    requires !(s.AccessEnd? && CanEnd(w, s) && s.readOk)
    ensures NamesOk(Do(max, w, s))
  {
    OthersOnlyAudit(max, w, s);
    if s.AccessAudit? && CanAudit(w, s) { assert AccessOk(max, w.log, w.grants, w.accesses[s.call]); }
  }

  /** Steps that only read, pass time or give up. */
  lemma QuietKeepsInv(max: int, w: World, s: Step)
    requires Inv(max, w)
    requires !(s.Request? && CanAsk(max, w, s)) && !(s.ConsentWrite? && CanWrite(w, s))
    requires !(s.AccessAudit? && CanAudit(w, s) && s.recorded) && !(s.AccessEnd? && CanEnd(w, s) && s.readOk)
    ensures Inv(max, Do(max, w, s))
  {
    if s.AccessAudit? || s.AccessEnd? { CallsEnd(max, w, s.call); }
  }

  lemma StepKeepsInv(max: int, w: World, s: Step)
    requires Inv(max, w) && NamesOk(w)
    ensures Inv(max, Do(max, w, s))
  {
    if s.Request? && CanAsk(max, w, s) {
      NewIdIsFree(w);
      RequestKeeps(max, w, s);
    } else if s.ConsentWrite? && CanWrite(w, s) {
      ConsentWriteKeeps(max, w, s);
    } else if s.AccessAudit? && CanAudit(w, s) && s.recorded {
      AccessAuditKeeps(max, w, s);
    } else if s.AccessEnd? && CanEnd(w, s) && s.readOk {
      CountedKeeps(max, w, s.call);
      CallsEnd(max, Counted(w, s.call), s.call);
    } else {
      QuietKeepsInv(max, w, s);
    }
  }

  /** In every run, whatever interleaves, every snapshot returned is justified. */
  lemma {:induction false} RunKeepsInv(max: int, now: nat, steps: seq<Step>)
    requires now > 0
    ensures Inv(max, Run(max, now, steps)) && NamesOk(Run(max, now, steps))
  {
    if steps != [] {
      var n := |steps| - 1;
      RunKeepsInv(max, now, steps[..n]);
      StepKeepsInv(max, Run(max, now, steps[..n]), steps[n]);
      StepKeepsNames(max, Run(max, now, steps[..n]), steps[n]);
    }
  }
}
