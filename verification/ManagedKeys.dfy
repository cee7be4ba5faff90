/**
 The managed-key lifecycle of ee/managedkeys: generate, rotate, revoke and zeroize remote keys, under
 dual control, deduplicated, and recorded as events. A run is any sequence of calls, the answers of the
 provider, the approval gate and the event sink being part of each call.
 */
module ManagedKeys {

  datatype KeyState = Active | Revoked | Zeroized

  datatype EventType = KeyGenerated | KeyRotated | KeyRevoked | KeyZeroized

  datatype Action = Rotate | Revoke | Zeroize

  /** byok.LifecycleEvent, without the constant fields and the time. */
  datatype Event = Event(
    typ: EventType, tenant: string, keyId: string, version: nat, algorithm: string, pub: string, superseded: nat)

  /** The service's bookkeeping for one key; the tenant is the one it was generated for. */
  datatype Rec = Rec(tenant: string, id: string, algorithm: string, version: nat, state: KeyState, pub: string)

  datatype Result = Result(keyId: string, algorithm: string, version: nat, state: KeyState, pub: string)

  /**
   The calls made to others, in order, with their answers: the gate asked about a caller's tenant, key and action,
   and the provider told to generate a key for a tenant, or to act on one, with the tenant it was generated for.
   */
  datatype Call =
    | Asked(tenant: string, keyId: string, action: Action, yes: bool)
    | Generated(tenant: string, answer: Answer)
    | Destructive(tenant: string, keyId: string, action: Action, answer: Answer)

  datatype State = State(
    keys: map<string, Rec>,
    log: seq<Event>,
    calls: seq<Call>,
    minted: set<string>,
    cache: Cache)

  const EMPTY := State(map[], [], [], {}, map[])

  datatype Config = Config(gated: bool, deduped: bool)

  /** The provider's answer: a failure, or a key handle and its public key. */
  datatype Answer = Fails | Yields(id: string, algorithm: string, pub: string)

  datatype Input =
    | Generate(tenant: string, idemKey: string, answer: Answer, emitted: bool)
    | Act(action: Action, tenant: string, keyId: string, idemKey: string, approved: bool, answer: Answer, emitted: bool)

  // ---------------------------------------------------------------- index keys

  const NUL := "\0"

  function MapKey(tenant: string, keyId: string): (k: string) {
    tenant + NUL + keyId
  }

  /** Neither tenant id continues the other after a NUL. */
  predicate Apart(t: string, u: string) {
    t == u || (!(t + NUL <= u) && !(u + NUL <= t))
  }

  /** Two tenants can never meet under one index key exactly when their ids are apart. */
  lemma IndexSeparatesTenants(t: string, u: string)
    requires t != u
    ensures (forall k: string, l: string :: MapKey(t, k) != MapKey(u, l)) <==> Apart(t, u)
  {
    if Apart(t, u) {
      forall k: string, l: string ensures MapKey(t, k) != MapKey(u, l) {
        if MapKey(t, k) == MapKey(u, l) { SameIndexKey(t, k, u, l); }
      }
    } else if t + NUL <= u {
      var rest := u[|t| + 1..];
      assert MapKey(t, rest + NUL) == u + NUL == MapKey(u, "") by {
        assert t + NUL + (rest + NUL) == (t + NUL + rest) + NUL;
        assert t + NUL + rest == u;
        assert u + NUL + "" == u + NUL;
      }
    } else {
      var rest := t[|u| + 1..];
      assert MapKey(u, rest + NUL) == t + NUL == MapKey(t, "") by {
        assert u + NUL + (rest + NUL) == (u + NUL + rest) + NUL;
        assert u + NUL + rest == t;
        assert t + NUL + "" == t + NUL;
      }
    }
  }

  lemma LongerTenantContinues(t: string, k: string, u: string, l: string)
    requires MapKey(t, k) == MapKey(u, l) && |t| < |u|
    ensures t + NUL <= u
  {
    var m := MapKey(t, k);
    assert u == m[..|u|];
    assert t + NUL == m[..|t| + 1];
  }

  lemma SameIndexKey(t: string, k: string, u: string, l: string)
    requires MapKey(t, k) == MapKey(u, l) && Apart(t, u)
    ensures t == u && k == l
  {
    if |t| < |u| {
      LongerTenantContinues(t, k, u, l);
    } else if |u| < |t| {
      LongerTenantContinues(u, l, t, k);
    } else {
      var m := MapKey(t, k);
      assert t == m[..|t|] == u && k == m[|t| + 1..] == l;
    }
  }

  // ---------------------------------------------------------------- steps

  function ResultOf(r: Rec): (res: Result) {
    Result(r.id, r.algorithm, r.version, r.state, r.pub)
  }

  function EventOf(typ: EventType, tenant: string, r: Rec, superseded: nat): (e: Event) {
    Event(typ, tenant, r.id, r.version, r.algorithm, r.pub, superseded)
  }

  function TypeOf(action: Action): (typ: EventType) {
    match action
    case Rotate => KeyRotated
    case Revoke => KeyRevoked
    case Zeroize => KeyZeroized
  }

  type Cache = map<(string, string), Result>

  /** The call's idempotency key already has a result. */
  predicate Replays(cfg: Config, cache: Cache, tenant: string, idemKey: string) {
    cfg.deduped && idemKey != "" && (tenant, idemKey) in cache
  }

  /** The results kept once a call has succeeded. */
  function Kept(cfg: Config, cache: Cache, tenant: string, idemKey: string, r: Rec): (cache': Cache) {
    if cfg.deduped && idemKey != "" then cache[(tenant, idemKey) := ResultOf(r)] else cache
  }

  /** The record after the provider has done what was asked. */
  function Changed(r: Rec, action: Action, answer: Answer): (r': Rec)
    requires answer.Yields?
  {
    match action
    case Rotate =>
      r.(id := answer.id, algorithm := answer.algorithm, pub := answer.pub, version := r.version + 1, state := Active)
    case Revoke => r.(state := Revoked)
    case Zeroize => r.(state := Zeroized)
  }

  /** A provider hands out a new id or, when rotating, may keep the one it has. */
  predicate AnswerOk(minted: set<string>, current: string, action: Action, answer: Answer) {
    answer.Yields? && (action == Rotate ==> answer.id == current || answer.id !in minted)
  }

  /** A key is generated under an id that is new. */
  predicate IsFresh(minted: set<string>, answer: Answer) {
    answer.Yields? && answer.id !in minted
  }

  /** The call to the provider about a record, with the answer it counts as. */
  function Telling(minted: set<string>, r: Rec, action: Action, answer: Answer): (c: Call) {
    Destructive(r.tenant, r.id, action, if AnswerOk(minted, r.id, action, answer) then answer else Fails)
  }

  /** The record in its new place: re-indexed when the provider's id changed. */
  function Reindexed(keys: map<string, Rec>, tenant: string, mk: string, r: Rec, r': Rec): (keys': map<string, Rec>) {
    if r'.id != r.id then (keys[mk := r'] - {MapKey(tenant, r.id)})[MapKey(tenant, r'.id) := r']
    else keys[mk := r']
  }

  function StepGenerate(cfg: Config, s: State, i: Input): (s': State)
    requires i.Generate?
  {
    if i.tenant == "" || Replays(cfg, s.cache, i.tenant, i.idemKey) then s
    else if !IsFresh(s.minted, i.answer) then s.(calls := s.calls + [Generated(i.tenant, Fails)])
    else
      var r := Rec(i.tenant, i.answer.id, i.answer.algorithm, 1, Active, i.answer.pub);
      var s1 := s.(minted := s.minted + {r.id}, calls := s.calls + [Generated(i.tenant, i.answer)]);
      if !i.emitted then s1
      else
        s1.(log := s.log + [EventOf(KeyGenerated, i.tenant, r, 0)], keys := s.keys[MapKey(i.tenant, r.id) := r],
            cache := Kept(cfg, s.cache, i.tenant, i.idemKey, r))
  }

  /** The provider call, the in-place change and the emit, on a key that was found. */
  function Transition(cfg: Config, s: State, i: Input): (s': State)
    requires i.Act? && MapKey(i.tenant, i.keyId) in s.keys
  {
    var mk := MapKey(i.tenant, i.keyId);
    var r := s.keys[mk];
    var s1 := s.(calls := s.calls + [Telling(s.minted, r, i.action, i.answer)]);
    if !AnswerOk(s.minted, r.id, i.action, i.answer) then s1
    else
      var r' := Changed(r, i.action, i.answer);
      var s2 := s1.(keys := Reindexed(s.keys, i.tenant, mk, r, r'), minted := s.minted + {r'.id});
      if !i.emitted then s2
      else
        var superseded := if i.action == Rotate then r.version else 0;
        s2.(log := s.log + [EventOf(TypeOf(i.action), i.tenant, r', superseded)],
            cache := Kept(cfg, s.cache, i.tenant, i.idemKey, r'))
  }

  function StepAct(cfg: Config, s: State, i: Input): (s': State)
    requires i.Act?
  {
    if i.tenant == "" || i.keyId == "" || Replays(cfg, s.cache, i.tenant, i.idemKey) then s
    else
      var s1 := if cfg.gated then s.(calls := s.calls + [Asked(i.tenant, i.keyId, i.action, i.approved)]) else s;
      if cfg.gated && !i.approved then s1
      else if MapKey(i.tenant, i.keyId) !in s.keys then s1
      else Transition(cfg, s1, i)
  }

  function Step(cfg: Config, s: State, i: Input): (s': State) {
    match i
    case Generate(_, _, _, _) => StepGenerate(cfg, s, i)
    case Act(_, _, _, _, _, _, _) => StepAct(cfg, s, i)
  }

  function Run(cfg: Config, inputs: seq<Input>): (s: State) {
    if inputs == [] then EMPTY else Step(cfg, Run(cfg, inputs[..|inputs| - 1]), inputs[|inputs| - 1])
  }

  // ---------------------------------------------------------------- what holds in every run

  /** The call names one of these tenants, or none, and then it is refused. */
  predicate From(i: Input, tenants: set<string>) { i.tenant == "" || i.tenant in tenants }

  ghost predicate AllApart(tenants: set<string>) {
    forall t, u :: t in tenants && u in tenants ==> Apart(t, u)
  }

  ghost predicate OwnPlace(mk: string, r: Rec, minted: set<string>, tenants: set<string>) {
    mk == MapKey(r.tenant, r.id) && r.tenant in tenants && r.id in minted
  }

  /** Each record is under its own tenant and id, and no id is held twice. */
  ghost predicate Indexed(keys: map<string, Rec>, minted: set<string>, tenants: set<string>) {
    && (forall mk :: mk in keys ==> OwnPlace(mk, keys[mk], minted, tenants))
    && (forall mk, nk :: mk in keys && nk in keys && mk != nk ==> keys[mk].id != keys[nk].id)
  }

  /** The last event about this tenant's key, if any. */
  function LastEvent(log: seq<Event>, tenant: string, keyId: string): (e: seq<Event>)
    ensures |e| <= 1
    ensures forall x :: x in e ==> x in log && x.tenant == tenant && x.keyId == keyId
  {
    if log == [] then []
    else
      var last := log[|log| - 1];
      if last.tenant == tenant && last.keyId == keyId then [last]
      else LastEvent(log[..|log| - 1], tenant, keyId)
  }

  predicate TypeMatches(typ: EventType, state: KeyState) {
    match state
    case Active => typ == KeyGenerated || typ == KeyRotated
    case Revoked => typ == KeyRevoked
    case Zeroized => typ == KeyZeroized
  }

  predicate Describes(e: Event, r: Rec) {
    && e.tenant == r.tenant && e.keyId == r.id && e.version == r.version && e.pub == r.pub
    && e.algorithm == r.algorithm && TypeMatches(e.typ, r.state)
  }

  /** The log's last word on the key is its current generation. */
  predicate LogAgrees(log: seq<Event>, r: Rec) {
    var last := LastEvent(log, r.tenant, r.id);
    |last| == 1 && Describes(last[0], r)
  }

  ghost predicate AllAgree(keys: map<string, Rec>, log: seq<Event>) {
    forall mk :: mk in keys ==> LogAgrees(log, keys[mk])
  }

  predicate EventOk(e: Event, minted: set<string>) {
    && e.keyId in minted
    && (e.typ == KeyRotated ==> e.version >= 1 && e.superseded == e.version - 1)
  }

  /** Only minted ids are logged, and each rotation names the version before its own. */
  ghost predicate LogOk(log: seq<Event>, minted: set<string>) {
    forall e :: e in log ==> EventOk(e, minted)
  }

  predicate ApprovedAt(calls: seq<Call>, i: nat)
    requires i < |calls|
  {
    calls[i].Destructive? ==>
      0 < i && calls[i - 1] == Asked(calls[i].tenant, calls[i].keyId, calls[i].action, true)
  }

  /** Every destructive call on a tenant's key directly follows the gate's yes to that action on it for that tenant. */
  ghost predicate AllApproved(calls: seq<Call>) {
    forall i: nat :: i < |calls| ==> ApprovedAt(calls, i)
  }

  ghost predicate Inv(cfg: Config, s: State, tenants: set<string>) {
    && Indexed(s.keys, s.minted, tenants)
    && LogOk(s.log, s.minted)
    && (cfg.gated ==> AllApproved(s.calls))
  }

  lemma LastEventSnoc(log: seq<Event>, e: Event, tenant: string, keyId: string)
    ensures LastEvent(log + [e], tenant, keyId) ==
            if e.tenant == tenant && e.keyId == keyId then [e] else LastEvent(log, tenant, keyId)
  {
    assert (log + [e])[..|log|] == log;
  }

  /** An event about one key leaves agreement on the records of all others alone. */
  lemma OthersStillAgree(log: seq<Event>, e: Event, r: Rec)
    requires e.keyId != r.id
    ensures LogAgrees(log + [e], r) == LogAgrees(log, r)
  {
    LastEventSnoc(log, e, r.tenant, r.id);
  }

  lemma OwnEventAgrees(log: seq<Event>, e: Event, r: Rec)
    requires Describes(e, r)
    ensures LogAgrees(log + [e], r)
  {
    LastEventSnoc(log, e, r.tenant, r.id);
  }

  lemma GenerateKeeps(cfg: Config, s: State, i: Input, tenants: set<string>)
    requires i.Generate? && i.tenant in tenants && Inv(cfg, s, tenants)
    ensures Inv(cfg, StepGenerate(cfg, s, i), tenants)
  {
    var s' := StepGenerate(cfg, s, i);
    if cfg.gated && s'.calls != s.calls { ApprovedSnoc(s.calls, s'.calls[|s.calls|]); }
  }

  lemma GenerateAgrees(cfg: Config, s: State, i: Input, tenants: set<string>)
    requires i.Generate? && i.tenant in tenants && Inv(cfg, s, tenants)
    ensures AllAgree(s.keys, s.log) ==>
              AllAgree(StepGenerate(cfg, s, i).keys, StepGenerate(cfg, s, i).log)
  {
    var s' := StepGenerate(cfg, s, i);
    if s'.log != s.log {
      var r := Rec(i.tenant, i.answer.id, i.answer.algorithm, 1, Active, i.answer.pub);
      var e := EventOf(KeyGenerated, i.tenant, r, 0);
      if AllAgree(s.keys, s.log) {
        forall mk | mk in s'.keys ensures LogAgrees(s'.log, s'.keys[mk]) {
          if mk == MapKey(r.tenant, r.id) { OwnEventAgrees(s.log, e, r); }
          else { OthersStillAgree(s.log, e, s.keys[mk]); }
        }
      }
    }
  }

  // ---------------------------------------------------------------- destructive steps

  /** The record a destructive call is about is the caller's own: same tenant, same id. */
  lemma FoundIsOwn(s: State, tenants: set<string>, tenant: string, keyId: string)
    requires AllApart(tenants) && tenant in tenants && Indexed(s.keys, s.minted, tenants)
    requires MapKey(tenant, keyId) in s.keys
    ensures s.keys[MapKey(tenant, keyId)].tenant == tenant && s.keys[MapKey(tenant, keyId)].id == keyId
  {
    var r := s.keys[MapKey(tenant, keyId)];
    assert OwnPlace(MapKey(tenant, keyId), r, s.minted, tenants);
    SameIndexKey(tenant, keyId, r.tenant, r.id);
  }

  /** Moving a record to its successor's id keeps the index. */
  lemma ReindexedKeepsIndex(keys: map<string, Rec>, minted: set<string>, tenants: set<string>, r: Rec, r': Rec)
    requires Indexed(keys, minted, tenants)
    requires MapKey(r.tenant, r.id) in keys && keys[MapKey(r.tenant, r.id)] == r
    requires r'.tenant == r.tenant && (r'.id == r.id || r'.id !in minted)
    ensures Indexed(Reindexed(keys, r.tenant, MapKey(r.tenant, r.id), r, r'), minted + {r'.id}, tenants)
  {
    var mk := MapKey(r.tenant, r.id);
    assert OwnPlace(mk, r, minted, tenants);
    var keys' := Reindexed(keys, r.tenant, mk, r, r');
    var mk' := MapKey(r.tenant, r'.id);
    assert forall nk :: nk in keys' && nk != mk' ==> nk in keys && nk != mk && keys'[nk] == keys[nk];
    assert forall nk :: nk in keys' && nk != mk' ==> keys[nk].id != r.id && keys[nk].id in minted by {
      forall nk | nk in keys' && nk != mk' ensures keys[nk].id != r.id && keys[nk].id in minted {
        assert OwnPlace(nk, keys[nk], minted, tenants);
      }
    }
    assert keys'[mk'] == r';
  }

  /** The places other than the moved record's hold what they held. */
  lemma ReindexedElsewhere(keys: map<string, Rec>, r: Rec, r': Rec, nk: string)
    requires MapKey(r.tenant, r.id) in keys && nk != MapKey(r.tenant, r'.id)
    ensures var keys' := Reindexed(keys, r.tenant, MapKey(r.tenant, r.id), r, r');
            nk in keys' <==> nk in keys && nk != MapKey(r.tenant, r.id)
    ensures var keys' := Reindexed(keys, r.tenant, MapKey(r.tenant, r.id), r, r');
            nk in keys' ==> keys'[nk] == keys[nk]
  {
  }

  /** This call gets as far as the provider. */
  predicate Reaches(cfg: Config, s: State, i: Input) {
    && i.Act? && i.tenant != "" && i.keyId != "" && !Replays(cfg, s.cache, i.tenant, i.idemKey)
    && (cfg.gated ==> i.approved) && MapKey(i.tenant, i.keyId) in s.keys
  }

  /** The provider does the work, the event is lost, and the record is no longer what it was. */
  predicate SilentChange(cfg: Config, s: State, i: Input) {
    && Reaches(cfg, s, i) && !i.emitted
    && var r := s.keys[MapKey(i.tenant, i.keyId)];
       AnswerOk(s.minted, r.id, i.action, i.answer) && Changed(r, i.action, i.answer) != r
  }

  ghost predicate GateAnswered(cfg: Config, s: State, i: Input)
    requires i.Act?
  {
    cfg.gated ==> |s.calls| > 0 && s.calls[|s.calls| - 1] == Asked(i.tenant, i.keyId, i.action, true)
  }

  lemma ApprovedSnoc(calls: seq<Call>, c: Call)
    requires AllApproved(calls)
    requires c.Destructive? ==>
               |calls| > 0 && calls[|calls| - 1] == Asked(c.tenant, c.keyId, c.action, true)
    ensures AllApproved(calls + [c])
  {
    forall i: nat | i < |calls + [c]| ensures ApprovedAt(calls + [c], i) {
      if i < |calls| { assert ApprovedAt(calls, i); }
    }
  }

  lemma TransitionKeeps(cfg: Config, s: State, i: Input, tenants: set<string>)
    requires AllApart(tenants) && i.Act? && i.tenant in tenants && Inv(cfg, s, tenants)
    requires MapKey(i.tenant, i.keyId) in s.keys && GateAnswered(cfg, s, i)
    ensures Inv(cfg, Transition(cfg, s, i), tenants)
  {
    FoundIsOwn(s, tenants, i.tenant, i.keyId);
    var r := s.keys[MapKey(i.tenant, i.keyId)];
    if cfg.gated { ApprovedSnoc(s.calls, Telling(s.minted, r, i.action, i.answer)); }
    if AnswerOk(s.minted, r.id, i.action, i.answer) {
      ReindexedKeepsIndex(s.keys, s.minted, tenants, r, Changed(r, i.action, i.answer));
      var s' := Transition(cfg, s, i);
      forall e | e in s'.log ensures EventOk(e, s'.minted) {
        if e in s.log { assert EventOk(e, s.minted); }
      }
    }
  }

  lemma StepKeeps(cfg: Config, s: State, i: Input, tenants: set<string>)
    requires AllApart(tenants) && From(i, tenants) && Inv(cfg, s, tenants)
    ensures Inv(cfg, Step(cfg, s, i), tenants)
  {
    if i.tenant == "" {
      assert Step(cfg, s, i) == s;
    } else if i.Generate? {
      GenerateKeeps(cfg, s, i, tenants);
    } else {
      var c := Asked(i.tenant, i.keyId, i.action, i.approved);
      var s1 := if cfg.gated then s.(calls := s.calls + [c]) else s;
      if cfg.gated { ApprovedSnoc(s.calls, c); }
      if Reaches(cfg, s, i) { TransitionKeeps(cfg, s1, i, tenants); }
    }
  }

  // ---------------------------------------------------------------- the log against the records

  /** With its event on the log, the changed record agrees and so do all the others. */
  lemma LoggedTransitionAgrees(keys: map<string, Rec>, log: seq<Event>, minted: set<string>, tenants: set<string>,
                               r: Rec, r': Rec, e: Event)
    requires Indexed(keys, minted, tenants) && AllAgree(keys, log)
    requires MapKey(r.tenant, r.id) in keys && keys[MapKey(r.tenant, r.id)] == r
    requires r'.tenant == r.tenant && (r'.id == r.id || r'.id !in minted) && Describes(e, r')
    ensures AllAgree(Reindexed(keys, r.tenant, MapKey(r.tenant, r.id), r, r'), log + [e])
  {
    var mk' := MapKey(r.tenant, r'.id);
    var keys' := Reindexed(keys, r.tenant, MapKey(r.tenant, r.id), r, r');
    forall nk | nk in keys' ensures LogAgrees(log + [e], keys'[nk]) {
      if nk == mk' {
        OwnEventAgrees(log, e, r');
      } else {
        ReindexedElsewhere(keys, r, r', nk);
        assert OwnPlace(nk, keys[nk], minted, tenants);
        OthersStillAgree(log, e, keys[nk]);
      }
    }
  }

  lemma {:induction false} NeverLogged(log: seq<Event>, minted: set<string>, tenant: string, keyId: string)
    requires LogOk(log, minted) && keyId !in minted
    ensures LastEvent(log, tenant, keyId) == []
  {
    if log != [] {
      assert EventOk(log[|log| - 1], minted);
      NeverLogged(log[..|log| - 1], minted, tenant, keyId);
    }
  }

  /** Without it, agreement survives exactly when the record did not change. */
  lemma SilentTransitionAgrees(keys: map<string, Rec>, log: seq<Event>, minted: set<string>, tenants: set<string>,
                               r: Rec, action: Action, answer: Answer)
    requires Indexed(keys, minted, tenants) && AllAgree(keys, log) && LogOk(log, minted)
    requires MapKey(r.tenant, r.id) in keys && keys[MapKey(r.tenant, r.id)] == r
    requires answer.Yields? && (action == Rotate ==> answer.id == r.id || answer.id !in minted)
    ensures var r' := Changed(r, action, answer);
            AllAgree(Reindexed(keys, r.tenant, MapKey(r.tenant, r.id), r, r'), log) <==> r' == r
  {
    var r' := Changed(r, action, answer);
    var mk := MapKey(r.tenant, r.id);
    var keys' := Reindexed(keys, r.tenant, mk, r, r');
    if r' == r {
      assert keys' == keys;
    } else {
      assert MapKey(r.tenant, r'.id) in keys' && keys'[MapKey(r.tenant, r'.id)] == r';
      assert LogAgrees(log, r);
      if r'.id != r.id {
        NeverLogged(log, minted, r'.tenant, r'.id);
      }
      assert !LogAgrees(log, r');
    }
  }

  /** One call keeps the log in agreement with the records exactly when it is not a silent change. */
  lemma StepAgreement(cfg: Config, s: State, i: Input, tenants: set<string>)
    requires AllApart(tenants) && From(i, tenants) && Inv(cfg, s, tenants) && AllAgree(s.keys, s.log)
    ensures AllAgree(Step(cfg, s, i).keys, Step(cfg, s, i).log) <==> !SilentChange(cfg, s, i)
  {
    if i.tenant == "" {
      assert Step(cfg, s, i) == s;
    } else if i.Generate? {
      GenerateAgrees(cfg, s, i, tenants);
    } else if Reaches(cfg, s, i) {
      FoundIsOwn(s, tenants, i.tenant, i.keyId);
      var r := s.keys[MapKey(i.tenant, i.keyId)];
      if AnswerOk(s.minted, r.id, i.action, i.answer) {
        var r' := Changed(r, i.action, i.answer);
        var superseded := if i.action == Rotate then r.version else 0;
        if i.emitted {
          LoggedTransitionAgrees(s.keys, s.log, s.minted, tenants, r, r',
                                 EventOf(TypeOf(i.action), i.tenant, r', superseded));
        } else {
          SilentTransitionAgrees(s.keys, s.log, s.minted, tenants, r, i.action, i.answer);
        }
      }
    }
  }

  // ---------------------------------------------------------------- whole runs

  ghost predicate By(inputs: seq<Input>, tenants: set<string>) {
    forall i :: 0 <= i < |inputs| ==> From(inputs[i], tenants)
  }

  /** Some call of the run changed a record without logging it. */
  ghost predicate SomeSilentChange(cfg: Config, inputs: seq<Input>) {
    exists n: nat :: n < |inputs| && SilentChange(cfg, Run(cfg, inputs[..n]), inputs[n])
  }

  /** In every run: one place per record and id, chained rotations, no unapproved destructive call. */
  lemma {:induction false} RunKeepsInv(cfg: Config, inputs: seq<Input>, tenants: set<string>)
    requires AllApart(tenants) && By(inputs, tenants)
    ensures Inv(cfg, Run(cfg, inputs), tenants)
  {
    if inputs != [] {
      var n := |inputs| - 1;
      RunKeepsInv(cfg, inputs[..n], tenants);
      StepKeeps(cfg, Run(cfg, inputs[..n]), inputs[n], tenants);
    }
  }

  /** In every run without a silent change the log's last word on every live key is its current generation. */
  lemma {:induction false} LogMatchesRecords(cfg: Config, inputs: seq<Input>, tenants: set<string>)
    requires AllApart(tenants) && By(inputs, tenants) && !SomeSilentChange(cfg, inputs)
    ensures AllAgree(Run(cfg, inputs).keys, Run(cfg, inputs).log)
  {
    if inputs != [] {
      var n := |inputs| - 1;
      var before := inputs[..n];
      forall m: nat | m < |before| ensures !SilentChange(cfg, Run(cfg, before[..m]), before[m]) {
        assert before[..m] == inputs[..m];
      }
      LogMatchesRecords(cfg, before, tenants);
      RunKeepsInv(cfg, before, tenants);
      StepAgreement(cfg, Run(cfg, before), inputs[n], tenants);
    }
  }

  /** The first silent change of a run is always visible: right after it the log is behind. */
  lemma FirstSilentChangeShows(cfg: Config, inputs: seq<Input>, tenants: set<string>)
    requires AllApart(tenants) && By(inputs, tenants) && inputs != []
    requires !SomeSilentChange(cfg, inputs[..|inputs| - 1])
    requires SilentChange(cfg, Run(cfg, inputs[..|inputs| - 1]), inputs[|inputs| - 1])
    ensures !AllAgree(Run(cfg, inputs).keys, Run(cfg, inputs).log)
  {
    var before := inputs[..|inputs| - 1];
    LogMatchesRecords(cfg, before, tenants);
    RunKeepsInv(cfg, before, tenants);
    StepAgreement(cfg, Run(cfg, before), inputs[|inputs| - 1], tenants);
  }

  // ---------------------------------------------------------------- tenants

  /** A call for one tenant leaves every other tenant's records as they were. */
  lemma OtherTenantsUntouched(cfg: Config, s: State, i: Input, tenants: set<string>, mk: string)
    requires AllApart(tenants) && i.tenant in tenants && Inv(cfg, s, tenants)
    requires mk in s.keys && s.keys[mk].tenant != i.tenant
    ensures mk in Step(cfg, s, i).keys && Step(cfg, s, i).keys[mk] == s.keys[mk]
  {
    var q := s.keys[mk];
    assert OwnPlace(mk, q, s.minted, tenants);
    forall k: string ensures MapKey(i.tenant, k) != mk {
      if MapKey(i.tenant, k) == mk { SameIndexKey(i.tenant, k, q.tenant, q.id); }
    }
    if Reaches(cfg, s, i) {
      FoundIsOwn(s, tenants, i.tenant, i.keyId);
      var r := s.keys[MapKey(i.tenant, i.keyId)];
      if AnswerOk(s.minted, r.id, i.action, i.answer) {
        ReindexedElsewhere(s.keys, r, Changed(r, i.action, i.answer), mk);
      }
    }
  }

  /** The condition on tenant ids is needed: ids that are not apart can share one record. */
  lemma SharedRecord(t: string, u: string, cfg: Config)
    requires t != "" && u != "" && t + NUL <= u
    ensures exists inputs: seq<Input>, mk: string ::
              && |inputs| == 2 && inputs[0].tenant == u && inputs[1].tenant == t
              && mk in Run(cfg, inputs[..1]).keys && Run(cfg, inputs[..1]).keys[mk].tenant == u
              && mk in Run(cfg, inputs).keys && Run(cfg, inputs).keys[mk] != Run(cfg, inputs[..1]).keys[mk]
  {
    var rest := u[|t| + 1..];
    var make := Generate(u, "", Yields("k", "", ""), true);
    var undo := Act(Revoke, t, rest + NUL + "k", "", true, Yields("", "", ""), true);
    var mk := MapKey(u, "k");
    assert mk == MapKey(t, undo.keyId) by {
      assert u == t + NUL + rest;
      assert t + NUL + rest + NUL + "k" == t + NUL + (rest + NUL + "k");
    }
    var one := [make];
    var two := [make, undo];
    assert two[..1] == one && one[..0] == [];
    var r := Rec(u, "k", "", 1, Active, "");
    assert Run(cfg, one) == Step(cfg, EMPTY, make);
    assert Run(cfg, one).keys == map[mk := r];
    assert Run(cfg, two) == Step(cfg, Run(cfg, one), undo);
    assert Run(cfg, two).keys[mk].state == Revoked;
    assert two[0].tenant == u && two[1].tenant == t;
  }

  // ---------------------------------------------------------------- replays

  /** A remembered result is never changed or forgotten. */
  lemma {:induction false} ResultsAreFinal(cfg: Config, before: seq<Input>, after: seq<Input>, at: (string, string))
    requires at in Run(cfg, before).cache
    ensures at in Run(cfg, before + after).cache
    ensures Run(cfg, before + after).cache[at] == Run(cfg, before).cache[at]
  {
    if after == [] {
      assert before + after == before;
    } else {
      var n := |after| - 1;
      ResultsAreFinal(cfg, before, after[..n], at);
      assert (before + after)[..|before + after| - 1] == before + after[..n];
    }
  }

  datatype Error = TenantRequired | KeyRefRequired | NotApproved | UnknownKey | ProviderFailed | EventLost

  datatype Outcome = Ok(value: Result) | Err(error: Error)

  /** What the caller is told. */
  function Reply(cfg: Config, s: State, i: Input): (o: Outcome) {
    if i.tenant == "" then Err(TenantRequired)
    else if i.Act? && i.keyId == "" then Err(KeyRefRequired)
    else if Replays(cfg, s.cache, i.tenant, i.idemKey) then Ok(s.cache[(i.tenant, i.idemKey)])
    else if i.Generate? then
      if !IsFresh(s.minted, i.answer) then Err(ProviderFailed)
      else if !i.emitted then Err(EventLost)
      else Ok(Result(i.answer.id, i.answer.algorithm, 1, Active, i.answer.pub))
    else if cfg.gated && !i.approved then Err(NotApproved)
    else if MapKey(i.tenant, i.keyId) !in s.keys then Err(UnknownKey)
    else
      var r := s.keys[MapKey(i.tenant, i.keyId)];
      if !AnswerOk(s.minted, r.id, i.action, i.answer) then Err(ProviderFailed)
      else if !i.emitted then Err(EventLost)
      else Ok(ResultOf(Changed(r, i.action, i.answer)))
  }

  /** A success that is not a replay names a live record, which is in that state and logged so. */
  lemma SuccessIsRecorded(cfg: Config, s: State, i: Input, tenants: set<string>)
    requires AllApart(tenants) && From(i, tenants) && Inv(cfg, s, tenants)
    requires Reply(cfg, s, i).Ok? && !Replays(cfg, s.cache, i.tenant, i.idemKey)
    ensures var s', v := Step(cfg, s, i), Reply(cfg, s, i).value;
            && MapKey(i.tenant, v.keyId) in s'.keys && ResultOf(s'.keys[MapKey(i.tenant, v.keyId)]) == v
            && s'.keys[MapKey(i.tenant, v.keyId)].tenant == i.tenant
            && LogAgrees(s'.log, s'.keys[MapKey(i.tenant, v.keyId)])
            && |s'.log| == |s.log| + 1
  {
    if i.Generate? {
      var r := Rec(i.tenant, i.answer.id, i.answer.algorithm, 1, Active, i.answer.pub);
      OwnEventAgrees(s.log, EventOf(KeyGenerated, i.tenant, r, 0), r);
    } else {
      FoundIsOwn(s, tenants, i.tenant, i.keyId);
      var r := s.keys[MapKey(i.tenant, i.keyId)];
      var r' := Changed(r, i.action, i.answer);
      var superseded := if i.action == Rotate then r.version else 0;
      OwnEventAgrees(s.log, EventOf(TypeOf(i.action), i.tenant, r', superseded), r');
    }
  }

  /** Once a call with an idempotency key has succeeded, later calls with that key get its result and do nothing. */
  lemma ReplayGetsFirstResult(cfg: Config, before: seq<Input>, i: Input, between: seq<Input>, again: Input)
    requires cfg.deduped && i.idemKey != "" && Reply(cfg, Run(cfg, before), i).Ok?
    requires again.tenant == i.tenant && again.idemKey == i.idemKey && (again.Act? ==> again.keyId != "")
    ensures var s := Run(cfg, before + [i] + between);
            Reply(cfg, s, again) == Reply(cfg, Run(cfg, before), i) && Step(cfg, s, again) == s
  {
    var at := (i.tenant, i.idemKey);
    var s := Run(cfg, before);
    assert (before + [i])[..|before|] == before;
    assert Run(cfg, before + [i]) == Step(cfg, s, i);
    assert at in Step(cfg, s, i).cache && Step(cfg, s, i).cache[at] == Reply(cfg, s, i).value;
    ResultsAreFinal(cfg, before + [i], between, at);
  }

  /** A call that fails before the provider answers changes no record and logs nothing. */
  lemma RefusalChangesNothing(cfg: Config, s: State, i: Input)
    requires Reply(cfg, s, i).Err? && Reply(cfg, s, i).error != EventLost
    ensures var s' := Step(cfg, s, i);
            s'.keys == s.keys && s'.log == s.log && s'.cache == s.cache && s'.minted == s.minted
    ensures Reply(cfg, s, i).error != ProviderFailed ==>
              forall c :: c in Step(cfg, s, i).calls && c.Destructive? ==> c in s.calls
  {
    if i.Generate? && Reply(cfg, s, i).error == ProviderFailed {
      assert Step(cfg, s, i).calls == s.calls + [Generated(i.tenant, Fails)];
    } else if i.Act? && cfg.gated && Reply(cfg, s, i).error in {UnknownKey, NotApproved} {
      assert Step(cfg, s, i).calls == s.calls + [Asked(i.tenant, i.keyId, i.action, i.approved)];
    }
  }
}
