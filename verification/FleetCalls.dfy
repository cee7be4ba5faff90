/** What runs of re-issuance ask of others: the progress store, and collaborators that note each call. */
module FleetCalls {
  import opened Fleet

  /** A call to a collaborator and its answer. */
  datatype Call =
    | RotateKey(ok: bool, key: string)
    | Allow(cred: string, yes: bool)
    | Reissue(cred: string, ok: bool, newId: string)
    | Record(cred: string, newId: string, mark: Mark)
    | CheckHealth(stage: nat, ok: bool)
    | Rollback(ids: seq<string>, ok: bool)
    | Redistribute(ok: bool)
    | PublishKrl(revoked: seq<string>, ok: bool)

  function GuardCalls(guarded: bool, cred: string): (calls: seq<Call>) {
    if guarded then [Allow(cred, true)] else []
  }

  /** The calls behind one event of a trace. */
  function CallsFor(guarded: bool, e: Event): (calls: seq<Call>) {
    match e
    case KeyRotated(key) => [RotateKey(true, key)]
    case RotationFailed => [RotateKey(false, "")]
    case ProgressUnavailable => []
    case AlreadyDone(_) => []
    case Denied(cred) => [Allow(cred, false)]
    case ReissueFailed(cred) => GuardCalls(guarded, cred) + [Reissue(cred, false, "")]
    case Issued(cred, newId, mark) =>
      GuardCalls(guarded, cred) + [Reissue(cred, true, newId), Record(cred, newId, mark)]
    case Health(stage, ok) => [CheckHealth(stage, ok)]
    case RolledBack(ids, ok) => [Rollback(ids, ok)]
    case TrustRedistributed(ok) => [Redistribute(ok)]
    case KrlPublished(revoked, ok) => [PublishKrl(revoked, ok)]
  }

  function CallsOf(guarded: bool, tr: seq<Event>): (calls: seq<Call>) {
    if tr == [] then [] else CallsOf(guarded, tr[..|tr| - 1]) + CallsFor(guarded, tr[|tr| - 1])
  }

  lemma CallsSnoc(guarded: bool, tr: seq<Event>, e: Event)
    ensures CallsOf(guarded, tr + [e]) == CallsOf(guarded, tr) + CallsFor(guarded, e)
  {
    assert (tr + [e])[..|tr|] == tr;
  }

  lemma CallsAfter(before: seq<Call>, guarded: bool, tr: seq<Event>, e: Event)
    ensures before + CallsOf(guarded, tr) + CallsFor(guarded, e) == before + CallsOf(guarded, tr + [e])
  {
    CallsSnoc(guarded, tr, e);
  }

  lemma AllowedFor(e: Event, j: nat)
    requires j < |CallsFor(true, e)| && CallsFor(true, e)[j].Reissue?
    ensures 0 < j && CallsFor(true, e)[j - 1] == Allow(CallsFor(true, e)[j].cred, true)
  {
  }

  /** With a policy guard, nothing is re-issued that the guard has not just allowed. */
  lemma {:induction false} ReissuedOnlyIfAllowed(tr: seq<Event>, i: nat)
    requires i < |CallsOf(true, tr)| && CallsOf(true, tr)[i].Reissue?
    ensures 0 < i && CallsOf(true, tr)[i - 1] == Allow(CallsOf(true, tr)[i].cred, true)
  {
    var before, last := tr[..|tr| - 1], tr[|tr| - 1];
    var a, b := CallsOf(true, before), CallsFor(true, last);
    assert CallsOf(true, tr) == a + b;
    if i < |a| {
      assert (a + b)[i] == a[i];
      ReissuedOnlyIfAllowed(before, i);
      assert (a + b)[i - 1] == a[i - 1];
    } else {
      assert (a + b)[i] == b[i - |a|];
      AllowedFor(last, i - |a|);
      assert (a + b)[i - 1] == b[i - |a| - 1];
    }
  }

  // ---------------------------------------------------------------- the collaborators

  /** MemoryProgress: new credential ids by run and credential. */
  class MemoryProgress {
    var done: map<string, map<string, string>>

    constructor ()
      ensures done == map[]
    {
      done := map[];
    }

    ghost function Of(runId: string): (m: map<string, string>)
      reads this
    {
      if runId in done then done[runId] else map[]
    }

    method Completed(runId: string) returns (m: map<string, string>)
      ensures m == Of(runId)
    {
      m := if runId in done then done[runId] else map[];
    }

    method Mark(runId: string, cred: string, newId: string)
      modifies this
      ensures Of(runId) == old(Of(runId))[cred := newId]
      ensures forall r :: r != runId ==> Of(r) == old(Of(r))
    {
      var m := if runId in done then done[runId] else map[];
      done := done[runId := m[cred := newId]];
    }
  }

  /** The issuers, stores and devices a run talks to: they answer anything, and every call is noted. */
  class Outside {
    ghost var calls: seq<Call>

    constructor ()
      ensures calls == []
    {
      calls := [];
    }

    method Rotates() returns (ok: bool, key: string)
      modifies this
      ensures calls == old(calls) + [RotateKey(ok, key)] && (!ok ==> key == "")
    {
      ok, key := *, *;
      if !ok { key := ""; }
      calls := calls + [RotateKey(ok, key)];
    }

    method Allows(cred: string) returns (yes: bool)
      modifies this
      ensures calls == old(calls) + [Allow(cred, yes)]
    {
      yes := *;
      calls := calls + [Allow(cred, yes)];
    }

    method Reissues(cred: string) returns (ok: bool, newId: string)
      modifies this
      ensures calls == old(calls) + [Reissue(cred, ok, newId)] && (!ok ==> newId == "")
    {
      ok, newId := *, *;
      if !ok { newId := ""; }
      calls := calls + [Reissue(cred, ok, newId)];
    }

    /** Recording a re-issuance: it may fail, and may have been recorded all the same. */
    method Records(store: MemoryProgress, runId: string, cred: string, newId: string) returns (mark: Mark)
      modifies this, store
      ensures calls == old(calls) + [Record(cred, newId, mark)]
      ensures store.Of(runId) == if mark.MarkOk? || mark.recorded then old(store.Of(runId))[cred := newId]
                                 else old(store.Of(runId))
      ensures forall r :: r != runId ==> store.Of(r) == old(store.Of(r))
    {
      var recorded: bool, reported: bool := *, *;
      mark := if recorded && reported then MarkOk else MarkFailed(recorded);
      if recorded { store.Mark(runId, cred, newId); }
      calls := calls + [Record(cred, newId, mark)];
    }

    method Healthy(stage: nat) returns (ok: bool)
      modifies this
      ensures calls == old(calls) + [CheckHealth(stage, ok)]
    {
      ok := *;
      calls := calls + [CheckHealth(stage, ok)];
    }

    method RollsBack(ids: seq<string>) returns (ok: bool)
      modifies this
      ensures calls == old(calls) + [Rollback(ids, ok)]
    {
      ok := *;
      calls := calls + [Rollback(ids, ok)];
    }

    method Redistributes() returns (ok: bool)
      modifies this
      ensures calls == old(calls) + [Redistribute(ok)]
    {
      ok := *;
      calls := calls + [Redistribute(ok)];
    }

    method Publishes(revoked: seq<string>) returns (ok: bool)
      modifies this
      ensures calls == old(calls) + [PublishKrl(revoked, ok)]
    {
      ok := *;
      calls := calls + [PublishKrl(revoked, ok)];
    }
  }
}
