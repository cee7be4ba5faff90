/**
 What the service records and reports, against what the provider said. Reading only the calls to the provider and
 its answers, in order, tells of every key its tenant, algorithm, public key, version and state; the records hold
 exactly that, and so do the replies and events.
 */
module ManagedKeyAnswers {
  import opened ManagedKeys
  import opened ManagedKeyIndex

  // ---------------------------------------------------------------- reading the provider's answers

  /** The provider gave out this id, or kept it, for a new generation of a key. */
  predicate Mints(c: Call, id: string) {
    match c
    case Asked(_, _, _, _) => false
    case Generated(_, answer) => answer.Yields? && answer.id == id
    case Destructive(_, _, action, answer) => action == Rotate && answer.Yields? && answer.id == id
  }

  /** The provider revoked or destroyed the key of this id. */
  predicate Retires(c: Call, id: string) {
    c.Destructive? && c.action != Rotate && c.answer.Yields? && c.keyId == id
  }

  /** The call that gave the key of this id its current generation, if any. */
  function LastMint(calls: seq<Call>, id: string): (c: seq<Call>)
    ensures |c| <= 1 && forall x :: x in c ==> x in calls && Mints(x, id)
  {
    if calls == [] then []
    else if Mints(calls[|calls| - 1], id) then [calls[|calls| - 1]]
    else LastMint(calls[..|calls| - 1], id)
  }

  /** Which generation that is: one more than that of the key that was rotated. */
  function VersionSaid(calls: seq<Call>, id: string): (n: nat) {
    if calls == [] then 0
    else
      var init, last := calls[..|calls| - 1], calls[|calls| - 1];
      if !Mints(last, id) then VersionSaid(init, id)
      else if last.Generated? then 1
      else VersionSaid(init, last.keyId) + 1
  }

  /** What was last done to the key. */
  function StateSaid(calls: seq<Call>, id: string): (s: KeyState) {
    if calls == [] then Active
    else
      var init, last := calls[..|calls| - 1], calls[|calls| - 1];
      if Mints(last, id) then Active
      else if Retires(last, id) then (if last.action == Revoke then Revoked else Zeroized)
      else StateSaid(init, id)
  }

  /** The record is what the provider said of its id. */
  ghost predicate IsAsSaid(calls: seq<Call>, r: Rec) {
    var mint := LastMint(calls, r.id);
    && |mint| == 1 && mint[0].tenant == r.tenant && !mint[0].Asked?
    && mint[0].answer == Yields(r.id, r.algorithm, r.pub)
    && r.version == VersionSaid(calls, r.id) && r.state == StateSaid(calls, r.id)
  }

  // ---------------------------------------------------------------- every run

  /** Ids of different records differ, and none was minted that is not noted as such. */
  ghost predicate Distinguished(e: Exact) {
    && (forall n :: 0 <= n < |e.recs| ==> e.recs[n].id in e.minted)
    && (forall m, n :: 0 <= m < n < |e.recs| ==> e.recs[m].id != e.recs[n].id)
    && (forall n :: 0 <= n < |e.recs| ==> IsAsSaid(e.calls, e.recs[n]))
  }

  lemma ReadSnoc(calls: seq<Call>, c: Call, id: string)
    ensures LastMint(calls + [c], id) == if Mints(c, id) then [c] else LastMint(calls, id)
    ensures VersionSaid(calls + [c], id) ==
            if !Mints(c, id) then VersionSaid(calls, id)
            else if c.Generated? then 1 else VersionSaid(calls, c.keyId) + 1
    ensures StateSaid(calls + [c], id) ==
            if Mints(c, id) then Active
            else if Retires(c, id) then (if c.action == Revoke then Revoked else Zeroized)
            else StateSaid(calls, id)
  {
    assert (calls + [c])[..|calls|] == calls;
  }

  lemma OthersAsSaid(calls: seq<Call>, c: Call, r: Rec)
    requires IsAsSaid(calls, r) && !Mints(c, r.id) && !Retires(c, r.id)
    ensures IsAsSaid(calls + [c], r)
  {
    ReadSnoc(calls, c, r.id);
  }

  /** A record changed as the provider answered is as the provider said. */
  lemma ChangedAsSaid(calls: seq<Call>, r: Rec, action: Action, answer: Answer)
    requires IsAsSaid(calls, r) && answer.Yields?
    ensures IsAsSaid(calls + [Destructive(r.tenant, r.id, action, answer)], Changed(r, action, answer))
  {
    var c := Destructive(r.tenant, r.id, action, answer);
    ReadSnoc(calls, c, Changed(r, action, answer).id);
  }

  lemma ToldAsSaid(cfg: Config, e: Exact, i: Input, n: nat)
    requires Distinguished(e) && i.Act? && n < |e.recs|
    ensures Distinguished(Told(cfg, e, i, n))
  {
    var e', r := Told(cfg, e, i, n), e.recs[n];
    var c := Telling(e.minted, r, i.action, i.answer);
    forall m | 0 <= m < |e.recs| ensures IsAsSaid(e'.calls, e'.recs[m]) {
      if m != n || c.answer.Fails? {
        OthersAsSaid(e.calls, c, e.recs[m]);
      } else {
        ChangedAsSaid(e.calls, r, i.action, i.answer);
      }
    }
    assert forall m :: 0 <= m < |e.recs| && m != n ==> e'.recs[m] == e.recs[m];
  }

  lemma RecordedAsSaid(cfg: Config, e: Exact, i: Input)
    requires Distinguished(e) && i.Generate? && IsFresh(e.minted, i.answer)
    ensures Distinguished(Recorded(cfg, e, i))
  {
    var e', c := Recorded(cfg, e, i), Generated(i.tenant, i.answer);
    forall m | 0 <= m < |e'.recs| ensures IsAsSaid(e'.calls, e'.recs[m]) {
      if m < |e.recs| { OthersAsSaid(e.calls, c, e.recs[m]); } else { ReadSnoc(e.calls, c, i.answer.id); }
    }
  }

  /** A call that mints and retires nothing. */
  lemma IdleAsSaid(e: Exact, c: Call)
    requires Distinguished(e) && (c.Asked? || c.answer.Fails?)
    ensures Distinguished(e.(calls := e.calls + [c]))
  {
    forall n | 0 <= n < |e.recs| ensures IsAsSaid(e.calls + [c], e.recs[n]) { OthersAsSaid(e.calls, c, e.recs[n]); }
  }

  lemma StepAsSaid(cfg: Config, e: Exact, i: Input)
    requires Leads(e) && Distinguished(e)
    ensures Distinguished(DoExact(cfg, e, i))
  {
    if i.tenant == "" || (i.Act? && i.keyId == "") || Replays(cfg, e.cache, i.tenant, i.idemKey) {
    } else if i.Generate? {
      if IsFresh(e.minted, i.answer) { RecordedAsSaid(cfg, e, i); } else { IdleAsSaid(e, Generated(i.tenant, Fails)); }
    } else {
      var e1 := AskedGate(cfg, e, i);
      if cfg.gated { IdleAsSaid(e, Asked(i.tenant, i.keyId, i.action, i.approved)); }
      var mk := MapKey(i.tenant, i.keyId);
      if (cfg.gated ==> i.approved) && mk in e.index { ToldAsSaid(cfg, e1, i, e.index[mk]); }
    }
  }

  /** In every run every record holds exactly what the provider answered for it. */
  lemma {:induction false} RecordsAreAsSaid(cfg: Config, inputs: seq<Input>)
    ensures Distinguished(RunExact(cfg, inputs))
  {
    if inputs != [] {
      var n := |inputs| - 1;
      RecordsAreAsSaid(cfg, inputs[..n]);
      StepAsSaid(cfg, RunExact(cfg, inputs[..n]), inputs[n]);
    }
  }

  // ---------------------------------------------------------------- replies and events

  /** What a call that went through tells, of the provider's answer and the record as it was found. */
  ghost predicate Reports(i: Input, found: Rec, res: Result, ev: Event) {
    match i
    case Generate(tenant, _, answer, _) =>
      && answer.Yields? && res == Result(answer.id, answer.algorithm, 1, Active, answer.pub)
      && ev == Event(KeyGenerated, tenant, answer.id, 1, answer.algorithm, answer.pub, 0)
    case Act(action, tenant, _, _, _, answer, _) =>
      && answer.Yields?
      && match action
         case Rotate =>
           && res == Result(answer.id, answer.algorithm, found.version + 1, Active, answer.pub)
           && ev == Event(KeyRotated, tenant, answer.id, found.version + 1, answer.algorithm, answer.pub, found.version)
         case Revoke =>
           && res == Result(found.id, found.algorithm, found.version, Revoked, found.pub)
           && ev == Event(KeyRevoked, tenant, found.id, found.version, found.algorithm, found.pub, 0)
         case Zeroize =>
           && res == Result(found.id, found.algorithm, found.version, Zeroized, found.pub)
           && ev == Event(KeyZeroized, tenant, found.id, found.version, found.algorithm, found.pub, 0)
  }

  /** A success that is no replay reports and logs the provider's answer, on the record the index led to. */
  lemma SuccessReports(cfg: Config, e: Exact, i: Input)
    requires Leads(e) && ReplyExact(cfg, e, i).Ok? && !Replays(cfg, e.cache, i.tenant, i.idemKey)
    ensures var e' := DoExact(cfg, e, i);
      && |e'.log| == |e.log| + 1 && e.log == e'.log[..|e.log|]
      && (i.Act? ==> MapKey(i.tenant, i.keyId) in e.index)
      && var found := if i.Act? then e.recs[e.index[MapKey(i.tenant, i.keyId)]] else Rec("", "", "", 0, Active, "");
         Reports(i, found, ReplyExact(cfg, e, i).value, e'.log[|e.log|])
  {
  }

  /** The result is what the provider answered to the call this input led to. */
  predicate TellsAnswer(v: Result, i: Input, c: Call) {
    match i
    case Generate(tenant, _, _, _) =>
      c == Generated(tenant, Yields(v.keyId, v.algorithm, v.pub)) && v.version == 1 && v.state == Active
    case Act(action, _, _, _, _, _, _) =>
      && c.Destructive? && c.action == action && c.answer.Yields?
      && match action
         case Rotate => c.answer == Yields(v.keyId, v.algorithm, v.pub) && v.state == Active
         case Revoke => v.keyId == c.keyId && v.state == Revoked
         case Zeroize => v.keyId == c.keyId && v.state == Zeroized
  }

  lemma SuccessTellsAnswer(cfg: Config, e: Exact, i: Input)
    requires Leads(e) && ReplyExact(cfg, e, i).Ok? && !Replays(cfg, e.cache, i.tenant, i.idemKey)
    ensures var calls := DoExact(cfg, e, i).calls;
      calls != [] && TellsAnswer(ReplyExact(cfg, e, i).value, i, calls[|calls| - 1])
  {
  }

  lemma StepNotesCalls(cfg: Config, e: Exact, i: Input)
    requires Leads(e)
    ensures e.calls <= DoExact(cfg, e, i).calls
  {
  }

  lemma {:induction false} CallsOnlyGrow(cfg: Config, inputs: seq<Input>, k: nat)
    requires k <= |inputs|
    ensures RunExact(cfg, inputs[..k]).calls <= RunExact(cfg, inputs).calls
  {
    if k == |inputs| {
      assert inputs[..k] == inputs;
    } else {
      var n := |inputs| - 1;
      assert inputs[..n][..k] == inputs[..k];
      CallsOnlyGrow(cfg, inputs[..n], k);
      StepNotesCalls(cfg, RunExact(cfg, inputs[..n]), inputs[n]);
    }
  }

  lemma {:induction false} RepliesPrefix(cfg: Config, inputs: seq<Input>, k: nat)
    requires k < |inputs|
    ensures |RepliesOf(cfg, inputs)| == |inputs|
    ensures RepliesOf(cfg, inputs)[k] == ReplyExact(cfg, RunExact(cfg, inputs[..k]), inputs[k])
  {
    var n := |inputs| - 1;
    if k < n {
      RepliesPrefix(cfg, inputs[..n], k);
      assert inputs[..n][..k] == inputs[..k];
    } else {
      RepliesCount(cfg, inputs[..n]);
    }
  }

  lemma {:induction false} RepliesCount(cfg: Config, inputs: seq<Input>)
    ensures |RepliesOf(cfg, inputs)| == |inputs|
  {
    if inputs != [] { RepliesCount(cfg, inputs[..|inputs| - 1]); }
  }

  lemma AnswerAt(cfg: Config, inputs: seq<Input>, k: nat)
    requires k < |inputs| && ReplyExact(cfg, RunExact(cfg, inputs[..k]), inputs[k]).Ok?
    requires !Replays(cfg, RunExact(cfg, inputs[..k]).cache, inputs[k].tenant, inputs[k].idemKey)
    ensures var calls := RunExact(cfg, inputs[..k + 1]).calls;
      && calls != []
      && TellsAnswer(ReplyExact(cfg, RunExact(cfg, inputs[..k]), inputs[k]).value, inputs[k], calls[|calls| - 1])
  {
    SuccessTellsAnswer(cfg, RunExact(cfg, inputs[..k]), inputs[k]);
    RunExactSnoc(cfg, inputs[..k], inputs[k]);
    assert inputs[..k] + [inputs[k]] == inputs[..k + 1];
  }

  /** In every run every success that is no replay is the answer of a noted call to the provider. */
  lemma ReplyIsAnswer(cfg: Config, inputs: seq<Input>, k: nat)
    requires k < |inputs| && |RepliesOf(cfg, inputs)| == |inputs| && RepliesOf(cfg, inputs)[k].Ok?
    requires !Replays(cfg, RunExact(cfg, inputs[..k]).cache, inputs[k].tenant, inputs[k].idemKey)
    ensures exists n: nat :: n < |RunExact(cfg, inputs).calls|
              && TellsAnswer(RepliesOf(cfg, inputs)[k].value, inputs[k], RunExact(cfg, inputs).calls[n])
  {
    RepliesPrefix(cfg, inputs, k);
    AnswerAt(cfg, inputs, k);
    CallsOnlyGrow(cfg, inputs, k + 1);
    LastOfPrefix(RunExact(cfg, inputs[..k + 1]).calls, RunExact(cfg, inputs).calls);
  }

  lemma LastOfPrefix(a: seq<Call>, b: seq<Call>)
    requires a <= b && a != []
    ensures b[|a| - 1] == a[|a| - 1]
  {
  }
}
