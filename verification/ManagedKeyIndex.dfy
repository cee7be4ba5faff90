/**
 The service's bookkeeping as it is: an index of references to records, where a change to a record shows under
 every index key that leads to it. For tenants whose ids are apart this is the same as the plain map of records
 that ManagedKeys reasons about; the difference only shows once two tenants share an index key.
 */
module ManagedKeyIndex {
  import opened ManagedKeys

  /** Records by number, in the order they were made, and where the index leads. */
  datatype Exact = Exact(
    index: map<string, nat>,
    recs: seq<Rec>,
    log: seq<Event>,
    calls: seq<Call>,
    minted: set<string>,
    cache: Cache)

  const NOTHING := Exact(map[], [], [], [], {}, map[])

  ghost predicate Leads(e: Exact) {
    forall mk :: mk in e.index ==> e.index[mk] < |e.recs|
  }

  /** What looking things up in the index shows. */
  function View(e: Exact): (s: State)
    requires Leads(e)
  {
    State(map mk | mk in e.index :: e.recs[e.index[mk]], e.log, e.calls, e.minted, e.cache)
  }

  /** A key the provider has generated: recorded if its event was. */
  function Recorded(cfg: Config, e: Exact, i: Input): (e': Exact)
    requires i.Generate? && i.answer.Yields?
  {
    var r := Rec(i.tenant, i.answer.id, i.answer.algorithm, 1, Active, i.answer.pub);
    var e1 := e.(minted := e.minted + {r.id}, calls := e.calls + [Generated(i.tenant, i.answer)]);
    if !i.emitted then e1
    else e1.(log := e.log + [EventOf(KeyGenerated, i.tenant, r, 0)],
             index := e.index[MapKey(i.tenant, r.id) := |e.recs|], recs := e.recs + [r],
             cache := Kept(cfg, e.cache, i.tenant, i.idemKey, r))
  }

  /** The index after a record's id has changed. */
  function Moved(index: map<string, nat>, tenant: string, id: string, id': string, n: nat): (index': map<string, nat>) {
    if id' != id then (index - {MapKey(tenant, id)})[MapKey(tenant, id') := n] else index
  }

  /** A change the provider has made: the record is changed in place, and the index follows its id. */
  function Applied(cfg: Config, e: Exact, i: Input, n: nat): (e': Exact)
    requires i.Act? && i.answer.Yields? && n < |e.recs|
  {
    var r := e.recs[n];
    var r' := Changed(r, i.action, i.answer);
    var e1 := e.(recs := e.recs[n := r'], index := Moved(e.index, i.tenant, r.id, r'.id, n),
                 minted := e.minted + {r'.id});
    var superseded := if i.action == Rotate then r.version else 0;
    if !i.emitted then e1
    else e1.(log := e.log + [EventOf(TypeOf(i.action), i.tenant, r', superseded)],
             cache := Kept(cfg, e.cache, i.tenant, i.idemKey, r'))
  }

  /** The provider call on a record that was found. */
  function Told(cfg: Config, e: Exact, i: Input, n: nat): (e': Exact)
    requires i.Act? && n < |e.recs|
  {
    var e1 := e.(calls := e.calls + [Telling(e.minted, e.recs[n], i.action, i.answer)]);
    if AnswerOk(e.minted, e.recs[n].id, i.action, i.answer) then Applied(cfg, e1, i, n) else e1
  }

  function AskedGate(cfg: Config, e: Exact, i: Input): (e': Exact)
    requires i.Act?
  {
    if cfg.gated then e.(calls := e.calls + [Asked(i.tenant, i.keyId, i.action, i.approved)]) else e
  }

  function DoExact(cfg: Config, e: Exact, i: Input): (e': Exact)
    requires Leads(e)
  {
    if i.tenant == "" || (i.Act? && i.keyId == "") || Replays(cfg, e.cache, i.tenant, i.idemKey) then e
    else if i.Generate? then
      if IsFresh(e.minted, i.answer) then Recorded(cfg, e, i)
      else e.(calls := e.calls + [Generated(i.tenant, Fails)])
    else
      var e1 := AskedGate(cfg, e, i);
      if cfg.gated && !i.approved then e1
      else if MapKey(i.tenant, i.keyId) !in e.index then e1
      else Told(cfg, e1, i, e.index[MapKey(i.tenant, i.keyId)])
  }

  /** What the caller is told. */
  function ReplyExact(cfg: Config, e: Exact, i: Input): (o: Outcome)
    requires Leads(e)
  {
    if i.tenant == "" then Err(TenantRequired)
    else if i.Act? && i.keyId == "" then Err(KeyRefRequired)
    else if Replays(cfg, e.cache, i.tenant, i.idemKey) then Ok(e.cache[(i.tenant, i.idemKey)])
    else if i.Generate? then
      if !IsFresh(e.minted, i.answer) then Err(ProviderFailed)
      else if !i.emitted then Err(EventLost)
      else Ok(Result(i.answer.id, i.answer.algorithm, 1, Active, i.answer.pub))
    else if cfg.gated && !i.approved then Err(NotApproved)
    else if MapKey(i.tenant, i.keyId) !in e.index then Err(UnknownKey)
    else
      var r := e.recs[e.index[MapKey(i.tenant, i.keyId)]];
      if !AnswerOk(e.minted, r.id, i.action, i.answer) then Err(ProviderFailed)
      else if !i.emitted then Err(EventLost)
      else Ok(ResultOf(Changed(r, i.action, i.answer)))
  }

  lemma ReplyIsReply(cfg: Config, e: Exact, i: Input)
    requires Leads(e)
    ensures ReplyExact(cfg, e, i) == Reply(cfg, View(e), i)
  {
  }

  lemma StillLeads(cfg: Config, e: Exact, i: Input)
    requires Leads(e)
    ensures Leads(DoExact(cfg, e, i))
  {
  }

  function RunExact(cfg: Config, inputs: seq<Input>): (e: Exact)
    ensures Leads(e)
  {
    if inputs == [] then NOTHING
    else
      var before := RunExact(cfg, inputs[..|inputs| - 1]);
      StillLeads(cfg, before, inputs[|inputs| - 1]);
      DoExact(cfg, before, inputs[|inputs| - 1])
  }

  // ---------------------------------------------------------------- against the plain map

  /** With every id in one place, no two index keys lead to one record. */
  lemma IndexIsInjective(e: Exact, tenants: set<string>, mk: string, nk: string)
    requires Leads(e) && Indexed(View(e).keys, e.minted, tenants)
    requires mk in e.index && nk in e.index && e.index[mk] == e.index[nk]
    ensures mk == nk
  {
    assert View(e).keys[mk] == View(e).keys[nk];
  }

  lemma RecordedView(cfg: Config, e: Exact, i: Input)
    requires Leads(e) && i.Generate? && i.answer.Yields? && i.answer.id !in e.minted
    requires i.tenant != "" && !Replays(cfg, e.cache, i.tenant, i.idemKey)
    ensures Leads(Recorded(cfg, e, i)) && View(Recorded(cfg, e, i)) == StepGenerate(cfg, View(e), i)
  {
    var e', s' := Recorded(cfg, e, i), StepGenerate(cfg, View(e), i);
    assert View(e').keys == s'.keys;
  }

  /** In place and by moving the one place it has, a changed record is seen the same. */
  lemma MovedView(e: Exact, tenants: set<string>, r: Rec, r': Rec, n: nat)
    requires Leads(e) && Indexed(View(e).keys, e.minted, tenants) && n < |e.recs| && e.recs[n] == r
    requires MapKey(r.tenant, r.id) in e.index && e.index[MapKey(r.tenant, r.id)] == n
    ensures var e' := e.(recs := e.recs[n := r'], index := Moved(e.index, r.tenant, r.id, r'.id, n));
            Leads(e') && View(e').keys == Reindexed(View(e).keys, r.tenant, MapKey(r.tenant, r.id), r, r')
  {
    var mk := MapKey(r.tenant, r.id);
    var e' := e.(recs := e.recs[n := r'], index := Moved(e.index, r.tenant, r.id, r'.id, n));
    forall nk | nk in e.index && nk != mk ensures e.index[nk] != n {
      if e.index[nk] == n { IndexIsInjective(e, tenants, mk, nk); }
    }
    if r'.id == r.id { SamePlace(e, mk, n, r'); } else { NewPlace(e, mk, MapKey(r.tenant, r'.id), n, r'); }
  }

  lemma SamePlace(e: Exact, mk: string, n: nat, r': Rec)
    requires Leads(e) && mk in e.index && e.index[mk] == n
    requires forall nk :: nk in e.index && nk != mk ==> e.index[nk] != n
    ensures var e' := e.(recs := e.recs[n := r']); Leads(e') && View(e').keys == View(e).keys[mk := r']
  {
  }

  lemma NewPlace(e: Exact, mk: string, mk': string, n: nat, r': Rec)
    requires Leads(e) && mk in e.index && e.index[mk] == n
    requires forall nk :: nk in e.index && nk != mk ==> e.index[nk] != n
    ensures var e' := e.(recs := e.recs[n := r'], index := (e.index - {mk})[mk' := n]);
            Leads(e') && View(e').keys == (View(e).keys[mk := r'] - {mk})[mk' := r']
  {
    var e' := e.(recs := e.recs[n := r'], index := (e.index - {mk})[mk' := n]);
    var keys' := (View(e).keys[mk := r'] - {mk})[mk' := r'];
    assert View(e').keys.Keys == keys'.Keys;
    forall nk | nk in keys' ensures View(e').keys[nk] == keys'[nk] {}
  }

  lemma AppliedView(cfg: Config, e: Exact, i: Input, n: nat, tenants: set<string>)
    requires Leads(e) && Indexed(View(e).keys, e.minted, tenants) && i.Act? && n < |e.recs|
    requires MapKey(i.tenant, i.keyId) in e.index && e.index[MapKey(i.tenant, i.keyId)] == n
    requires e.recs[n].tenant == i.tenant && e.recs[n].id == i.keyId
    ensures Leads(Told(cfg, e, i, n)) && View(Told(cfg, e, i, n)) == Transition(cfg, View(e), i)
  {
    var r := e.recs[n];
    if AnswerOk(e.minted, r.id, i.action, i.answer) { MovedView(e, tenants, r, Changed(r, i.action, i.answer), n); }
    var e', s' := Told(cfg, e, i, n), Transition(cfg, View(e), i);
    assert View(e').keys == s'.keys;
  }

  lemma ActView(cfg: Config, e: Exact, i: Input, tenants: set<string>)
    requires Leads(e) && AllApart(tenants) && i.Act? && i.tenant in tenants && Inv(cfg, View(e), tenants)
    ensures Leads(DoExact(cfg, e, i)) && View(DoExact(cfg, e, i)) == StepAct(cfg, View(e), i)
  {
    if i.tenant != "" && i.keyId != "" && !Replays(cfg, e.cache, i.tenant, i.idemKey) {
      var e1 := AskedGate(cfg, e, i);
      var mk := MapKey(i.tenant, i.keyId);
      assert View(e1).keys == View(e).keys;
      if (cfg.gated ==> i.approved) && mk in e.index {
        FoundIsOwn(View(e), tenants, i.tenant, i.keyId);
        AppliedView(cfg, e1, i, e.index[mk], tenants);
      }
    }
  }

  /** One call on the index is one call on the map, for tenants that are apart. */
  lemma ExactIsStep(cfg: Config, e: Exact, i: Input, tenants: set<string>)
    requires Leads(e) && AllApart(tenants) && From(i, tenants) && Inv(cfg, View(e), tenants)
    ensures Leads(DoExact(cfg, e, i)) && View(DoExact(cfg, e, i)) == Step(cfg, View(e), i)
  {
    if i.Act? && i.tenant != "" {
      ActView(cfg, e, i, tenants);
    } else if i.tenant != "" && !Replays(cfg, e.cache, i.tenant, i.idemKey)
              && i.answer.Yields? && i.answer.id !in e.minted {
      RecordedView(cfg, e, i);
    }
  }

  /** So what every run of the plain map satisfies, every run of the service does. */
  lemma {:induction false} ExactIsRun(cfg: Config, inputs: seq<Input>, tenants: set<string>)
    requires AllApart(tenants) && By(inputs, tenants)
    ensures View(RunExact(cfg, inputs)) == Run(cfg, inputs)
  {
    if inputs == [] {
      assert View(NOTHING).keys == map[];
    } else {
      var n := |inputs| - 1;
      ExactIsRun(cfg, inputs[..n], tenants);
      RunKeepsInv(cfg, inputs[..n], tenants);
      ExactIsStep(cfg, RunExact(cfg, inputs[..n]), inputs[n], tenants);
    }
  }

  /** What the callers of a run were told, in order. */
  function RepliesOf(cfg: Config, inputs: seq<Input>): (rs: seq<Outcome>) {
    if inputs == [] then []
    else
      var before := inputs[..|inputs| - 1];
      RepliesOf(cfg, before) + [ReplyExact(cfg, RunExact(cfg, before), inputs[|inputs| - 1])]
  }

  lemma RunExactSnoc(cfg: Config, inputs: seq<Input>, i: Input)
    ensures RunExact(cfg, inputs + [i]) == DoExact(cfg, RunExact(cfg, inputs), i)
    ensures RepliesOf(cfg, inputs + [i]) == RepliesOf(cfg, inputs) + [ReplyExact(cfg, RunExact(cfg, inputs), i)]
  {
    assert (inputs + [i])[..|inputs|] == inputs;
  }

  /** Every record has an id the provider gave out. */
  lemma {:induction false} IdsAreMinted(cfg: Config, inputs: seq<Input>)
    ensures forall n :: 0 <= n < |RunExact(cfg, inputs).recs| ==>
              RunExact(cfg, inputs).recs[n].id in RunExact(cfg, inputs).minted
  {
    if inputs != [] { IdsAreMinted(cfg, inputs[..|inputs| - 1]); }
  }

  // ---------------------------------------------------------------- dual control

  /** The calls of the run in which one tenant's approval retires another's key. */
  lemma WrongApproval(t: string, u: string, cfg: Config)
    requires t != "" && u != "" && t + NUL <= u && cfg.gated
    ensures exists inputs: seq<Input> ::
              && By(inputs, {t, u})
              && RunExact(cfg, inputs).calls ==
                 [Generated(u, Yields("k", "", "")), Asked(t, u[|t| + 1..] + NUL + "k", Revoke, true),
                  Destructive(u, "k", Revoke, Yields("", "", ""))]
  {
    var rest := u[|t| + 1..];
    var make := Generate(u, "", Yields("k", "", ""), true);
    var undo := Act(Revoke, t, rest + NUL + "k", "", true, Yields("", "", ""), true);
    assert MapKey(u, "k") == MapKey(t, undo.keyId) by {
      assert u == t + NUL + rest;
      assert t + NUL + rest + NUL + "k" == t + NUL + (rest + NUL + "k");
    }
    MadeOne(u, cfg);
    RunExactSnoc(cfg, [make], undo);
    assert [make] + [undo] == [make, undo];
    assert RunExact(cfg, [make, undo]).calls ==
           [Generated(u, Yields("k", "", "")), Asked(t, undo.keyId, Revoke, true),
            Destructive(u, "k", Revoke, Yields("", "", ""))];
  }

  lemma MadeOne(u: string, cfg: Config)
    requires u != ""
    ensures var e := RunExact(cfg, [Generate(u, "", Yields("k", "", ""), true)]);
            && e.index == map[MapKey(u, "k") := 0] && e.recs == [Rec(u, "k", "", 1, Active, "")]
            && e.calls == [Generated(u, Yields("k", "", ""))]
  {
    var make := Generate(u, "", Yields("k", "", ""), true);
    RunExactSnoc(cfg, [], make);
    assert [] + [make] == [make];
  }

  /**
   Every destructive call in every run directly follows the gate's yes to it for the key's own tenant, exactly
   when no tenant that can call at all has an id that continues another's after a NUL.
   */
  lemma DualControlExactlyWhenApart(cfg: Config, tenants: set<string>)
    requires cfg.gated
    ensures (forall inputs: seq<Input> :: By(inputs, tenants) ==> AllApproved(RunExact(cfg, inputs).calls)) <==>
            AllApart(tenants - {""})
  {
    var named := tenants - {""};
    if AllApart(named) {
      forall inputs: seq<Input> | By(inputs, tenants) ensures AllApproved(RunExact(cfg, inputs).calls) {
        assert By(inputs, named);
        ExactIsRun(cfg, inputs, named);
        RunKeepsInv(cfg, inputs, named);
      }
    } else {
      var t, u :| t in named && u in named && t != u && t + NUL <= u;
      WrongApproval(t, u, cfg);
      var inputs: seq<Input> :| By(inputs, {t, u}) && RunExact(cfg, inputs).calls ==
        [Generated(u, Yields("k", "", "")), Asked(t, u[|t| + 1..] + NUL + "k", Revoke, true),
         Destructive(u, "k", Revoke, Yields("", "", ""))];
      assert By(inputs, tenants);
      assert !ApprovedAt(RunExact(cfg, inputs).calls, 2);
    }
  }
}
