/**
 The managed-key service as it runs: records on the heap, found through the index and changed in place, with a
 gate and a provider whose calls are noted in the order they are made. Its history is a run of ManagedKeyIndex.
 */
module ManagedKeyService {
  import opened ManagedKeys
  import opened ManagedKeyIndex
  import opened ManagedKeyAnswers

  class Record {
    ghost const tenant: string
    var id: string
    var algorithm: string
    var version: nat
    var state: KeyState
    var pub: string

    constructor (tenant: string, id: string, algorithm: string, pub: string)
      ensures Is(Rec(tenant, id, algorithm, 1, Active, pub))
    {
      this.tenant, this.id, this.algorithm, this.pub := tenant, id, algorithm, pub;
      version, state := 1, Active;
    }

    ghost predicate Is(r: Rec)
      reads this
    {
      r == Rec(tenant, id, algorithm, version, state, pub)
    }

    /** A rotated key has a new generation; a retired one only its new state. */
    method Change(action: Action, answer: Answer, ghost r: Rec)
      requires Is(r) && answer.Yields?
      modifies this
      ensures Is(Changed(r, action, answer))
    {
      if action == Rotate {
        id, algorithm, version := answer.id, answer.algorithm, version + 1;
        pub, state := answer.pub, Active;
      } else {
        state := if action == Revoke then Revoked else Zeroized;
      }
    }

    method ToResult() returns (res: Result)
      ensures forall r :: Is(r) ==> res == ResultOf(r)
    {
      res := Result(id, algorithm, version, state, pub);
    }
  }

  /** The calls to the gate and the destructive calls to the provider, in the order they were made. */
  class Journal {
    ghost var calls: seq<Call>

    constructor ()
      ensures calls == []
    {
      calls := [];
    }
  }

  /** The approval gate: it answers anything, and its answer is noted. */
  class Gate {
    const journal: Journal

    constructor (journal: Journal)
      ensures this.journal == journal
    {
      this.journal := journal;
    }

    method IsApproved(tenant: string, keyId: string, action: Action, requester: string) returns (approved: bool)
      modifies journal
      ensures journal.calls == old(journal.calls) + [Asked(tenant, keyId, action, approved)]
    {
      approved := *;
      journal.calls := journal.calls + [Asked(tenant, keyId, action, approved)];
    }
  }

  /** The remote key backend: it may fail, never hands out an id twice, and every call is noted with its answer. */
  class Provider {
    const journal: Journal
    var minted: set<string>

    constructor (journal: Journal)
      ensures this.journal == journal && minted == {}
    {
      this.journal, minted := journal, {};
    }

    method GenerateKey(ghost owner: string) returns (answer: Answer)
      modifies this, journal
      ensures journal.calls == old(journal.calls) + [Generated(owner, answer)]
      ensures answer.Yields? ==> answer.id !in old(minted)
      ensures minted == if answer.Yields? then old(minted) + {answer.id} else old(minted)
    {
      answer := *;
      if answer.Yields? && answer.id in minted { answer := Fails; }
      if answer.Yields? { minted := minted + {answer.id}; }
      journal.calls := journal.calls + [Generated(owner, answer)];
    }

    /** Rotates the key, which may keep its id. */
    method RotateKey(id: string, ghost owner: string) returns (answer: Answer)
      modifies this, journal
      ensures journal.calls == old(journal.calls) + [Destructive(owner, id, Rotate, answer)]
      ensures answer.Yields? ==> answer.id == id || answer.id !in old(minted)
      ensures minted == if answer.Yields? then old(minted) + {answer.id} else old(minted)
    {
      answer := *;
      if answer.Yields? && answer.id != id && answer.id in minted { answer := Fails; }
      if answer.Yields? { minted := minted + {answer.id}; }
      journal.calls := journal.calls + [Destructive(owner, id, Rotate, answer)];
    }

    /** Disables or destroys the key. */
    method Retire(id: string, action: Action, ghost owner: string) returns (answer: Answer)
      modifies journal
      ensures journal.calls == old(journal.calls) + [Destructive(owner, id, action, answer)]
      ensures answer.Yields? ==> answer.id == id
    {
      var ok: bool := *;
      answer := if ok then Yields(id, "", "") else Fails;
      journal.calls := journal.calls + [Destructive(owner, id, action, answer)];
    }
  }

  /** The event sink: it records an event or fails. */
  class Sink {
    var log: seq<Event>

    constructor ()
      ensures log == []
    {
      log := [];
    }

    method Emit(e: Event) returns (ok: bool)
      modifies this
      ensures log == if ok then old(log) + [e] else old(log)
    {
      ok := *;
      if ok { log := log + [e]; }
    }
  }

  class Service {
    const cfg: Config
    const journal: Journal
    const gate: Gate
    const provider: Provider
    const sink: Sink
    var keys: map<string, Record>
    var cache: Cache
    /** Every record ever made, in order. */
    ghost var Objects: seq<Record>
    ghost var Model: Exact
    /** The calls so far and what each was told. */
    ghost var History: seq<Input>
    ghost var Replies: seq<Outcome>

    /** The records are as the model numbers them, each an object of its own, and the index leads to them. */
    ghost predicate Mirrors(index: map<string, nat>, recs: seq<Rec>)
      reads this`keys, this`Objects, Objects
    {
      && |Objects| == |recs|
      && (forall m, n :: 0 <= m < n < |Objects| ==> Objects[m] != Objects[n])
      && (forall n :: 0 <= n < |Objects| ==> Objects[n].Is(recs[n]))
      && keys.Keys == index.Keys
      && (forall mk :: mk in keys ==> index[mk] < |Objects| && keys[mk] == Objects[index[mk]])
    }

    ghost predicate IsRun()
      reads this`Model, this`History, this`Replies
    {
      Model == RunExact(cfg, History) && Replies == RepliesOf(cfg, History)
    }

    ghost predicate Wired() { gate.journal == journal && provider.journal == journal }

    ghost predicate Valid()
      reads this, journal, provider, sink, Objects
    {
      && Wired() && IsRun() && Mirrors(Model.index, Model.recs)
      && cache == Model.cache && sink.log == Model.log && provider.minted == Model.minted
      && journal.calls == Model.calls
    }

    constructor (cfg: Config)
      ensures Valid() && History == [] && Replies == [] && this.cfg == cfg
    {
      this.cfg := cfg;
      var j := new Journal();
      var g := new Gate(j);
      var p := new Provider(j);
      var k := new Sink();
      journal, gate, provider, sink := j, g, p, k;
      keys, cache := map[], map[];
      Objects, Model, History, Replies := [], NOTHING, [], [];
    }

    /** Takes one step of the model. */
    ghost method Advance(i: Input)
      requires IsRun()
      modifies this`Model, this`History, this`Replies
      ensures old(Leads(Model)) && Model == DoExact(cfg, old(Model), i)
      ensures Replies == old(Replies) + [ReplyExact(cfg, old(Model), i)]
      ensures History == old(History) + [i] && IsRun()
    {
      RunExactSnoc(cfg, History, i);
      Replies := Replies + [ReplyExact(cfg, Model, i)];
      Model, History := DoExact(cfg, Model, i), History + [i];
    }

    /** What the model does with a key the provider has generated. */
    ghost method AdvanceNew(i: Input, r: Rec)
      requires IsRun() && i.Generate? && i.tenant != "" && !Replays(cfg, Model.cache, i.tenant, i.idemKey)
      requires i.answer.Yields? && i.answer.id !in Model.minted
      requires r == Rec(i.tenant, i.answer.id, i.answer.algorithm, 1, Active, i.answer.pub)
      modifies this`Model, this`History, this`Replies
      ensures History == old(History) + [i] && IsRun()
      ensures Model.calls == old(Model).calls + [Generated(i.tenant, i.answer)]
      ensures Model.minted == old(Model).minted + {r.id}
      ensures Model.log ==
              if i.emitted then old(Model).log + [EventOf(KeyGenerated, i.tenant, r, 0)] else old(Model).log
      ensures Model.cache == if i.emitted then Kept(cfg, old(Model).cache, i.tenant, i.idemKey, r) else old(Model).cache
      ensures Model.recs == if i.emitted then old(Model).recs + [r] else old(Model).recs
      ensures Model.index == if i.emitted then old(Model).index[MapKey(i.tenant, r.id) := |old(Model).recs|]
                             else old(Model).index
      ensures Replies == old(Replies) + [if i.emitted then Ok(ResultOf(r)) else Err(EventLost)]
    {
      Advance(i);
    }

    /** Indexes a new record. */
    method Install(mk: string, rec: Record, ghost r: Rec)
      requires Mirrors(Model.index, Model.recs) && rec.Is(r) && rec !in Objects
      modifies this`keys, this`Objects
      ensures Objects == old(Objects) + [rec]
      ensures Mirrors(Model.index[mk := |Model.recs|], Model.recs + [r])
    {
      keys := keys[mk := rec];
      Objects := Objects + [rec];
    }

    /** Emits the event for a record, and on success keeps and returns its result. */
    method EmitFor(typ: EventType, tenant: string, idemKey: string, rec: Record, superseded: nat, ghost r: Rec)
      returns (out: Outcome)
      requires rec.Is(r)
      modifies this`cache, sink
      ensures out == if out.Ok? then Ok(ResultOf(r)) else Err(EventLost)
      ensures sink.log == if out.Ok? then old(sink.log) + [EventOf(typ, tenant, r, superseded)] else old(sink.log)
      ensures cache == if out.Ok? then Kept(cfg, old(cache), tenant, idemKey, r) else old(cache)
    {
      var emitted := sink.Emit(Event(typ, tenant, rec.id, rec.version, rec.algorithm, rec.pub, superseded));
      if !emitted { return Err(EventLost); }
      var res := rec.ToResult();
      assert rec.Is(r);
      if cfg.deduped && idemKey != "" { cache := cache[(tenant, idemKey) := res]; }
      out := Ok(res);
    }

    /** Logs and records the key the provider has just generated. */
    method RecordNew(tenant: string, idemKey: string, answer: Answer) returns (out: Outcome, ghost i: Input)
      requires Wired() && IsRun() && Mirrors(Model.index, Model.recs) && cache == Model.cache && sink.log == Model.log
      requires journal.calls == Model.calls + [Generated(tenant, answer)]
      requires tenant != "" && !Replays(cfg, Model.cache, tenant, idemKey)
      requires answer.Yields? && answer.id !in Model.minted && provider.minted == Model.minted + {answer.id}
      modifies this, sink
      ensures Valid() && History == old(History) + [i] && Replies == old(Replies) + [out]
      ensures i.Generate? && i.tenant == tenant && i.idemKey == idemKey
    {
      var rec := new Record(tenant, answer.id, answer.algorithm, answer.pub);
      ghost var r := Rec(tenant, answer.id, answer.algorithm, 1, Active, answer.pub);
      out := EmitFor(KeyGenerated, tenant, idemKey, rec, 0, r);
      i := Input.Generate(tenant, idemKey, answer, out.Ok?);
      if out.Ok? {
        Install(MapKey(tenant, rec.id), rec, r);
        AdvanceNew(i, r);
      } else {
        AdvanceNew(i, r);
      }
    }

    method GenerateOnce(tenant: string, idemKey: string) returns (out: Outcome, ghost i: Input)
      requires Valid() && tenant != "" && !Replays(cfg, Model.cache, tenant, idemKey)
      modifies this, provider, sink, journal
      ensures Valid() && History == old(History) + [i] && Replies == old(Replies) + [out]
      ensures i.Generate? && i.tenant == tenant && i.idemKey == idemKey
    {
      var answer := provider.GenerateKey(tenant);
      if answer.Fails? {
        i := Input.Generate(tenant, idemKey, Fails, false);
        Advance(i);
        return Err(ProviderFailed), i;
      }
      out, i := RecordNew(tenant, idemKey, answer);
    }

    method Generate(tenant: string, idemKey: string) returns (out: Outcome, ghost i: Input)
      requires Valid()
      modifies this, provider, sink, journal
      ensures Valid() && History == old(History) + [i] && Replies == old(Replies) + [out]
      ensures i.Generate? && i.tenant == tenant && i.idemKey == idemKey
    {
      i := Input.Generate(tenant, idemKey, Fails, false);
      if tenant == "" {
        Advance(i);
        return Err(TenantRequired), i;
      }
      if cfg.deduped && idemKey != "" && (tenant, idemKey) in cache {
        Advance(i);
        return Ok(cache[(tenant, idemKey)]), i;
      }
      out, i := GenerateOnce(tenant, idemKey);
    }

    /** The provider call, and the change to the record in place when it succeeds. */
    method Apply(action: Action, rec: Record, ghost n: nat) returns (answer: Answer)
      requires Wired() && Mirrors(Model.index, Model.recs) && n < |Objects| && Objects[n] == rec
      requires Model.recs[n].id in provider.minted
      modifies rec, provider, journal
      ensures journal.calls == old(journal.calls)
                               + [Call.Destructive(Model.recs[n].tenant, Model.recs[n].id, action, answer)]
      ensures answer.Fails? ==> Mirrors(Model.index, Model.recs) && provider.minted == old(provider.minted)
      ensures answer.Yields? ==>
                var r' := Changed(Model.recs[n], action, answer);
                && rec.Is(r') && Mirrors(Model.index, Model.recs[n := r'])
                && provider.minted == old(provider.minted) + {r'.id}
                && AnswerOk(old(provider.minted), Model.recs[n].id, action, answer)
    {
      assert rec.Is(Model.recs[n]);
      if action == Rotate {
        answer := provider.RotateKey(rec.id, rec.tenant);
      } else {
        answer := provider.Retire(rec.id, action, rec.tenant);
      }
      if answer.Yields? { rec.Change(action, answer, Model.recs[n]); }
    }

    /** Moves a record whose provider id has changed to its new place. */
    method Reindex(tenant: string, priorId: string, rec: Record, ghost n: nat, ghost index: map<string, nat>,
                   ghost recs: seq<Rec>)
      requires Mirrors(index, recs) && n < |Objects| && Objects[n] == rec
      modifies this`keys
      ensures Mirrors(Moved(index, tenant, priorId, rec.id, n), recs)
    {
      if rec.id != priorId {
        keys := keys - {MapKey(tenant, priorId)};
        keys := keys[MapKey(tenant, rec.id) := rec];
      }
    }

    /** This call is past the replay check and the gate, and the index leads to record n. */
    ghost predicate Found(tenant: string, keyId: string, idemKey: string, n: nat)
      reads this`Model
    {
      && tenant != "" && keyId != "" && !Replays(cfg, Model.cache, tenant, idemKey)
      && MapKey(tenant, keyId) in Model.index && Model.index[MapKey(tenant, keyId)] == n < |Model.recs|
    }

    /** The calls of the model so far, once the gate has said yes. */
    ghost function CallsAfterYes(tenant: string, keyId: string, action: Action): (calls: seq<Call>)
      reads this`Model
    {
      if cfg.gated then Model.calls + [Asked(tenant, keyId, action, true)] else Model.calls
    }

    /** What the model does with a change the provider has made. */
    ghost method AdvanceChange(i: Input, n: nat)
      requires IsRun() && i.Act? && i.approved && Found(i.tenant, i.keyId, i.idemKey, n)
      requires AnswerOk(Model.minted, Model.recs[n].id, i.action, i.answer)
      modifies this`Model, this`History, this`Replies
      ensures History == old(History) + [i] && IsRun()
      ensures var r := old(Model).recs[n];
              var r' := Changed(r, i.action, i.answer);
              && Model.recs == old(Model).recs[n := r']
              && Model.index == Moved(old(Model).index, i.tenant, r.id, r'.id, n)
              && Model.minted == old(Model).minted + {r'.id}
              && Model.calls == old(CallsAfterYes(i.tenant, i.keyId, i.action))
                                + [Call.Destructive(r.tenant, r.id, i.action, i.answer)]
      ensures var r := old(Model).recs[n];
              var r' := Changed(r, i.action, i.answer);
              var superseded := if i.action == Rotate then r.version else 0;
              && Model.log == (if i.emitted then old(Model).log + [EventOf(TypeOf(i.action), i.tenant, r', superseded)]
                               else old(Model).log)
              && Model.cache == (if i.emitted then Kept(cfg, old(Model).cache, i.tenant, i.idemKey, r')
                                 else old(Model).cache)
              && Replies == old(Replies) + [if i.emitted then Ok(ResultOf(r')) else Err(EventLost)]
    {
      Advance(i);
    }

    /** And with one the provider refused. */
    ghost method AdvanceFailed(i: Input, n: nat)
      requires IsRun() && i.Act? && i.approved && Found(i.tenant, i.keyId, i.idemKey, n) && i.answer.Fails?
      modifies this`Model, this`History, this`Replies
      ensures History == old(History) + [i] && IsRun()
      ensures Model.recs == old(Model).recs && Model.index == old(Model).index && Model.minted == old(Model).minted
      ensures Model.log == old(Model).log && Model.cache == old(Model).cache
      ensures var r := old(Model).recs[n];
              Model.calls == old(CallsAfterYes(i.tenant, i.keyId, i.action))
                             + [Call.Destructive(r.tenant, r.id, i.action, Fails)]
      ensures Replies == old(Replies) + [Err(ProviderFailed)]
    {
      Advance(i);
    }

    /** The change the provider has made is in the record and the index; what is left is to log it. */
    ghost predicate Shown(action: Action, tenant: string, keyId: string, answer: Answer, rec: Record, n: nat)
      requires n < |Model.recs| && answer.Yields?
      reads this, Objects, rec, provider, journal
    {
      var r := Model.recs[n];
      var r' := Changed(r, action, answer);
      && rec.Is(r') && Mirrors(Moved(Model.index, tenant, r.id, r'.id, n), Model.recs[n := r'])
      && provider.minted == Model.minted + {r'.id}
      && journal.calls == CallsAfterYes(tenant, keyId, action) + [Call.Destructive(r.tenant, r.id, action, answer)]
    }

    /** The provider call with its effect on the record and the index. */
    method Carry(action: Action, tenant: string, keyId: string, rec: Record, ghost n: nat) returns (answer: Answer)
      requires Wired() && Mirrors(Model.index, Model.recs) && n < |Objects| && rec == Objects[n]
      requires provider.minted == Model.minted && Model.recs[n].id in Model.minted
      requires journal.calls == CallsAfterYes(tenant, keyId, action)
      modifies this`keys, provider, journal, rec
      ensures answer.Fails? ==>
                && Mirrors(Model.index, Model.recs) && provider.minted == Model.minted
                && journal.calls == CallsAfterYes(tenant, keyId, action)
                                    + [Call.Destructive(Model.recs[n].tenant, Model.recs[n].id, action, Fails)]
      ensures answer.Yields? ==> Shown(action, tenant, keyId, answer, rec, n)
      ensures answer.Yields? ==> AnswerOk(Model.minted, Model.recs[n].id, action, answer)
    {
      assert rec.Is(Model.recs[n]);
      var priorId := rec.id;
      answer := Apply(action, rec, n);
      if answer.Yields? {
        Reindex(tenant, priorId, rec, n, Model.index, Model.recs[n := Changed(Model.recs[n], action, answer)]);
      }
    }

    /** Changes a key that was found: provider, record, index, event. */
    method Change(action: Action, tenant: string, keyId: string, idemKey: string, rec: Record, ghost n: nat)
      returns (out: Outcome, ghost i: Input)
      requires Wired() && IsRun() && Mirrors(Model.index, Model.recs) && Found(tenant, keyId, idemKey, n)
      requires cache == Model.cache && sink.log == Model.log && provider.minted == Model.minted
      requires journal.calls == CallsAfterYes(tenant, keyId, action) && rec == Objects[n]
      modifies this, provider, sink, journal, rec
      ensures Valid() && History == old(History) + [i] && Replies == old(Replies) + [out]
      ensures i.Act? && (i.action, i.tenant, i.keyId, i.idemKey) == (action, tenant, keyId, idemKey)
    {
      IdIsMinted(n);
      assert rec.Is(Model.recs[n]);
      var priorVersion := rec.version;
      var answer := Carry(action, tenant, keyId, rec, n);
      if answer.Fails? {
        out, i := ReportFailed(action, tenant, keyId, idemKey, n);
      } else {
        out, i := Report(action, tenant, keyId, idemKey, rec, n, answer, priorVersion);
      }
    }

    lemma IdIsMinted(n: nat)
      requires IsRun() && n < |Model.recs|
      ensures Model.recs[n].id in Model.minted
    {
      IdsAreMinted(cfg, History);
    }

    /** The provider refused: nothing changed but the noted call. */
    method ReportFailed(action: Action, tenant: string, keyId: string, idemKey: string, ghost n: nat)
      returns (out: Outcome, ghost i: Input)
      requires Wired() && IsRun() && Found(tenant, keyId, idemKey, n) && Mirrors(Model.index, Model.recs)
      requires cache == Model.cache && sink.log == Model.log && provider.minted == Model.minted
      requires journal.calls == CallsAfterYes(tenant, keyId, action)
                                + [Call.Destructive(Model.recs[n].tenant, Model.recs[n].id, action, Fails)]
      modifies this`Model, this`History, this`Replies
      ensures Valid() && History == old(History) + [i] && Replies == old(Replies) + [out]
      ensures i.Act? && (i.action, i.tenant, i.keyId, i.idemKey) == (action, tenant, keyId, idemKey)
    {
      i := Act(action, tenant, keyId, idemKey, true, Fails, false);
      AdvanceFailed(i, n);
      out := Err(ProviderFailed);
    }

    method Report(action: Action, tenant: string, keyId: string, idemKey: string, rec: Record, ghost n: nat,
                  answer: Answer, priorVersion: nat)
      returns (out: Outcome, ghost i: Input)
      requires Wired() && IsRun() && Found(tenant, keyId, idemKey, n)
      requires cache == Model.cache && sink.log == Model.log && AnswerOk(Model.minted, Model.recs[n].id, action, answer)
      requires priorVersion == Model.recs[n].version && Shown(action, tenant, keyId, answer, rec, n)
      modifies this`cache, this`Model, this`History, this`Replies, sink
      ensures Valid() && History == old(History) + [i] && Replies == old(Replies) + [out]
      ensures i.Act? && (i.action, i.tenant, i.keyId, i.idemKey) == (action, tenant, keyId, idemKey)
    {
      var superseded := if action == Rotate then priorVersion else 0;
      out := EmitFor(TypeOf(action), tenant, idemKey, rec, superseded, Changed(Model.recs[n], action, answer));
      i := Act(action, tenant, keyId, idemKey, true, answer, out.Ok?);
      Settle(i, rec, n);
    }

    /** With the event emitted or lost, the call is over. */
    ghost method Settle(i: Input, rec: Record, n: nat)
      requires Wired() && IsRun() && i.Act? && i.approved && Found(i.tenant, i.keyId, i.idemKey, n)
      requires AnswerOk(Model.minted, Model.recs[n].id, i.action, i.answer)
      requires Shown(i.action, i.tenant, i.keyId, i.answer, rec, n)
      requires var r := Model.recs[n];
               var r' := Changed(r, i.action, i.answer);
               var superseded := if i.action == Rotate then r.version else 0;
               if i.emitted then
                 && sink.log == Model.log + [EventOf(TypeOf(i.action), i.tenant, r', superseded)]
                 && cache == Kept(cfg, Model.cache, i.tenant, i.idemKey, r')
               else sink.log == Model.log && cache == Model.cache
      modifies this`Model, this`History, this`Replies
      ensures Valid() && History == old(History) + [i]
      ensures Replies == old(Replies) +
                [if i.emitted then Ok(ResultOf(Changed(old(Model).recs[n], i.action, i.answer))) else Err(EventLost)]
    {
      ghost var r' := Changed(Model.recs[n], i.action, i.answer);
      ghost var index', recs' := Moved(Model.index, i.tenant, Model.recs[n].id, r'.id, n), Model.recs[n := r'];
      assert Mirrors(index', recs');
      AdvanceChange(i, n);
      assert Model.index == index' && Model.recs == recs';
    }

    /** Asks the gate, where there is one. */
    method Ask(tenant: string, keyId: string, action: Action, requester: string) returns (approved: bool)
      requires Wired()
      modifies journal
      ensures if cfg.gated then journal.calls == old(journal.calls) + [Asked(tenant, keyId, action, approved)]
              else approved && journal.calls == old(journal.calls)
    {
      approved := true;
      if cfg.gated { approved := gate.IsApproved(tenant, keyId, action, requester); }
    }

    /** What the model does with a call that the gate refuses or that names no known key. */
    ghost method AdvanceRefused(i: Input)
      requires IsRun() && i.Act? && i.tenant != "" && i.keyId != "" && !Replays(cfg, Model.cache, i.tenant, i.idemKey)
      requires (cfg.gated && !i.approved) || MapKey(i.tenant, i.keyId) !in Model.index
      modifies this`Model, this`History, this`Replies
      ensures History == old(History) + [i] && IsRun()
      ensures Model == old(Model).(calls := Model.calls)
      ensures Model.calls == if cfg.gated then old(Model).calls + [Asked(i.tenant, i.keyId, i.action, i.approved)]
                             else old(Model).calls
      ensures Replies == old(Replies) + [Err(if cfg.gated && !i.approved then NotApproved else UnknownKey)]
    {
      Advance(i);
    }

    /** Turns a call away before the provider is told anything. */
    method Refuse(action: Action, tenant: string, keyId: string, idemKey: string, approved: bool)
      returns (out: Outcome, ghost i: Input)
      requires Wired() && IsRun() && Mirrors(Model.index, Model.recs) && tenant != "" && keyId != ""
      requires cache == Model.cache && sink.log == Model.log && provider.minted == Model.minted
      requires journal.calls ==
               if cfg.gated then Model.calls + [Asked(tenant, keyId, action, approved)] else Model.calls
      requires !Replays(cfg, Model.cache, tenant, idemKey) && (!cfg.gated ==> approved)
      requires !approved || MapKey(tenant, keyId) !in Model.index
      modifies this`Model, this`History, this`Replies
      ensures Valid() && History == old(History) + [i] && Replies == old(Replies) + [out]
      ensures i.Act? && (i.action, i.tenant, i.keyId, i.idemKey) == (action, tenant, keyId, idemKey)
    {
      i := Act(action, tenant, keyId, idemKey, approved, Fails, false);
      AdvanceRefused(i);
      out := Err(if approved then UnknownKey else NotApproved);
    }

    method DestructiveOnce(action: Action, tenant: string, keyId: string, requester: string, idemKey: string)
      returns (out: Outcome, ghost i: Input)
      requires Valid() && tenant != "" && keyId != "" && !Replays(cfg, Model.cache, tenant, idemKey)
      modifies this, provider, sink, journal, keys.Values
      ensures Valid() && History == old(History) + [i] && Replies == old(Replies) + [out]
      ensures i.Act? && (i.action, i.tenant, i.keyId, i.idemKey) == (action, tenant, keyId, idemKey)
    {
      var approved := Ask(tenant, keyId, action, requester);
      if !approved || MapKey(tenant, keyId) !in keys {
        out, i := Refuse(action, tenant, keyId, idemKey, approved);
        return;
      }
      ghost var n := Model.index[MapKey(tenant, keyId)];
      out, i := Change(action, tenant, keyId, idemKey, keys[MapKey(tenant, keyId)], n);
    }

    /** Rotate, revoke or zeroize. */
    method Destructive(action: Action, tenant: string, keyId: string, requester: string, idemKey: string)
      returns (out: Outcome, ghost i: Input)
      requires Valid()
      modifies this, provider, sink, journal, keys.Values
      ensures Valid() && History == old(History) + [i] && Replies == old(Replies) + [out]
      ensures i.Act? && (i.action, i.tenant, i.keyId, i.idemKey) == (action, tenant, keyId, idemKey)
    {
      i := Act(action, tenant, keyId, idemKey, false, Fails, false);
      if tenant == "" {
        Advance(i);
        return Err(TenantRequired), i;
      }
      if keyId == "" {
        Advance(i);
        return Err(KeyRefRequired), i;
      }
      if cfg.deduped && idemKey != "" && (tenant, idemKey) in cache {
        Advance(i);
        return Ok(cache[(tenant, idemKey)]), i;
      }
      out, i := DestructiveOnce(action, tenant, keyId, requester, idemKey);
    }

    /**
     What the records on the heap hold is what the provider answered, and nothing else: reading the journal alone
     gives each its tenant, algorithm, public key, version and state.
     */
    lemma RecordsAreAnswers(mk: string)
      requires Valid() && mk in keys
      ensures exists r :: keys[mk].Is(r) && IsAsSaid(journal.calls, r)
    {
      RecordsAreAsSaid(cfg, History);
      assert keys[mk].Is(Model.recs[Model.index[mk]]);
    }

    /** And what the callers were told: every success that was no replay is the provider's answer to that call. */
    lemma RepliesAreAnswers(k: nat)
      requires Valid() && k < |History| && k < |Replies| && Replies[k].Ok?
      requires !Replays(cfg, RunExact(cfg, History[..k]).cache, History[k].tenant, History[k].idemKey)
      ensures exists n: nat :: n < |journal.calls| && TellsAnswer(Replies[k].value, History[k], journal.calls[n])
    {
      RepliesCount(cfg, History);
      ReplyIsAnswer(cfg, History, k);
    }

    /**
     Dual control on the heap: as long as the tenants that called are apart, every destructive provider call made
     so far directly follows the gate's yes to that action on that key for the key's own tenant.
     */
    lemma DualControl(tenants: set<string>)
      requires Valid() && cfg.gated && AllApart(tenants) && By(History, tenants)
      ensures AllApproved(journal.calls)
    {
      ExactIsRun(cfg, History, tenants);
      RunKeepsInv(cfg, History, tenants);
    }
  }
}
