/**
 Destructive calls of ee/managedkeys that overlap. A call asks the gate, finds the record, tells the provider and
 changes the record in place, and re-indexes it, and only the lookup and the re-indexing hold the lock. A run is any
 interleaving of those steps. The index is keyed by tenant and id, which is what it amounts to for tenants whose
 index keys never meet.
 */
module ManagedKeyRaces {
  import opened ManagedKeys

  type Place = (string, string)

  /** Where a call is: past the gate; holding a record and the id it had then; and past the provider. */
  datatype Flight =
    | Approved(tenant: string, keyId: string, action: Action)
    | Found(tenant: string, keyId: string, action: Action, n: nat, prior: string)
    | Told(tenant: string, keyId: string, action: Action, n: nat, prior: string)

  /** What the gate and the provider were asked, and by which call. */
  datatype Entry = Entry(caller: nat, call: Call)

  datatype World = World(
    index: map<Place, nat>,
    recs: seq<Rec>,
    minted: set<string>,
    flights: map<nat, Flight>,
    log: seq<Entry>)

  const NOTHING := World(map[], [], {}, map[], [])

  datatype Step =
    | Make(tenant: string, answer: Answer)
    | Ask(caller: nat, tenant: string, keyId: string, action: Action, yes: bool)
    | Find(caller: nat)
    | Tell(caller: nat, answer: Answer)
    | Reindex(caller: nat)

  // ---------------------------------------------------------------- steps

  function Logged(w: World, caller: nat, call: Call): (w': World) {
    w.(log := w.log + [Entry(caller, call)])
  }

  function DoMake(w: World, tenant: string, answer: Answer): (w': World) {
    if answer.Fails? || answer.id in w.minted then w
    else
      w.(index := w.index[(tenant, answer.id) := |w.recs|], minted := w.minted + {answer.id},
         recs := w.recs + [Rec(tenant, answer.id, answer.algorithm, 1, Active, answer.pub)])
  }

  function DoAsk(w: World, c: nat, tenant: string, keyId: string, action: Action, yes: bool): (w': World) {
    if c in w.flights then w
    else
      var w1 := Logged(w, c, Asked(tenant, keyId, action, yes));
      if yes then w1.(flights := w.flights[c := Approved(tenant, keyId, action)]) else w1
  }

  function DoFind(w: World, c: nat): (w': World) {
    if c !in w.flights || !w.flights[c].Approved? then w
    else
      var f := w.flights[c];
      if (f.tenant, f.keyId) !in w.index || w.index[(f.tenant, f.keyId)] >= |w.recs| then w.(flights := w.flights - {c})
      else
        var n := w.index[(f.tenant, f.keyId)];
        w.(flights := w.flights[c := Found(f.tenant, f.keyId, f.action, n, w.recs[n].id)])
  }

  /** The call is about to tell the provider. */
  predicate CanTell(w: World, c: nat) { c in w.flights && w.flights[c].Found? && w.flights[c].n < |w.recs| }

  function DoTell(w: World, c: nat, answer: Answer): (w': World) {
    if !CanTell(w, c) then w
    else
      var f := w.flights[c];
      var r := w.recs[f.n];
      var w1 := Logged(w, c, Telling(w.minted, r, f.action, answer));
      if !AnswerOk(w.minted, r.id, f.action, answer) then w1.(flights := w.flights - {c})
      else
        var r' := Changed(r, f.action, answer);
        w1.(recs := w.recs[f.n := r'], minted := w.minted + {r'.id},
            flights := w.flights[c := Told(f.tenant, f.keyId, f.action, f.n, f.prior)])
  }

  /** The call is about to re-index its record, whose id is not the one it had when it was found. */
  predicate Moves(w: World, c: nat) {
    c in w.flights && w.flights[c].Told? && w.flights[c].n < |w.recs| && w.recs[w.flights[c].n].id != w.flights[c].prior
  }

  function DoReindex(w: World, c: nat): (w': World) {
    if c !in w.flights || !w.flights[c].Told? then w
    else
      var f := w.flights[c];
      var w1 := w.(flights := w.flights - {c});
      if !Moves(w, c) then w1
      else w1.(index := (w.index - {(f.tenant, f.prior)})[(f.tenant, w.recs[f.n].id) := f.n])
  }

  function Do(w: World, s: Step): (w': World) {
    match s
    case Make(tenant, answer) => DoMake(w, tenant, answer)
    case Ask(c, tenant, keyId, action, yes) => DoAsk(w, c, tenant, keyId, action, yes)
    case Find(c) => DoFind(w, c)
    case Tell(c, answer) => DoTell(w, c, answer)
    case Reindex(c) => DoReindex(w, c)
  }

  function Run(steps: seq<Step>): (w: World) {
    if steps == [] then NOTHING else Do(Run(steps[..|steps| - 1]), steps[|steps| - 1])
  }

  lemma RunSnoc(steps: seq<Step>, s: Step)
    ensures Run(steps + [s]) == Do(Run(steps), s)
  {
    assert (steps + [s])[..|steps|] == steps;
  }

  // ---------------------------------------------------------------- what is promised

  /** No record is reached under two ids. */
  predicate HeldOnce(w: World) {
    forall p, q :: p in w.index && q in w.index && w.index[p] == w.index[q] ==> p == q
  }

  /** The last thing this call asked the gate. */
  function LastAsk(log: seq<Entry>, c: nat): (a: seq<Call>)
    ensures |a| <= 1
  {
    if log == [] then []
    else
      var last := log[|log| - 1];
      if last.caller == c && last.call.Asked? then [last.call] else LastAsk(log[..|log| - 1], c)
  }

  /** What was destroyed is what the call had asked about, and the gate had said yes. */
  predicate ApprovedAt(log: seq<Entry>, i: nat)
    requires i < |log|
  {
    log[i].call.Destructive? ==>
      var d := log[i].call; LastAsk(log[..i], log[i].caller) == [Asked(d.tenant, d.keyId, d.action, true)]
  }

  ghost predicate AllApproved(log: seq<Entry>) {
    forall i: nat :: i < |log| ==> ApprovedAt(log, i)
  }

  /** No record is reached under two ids at any point of the run. */
  predicate HeldThroughout(steps: seq<Step>) {
    HeldOnce(Run(steps)) && (steps == [] || HeldThroughout(steps[..|steps| - 1]))
  }

  // ---------------------------------------------------------------- what breaks it

  /** The provider is told about a record that has another id than the call asked about. */
  predicate Stale(w: World, s: Step) {
    s.Tell? && CanTell(w, s.caller) && w.recs[w.flights[s.caller].n].id != w.flights[s.caller].keyId
  }

  /** A record is re-indexed that is in the index under a third id by now. */
  predicate Displaces(w: World, s: Step) {
    && s.Reindex? && Moves(w, s.caller)
    && var f := w.flights[s.caller];
       exists p :: p in w.index && w.index[p] == f.n && p != (f.tenant, f.prior) && p != (f.tenant, w.recs[f.n].id)
  }

  /** Some step of the run was such. */
  predicate SomeStale(steps: seq<Step>) {
    steps != [] && (SomeStale(steps[..|steps| - 1]) || Stale(Run(steps[..|steps| - 1]), steps[|steps| - 1]))
  }

  predicate SomeDisplaces(steps: seq<Step>) {
    steps != [] && (SomeDisplaces(steps[..|steps| - 1]) || Displaces(Run(steps[..|steps| - 1]), steps[|steps| - 1]))
  }

  // ---------------------------------------------------------------- in every run

  predicate FlightOk(recs: seq<Rec>, log: seq<Entry>, c: nat, f: Flight) {
    && LastAsk(log, c) == [Asked(f.tenant, f.keyId, f.action, true)]
    && (!f.Approved? ==> f.n < |recs| && recs[f.n].tenant == f.tenant)
  }

  /** A call in flight has its approval, and every place leads to a record of its tenant. */
  ghost predicate Sound(w: World) {
    && (forall p :: p in w.index ==> w.index[p] < |w.recs| && w.recs[w.index[p]].tenant == p.0)
    && (forall c :: c in w.flights ==> FlightOk(w.recs, w.log, c, w.flights[c]))
  }

  /** The provider gave this id, algorithm and public key in one answer. */
  predicate GaveWhole(s: Step, r: Rec) {
    (s.Make? || s.Tell?) && s.answer == Yields(r.id, r.algorithm, r.pub)
  }

  /** Whatever calls overlap, no record mixes two answers: what it says of a key the provider said at once. */
  lemma {:induction false} RecordsComeWhole(steps: seq<Step>, n: nat)
    requires n < |Run(steps).recs|
    ensures exists k :: 0 <= k < |steps| && GaveWhole(steps[k], Run(steps).recs[n])
  {
    var init, last := steps[..|steps| - 1], steps[|steps| - 1];
    var w, w' := Run(init), Run(steps);
    if n < |w.recs| && !GaveWhole(last, w'.recs[n]) {
      assert w'.recs[n].id == w.recs[n].id && w'.recs[n].algorithm == w.recs[n].algorithm
             && w'.recs[n].pub == w.recs[n].pub;
      RecordsComeWhole(init, n);
      var k :| 0 <= k < |init| && GaveWhole(init[k], w.recs[n]);
      assert GaveWhole(steps[k], w'.recs[n]);
    } else {
      assert GaveWhole(steps[|steps| - 1], w'.recs[n]);
    }
  }

  lemma LastAskSnoc(log: seq<Entry>, e: Entry, c: nat)
    ensures LastAsk(log + [e], c) == if e.caller == c && e.call.Asked? then [e.call] else LastAsk(log, c)
  {
    assert (log + [e])[..|log|] == log;
  }

  lemma AskKeepsSound(w: World, s: Step)
    requires Sound(w) && s.Ask?
    ensures Sound(Do(w, s))
  {
    if s.caller !in w.flights {
      var e := Entry(s.caller, Asked(s.tenant, s.keyId, s.action, s.yes));
      forall c | c in Do(w, s).flights ensures FlightOk(w.recs, w.log + [e], c, Do(w, s).flights[c]) {
        LastAskSnoc(w.log, e, c);
      }
    }
  }

  lemma TellKeepsSound(w: World, s: Step)
    requires Sound(w) && s.Tell?
    ensures Sound(Do(w, s))
  {
    if CanTell(w, s.caller) {
      var w' := Do(w, s);
      var f := w.flights[s.caller];
      var e := Entry(s.caller, Telling(w.minted, w.recs[f.n], f.action, s.answer));
      assert w'.log == w.log + [e] && |w'.recs| == |w.recs|;
      assert forall n :: 0 <= n < |w.recs| ==> w'.recs[n].tenant == w.recs[n].tenant;
      forall c | c in w'.flights ensures FlightOk(w'.recs, w'.log, c, w'.flights[c]) {
        LastAskSnoc(w.log, e, c);
        assert FlightOk(w.recs, w.log, c, w.flights[c]);
      }
    }
  }

  lemma StepKeepsSound(w: World, s: Step)
    requires Sound(w)
    ensures Sound(Do(w, s))
  {
    match s
    case Ask(_, _, _, _, _) => AskKeepsSound(w, s);
    case Tell(_, _) => TellKeepsSound(w, s);
    case _ =>
  }

  lemma {:induction false} RunKeepsSound(steps: seq<Step>)
    ensures Sound(Run(steps))
  {
    if steps != [] {
      RunKeepsSound(steps[..|steps| - 1]);
      StepKeepsSound(Run(steps[..|steps| - 1]), steps[|steps| - 1]);
    }
  }

  // ---------------------------------------------------------------- dual control

  lemma ApprovedSnoc(log: seq<Entry>, e: Entry)
    ensures AllApproved(log + [e]) <==>
            AllApproved(log) && (e.call.Destructive? ==>
              LastAsk(log, e.caller) == [Asked(e.call.tenant, e.call.keyId, e.call.action, true)])
  {
    var log' := log + [e];
    assert log'[..|log|] == log;
    forall i: nat | i < |log| ensures ApprovedAt(log', i) == ApprovedAt(log, i) {
      assert log'[..i] == log[..i];
    }
    assert log'[|log|] == e;
    if AllApproved(log') {
      assert ApprovedAt(log', |log|);
      forall i: nat | i < |log| ensures ApprovedAt(log, i) { assert ApprovedAt(log', i); }
    }
  }

  /** A step keeps every destructive call approved exactly when it tells the provider nothing stale. */
  lemma StepApproved(w: World, s: Step)
    requires Sound(w)
    ensures AllApproved(Do(w, s).log) <==> AllApproved(w.log) && !Stale(w, s)
  {
    if s.Tell? && CanTell(w, s.caller) {
      var f := w.flights[s.caller];
      assert FlightOk(w.recs, w.log, s.caller, f);
      ApprovedSnoc(w.log, Entry(s.caller, Telling(w.minted, w.recs[f.n], f.action, s.answer)));
    } else if s.Ask? && s.caller !in w.flights {
      ApprovedSnoc(w.log, Entry(s.caller, Asked(s.tenant, s.keyId, s.action, s.yes)));
    }
  }

  /** In a run every destructive call was approved for what it destroyed, exactly when none was stale. */
  lemma {:induction false} ApprovedExactlyUnlessStale(steps: seq<Step>)
    ensures AllApproved(Run(steps).log) <==> !SomeStale(steps)
  {
    if steps != [] {
      var init := steps[..|steps| - 1];
      ApprovedExactlyUnlessStale(init);
      RunKeepsSound(init);
      StepApproved(Run(init), steps[|steps| - 1]);
    }
  }

  // ---------------------------------------------------------------- one place per record

  lemma ReindexHeldOnce(w: World, s: Step)
    requires HeldOnce(w) && s.Reindex? && Moves(w, s.caller)
    ensures HeldOnce(Do(w, s)) <==> !Displaces(w, s)
  {
    var f := w.flights[s.caller];
    var here, there := (f.tenant, f.prior), (f.tenant, w.recs[f.n].id);
    var w' := Do(w, s);
    assert w'.index == (w.index - {here})[there := f.n];
    if Displaces(w, s) {
      var p :| p in w.index && w.index[p] == f.n && p != here && p != there;
      assert p in w'.index && there in w'.index && w'.index[p] == w'.index[there];
    } else {
      forall p, q | p in w'.index && q in w'.index && w'.index[p] == w'.index[q] ensures p == q {
        assert p == there || (p in w.index && w.index[p] == w'.index[p] && p != here);
        assert q == there || (q in w.index && w.index[q] == w'.index[q] && q != here);
      }
    }
  }

  lemma StepHeldOnce(w: World, s: Step)
    requires Sound(w) && HeldOnce(w)
    ensures HeldOnce(Do(w, s)) <==> !Displaces(w, s)
  {
    if s.Reindex? && Moves(w, s.caller) { ReindexHeldOnce(w, s); }
  }

  /** Throughout a run no record is held twice, exactly when none was re-indexed that had been moved meanwhile. */
  lemma {:induction false} HeldOnceExactlyUnlessDisplaced(steps: seq<Step>)
    ensures HeldThroughout(steps) <==> !SomeDisplaces(steps)
  {
    if steps != [] {
      var init := steps[..|steps| - 1];
      HeldOnceExactlyUnlessDisplaced(init);
      if HeldThroughout(init) {
        RunKeepsSound(init);
        StepHeldOnce(Run(init), steps[|steps| - 1]);
      }
    }
  }

  // ---------------------------------------------------------------- one call on a record at a time

  predicate Holds(f: Flight, n: nat) { !f.Approved? && f.n == n }

  /** The call is about to find a record that another call has found and not yet re-indexed. */
  predicate Busy(w: World, s: Step) {
    && s.Find? && s.caller in w.flights && w.flights[s.caller].Approved?
    && var f := w.flights[s.caller];
       && (f.tenant, f.keyId) in w.index
       && exists c :: c in w.flights && c != s.caller && Holds(w.flights[c], w.index[(f.tenant, f.keyId)])
  }

  /** No call of the run finds a record between another's find and its re-indexing. */
  predicate Serial(steps: seq<Step>) {
    steps == [] || (Serial(steps[..|steps| - 1]) && !Busy(Run(steps[..|steps| - 1]), steps[|steps| - 1]))
  }

  /** What a call that holds a record relies on; home is the id the record is indexed under. */
  predicate HolderOk(f: Flight, recs: seq<Rec>, homes: seq<string>)
    requires |homes| == |recs|
  {
    f.Approved? ||
    (&& f.n < |recs| && f.keyId == f.prior == homes[f.n] && recs[f.n].tenant == f.tenant
     && (f.Found? ==> recs[f.n].id == homes[f.n]))
  }

  /** Ids and homes of different records differ, and all were given out by the provider. */
  ghost predicate IdsApart(recs: seq<Rec>, homes: seq<string>, minted: set<string>)
    requires |homes| == |recs|
  {
    && (forall n :: 0 <= n < |recs| ==> homes[n] in minted && recs[n].id in minted)
    && (forall n, m :: 0 <= n < |recs| && 0 <= m < |recs| && n != m ==>
          homes[n] != homes[m] && homes[n] != recs[m].id && recs[n].id != recs[m].id)
  }

  ghost predicate Tidy(w: World, homes: seq<string>) {
    && |homes| == |w.recs| && IdsApart(w.recs, homes, w.minted)
    && (forall p :: p in w.index ==> w.index[p] < |w.recs| && p == (w.recs[w.index[p]].tenant, homes[w.index[p]]))
    && (forall c :: c in w.flights ==> HolderOk(w.flights[c], w.recs, homes))
    && (forall c, d ::
          c in w.flights && d in w.flights && c != d && !w.flights[c].Approved? && !w.flights[d].Approved? ==>
            w.flights[c].n != w.flights[d].n)
    && (forall n :: 0 <= n < |w.recs| && homes[n] != w.recs[n].id ==>
          exists c :: c in w.flights && w.flights[c].Told? && w.flights[c].n == n)
  }

  lemma TidyIsGood(w: World, homes: seq<string>, s: Step)
    requires Tidy(w, homes)
    ensures !Stale(w, s) && !Displaces(w, s)
  {
  }

  lemma MakeKeepsTidy(w: World, homes: seq<string>, s: Step) returns (homes': seq<string>)
    requires Tidy(w, homes) && s.Make?
    ensures Tidy(Do(w, s), homes')
  {
    homes' := homes;
    if s.answer.Yields? && s.answer.id !in w.minted {
      homes' := homes + [s.answer.id];
      var w' := Do(w, s);
      assert forall n :: 0 <= n < |w.recs| ==> w'.recs[n] == w.recs[n] && homes'[n] == homes[n];
    }
  }

  lemma FindKeepsTidy(w: World, homes: seq<string>, s: Step)
    requires Tidy(w, homes) && s.Find? && !Busy(w, s)
    ensures Tidy(Do(w, s), homes)
  {
    if s.caller in w.flights && w.flights[s.caller].Approved? {
      var f, w' := w.flights[s.caller], Do(w, s);
      if (f.tenant, f.keyId) in w.index {
        var n := w.index[(f.tenant, f.keyId)];
        assert forall c :: c in w.flights && c != s.caller ==> !Holds(w.flights[c], n);
        assert w.recs[n].id == homes[n] == f.keyId;
        assert w'.flights == w.flights[s.caller := Found(f.tenant, f.keyId, f.action, n, homes[n])];
      }
      StillTold(w, w'.flights, homes, s.caller);
    }
  }

  /** Calls other than the one that moved still account for the records under way. */
  lemma StillTold(w: World, flights: map<nat, Flight>, homes: seq<string>, c: nat)
    requires Tidy(w, homes) && (c in w.flights ==> !w.flights[c].Told?)
    requires forall d :: d in w.flights && d != c ==> d in flights && flights[d] == w.flights[d]
    ensures forall n :: 0 <= n < |w.recs| && homes[n] != w.recs[n].id ==>
              exists d :: d in flights && flights[d].Told? && flights[d].n == n
  {
    forall n | 0 <= n < |w.recs| && homes[n] != w.recs[n].id
      ensures exists d :: d in flights && flights[d].Told? && flights[d].n == n
    {
      var d :| d in w.flights && w.flights[d].Told? && w.flights[d].n == n;
      assert d in flights && flights[d].Told?;
    }
  }

  lemma AskKeepsTidy(w: World, homes: seq<string>, s: Step)
    requires Tidy(w, homes) && s.Ask?
    ensures Tidy(Do(w, s), homes)
  {
    if s.caller !in w.flights { StillTold(w, Do(w, s).flights, homes, s.caller); }
  }

  lemma TellKeepsTidy(w: World, homes: seq<string>, s: Step)
    requires Tidy(w, homes) && s.Tell?
    ensures Tidy(Do(w, s), homes)
  {
    if CanTell(w, s.caller) {
      var f, w' := w.flights[s.caller], Do(w, s);
      var r := w.recs[f.n];
      StillTold(w, w'.flights, homes, s.caller);
      if AnswerOk(w.minted, r.id, f.action, s.answer) {
        var r' := Changed(r, f.action, s.answer);
        assert w'.recs == w.recs[f.n := r'] && (r'.id == r.id || r'.id !in w.minted) && r'.tenant == r.tenant;
        assert w'.flights[s.caller] == Told(f.tenant, f.keyId, f.action, f.n, f.prior);
        assert IdsApart(w'.recs, homes, w'.minted);
      }
    }
  }

  lemma HomeMoves(recs: seq<Rec>, homes: seq<string>, minted: set<string>, n: nat)
    requires |homes| == |recs| && IdsApart(recs, homes, minted) && n < |recs|
    ensures IdsApart(recs, homes[n := recs[n].id], minted)
  {
  }

  /** Once a call has re-indexed its record, the records still under way are those of other calls. */
  lemma OthersStillTold(w: World, homes: seq<string>, c: nat)
    requires Tidy(w, homes) && c in w.flights && w.flights[c].Told?
    ensures var homes', flights := homes[w.flights[c].n := w.recs[w.flights[c].n].id], w.flights - {c};
            forall n :: 0 <= n < |w.recs| && homes'[n] != w.recs[n].id ==>
              exists d :: d in flights && flights[d].Told? && flights[d].n == n
  {
    var homes', flights := homes[w.flights[c].n := w.recs[w.flights[c].n].id], w.flights - {c};
    forall n | 0 <= n < |w.recs| && homes'[n] != w.recs[n].id
      ensures exists d :: d in flights && flights[d].Told? && flights[d].n == n
    {
      var d :| d in w.flights && w.flights[d].Told? && w.flights[d].n == n;
      assert d in flights && flights[d].Told?;
    }
  }

  lemma ReindexedPlaces(w: World, homes: seq<string>, c: nat)
    requires Tidy(w, homes) && c in w.flights && w.flights[c].Told?
    ensures var w', n := DoReindex(w, c), w.flights[c].n;
            forall p :: p in w'.index ==>
              w'.index[p] < |w.recs| && p == (w.recs[w'.index[p]].tenant, homes[n := w.recs[n].id][w'.index[p]])
  {
    var w', f := DoReindex(w, c), w.flights[c];
    assert HolderOk(f, w.recs, homes);
    forall p | p in w'.index
      ensures w'.index[p] < |w.recs| && p == (w.recs[w'.index[p]].tenant, homes[f.n := w.recs[f.n].id][w'.index[p]])
    {
      if p in w.index && w.index[p] == w'.index[p] != f.n {
        assert p == (w.recs[w.index[p]].tenant, homes[w.index[p]]);
      }
    }
  }

  lemma ReindexKeepsTidy(w: World, homes: seq<string>, s: Step) returns (homes': seq<string>)
    requires Tidy(w, homes) && s.Reindex?
    ensures Tidy(Do(w, s), homes')
  {
    homes' := homes;
    if s.caller in w.flights && w.flights[s.caller].Told? {
      var f := w.flights[s.caller];
      homes' := homes[f.n := w.recs[f.n].id];
      HomeMoves(w.recs, homes, w.minted, f.n);
      OthersStillTold(w, homes, s.caller);
      ReindexedPlaces(w, homes, s.caller);
    }
  }

  lemma {:induction false} SerialIsTidy(steps: seq<Step>) returns (homes: seq<string>)
    requires Serial(steps)
    ensures Tidy(Run(steps), homes)
  {
    homes := [];
    if steps != [] {
      var init, s := steps[..|steps| - 1], steps[|steps| - 1];
      homes := SerialIsTidy(init);
      match s
      case Make(_, _) => homes := MakeKeepsTidy(Run(init), homes, s);
      case Ask(_, _, _, _, _) => AskKeepsTidy(Run(init), homes, s);
      case Find(_) => FindKeepsTidy(Run(init), homes, s);
      case Tell(_, _) => TellKeepsTidy(Run(init), homes, s);
      case Reindex(_) => homes := ReindexKeepsTidy(Run(init), homes, s);
    }
  }

  lemma {:induction false} SerialIsGood(steps: seq<Step>)
    requires Serial(steps)
    ensures !SomeStale(steps) && !SomeDisplaces(steps)
  {
    if steps != [] {
      var init := steps[..|steps| - 1];
      SerialIsGood(init);
      var homes := SerialIsTidy(init);
      TidyIsGood(Run(init), homes, steps[|steps| - 1]);
    }
  }

  // ---------------------------------------------------------------- two rotations at once

  const KEY := Rec("t", "k", "", 1, Active, "")

  const ROTATION := Found("t", "k", Rotate, 0, "k")

  const YES := Asked("t", "k", Rotate, true)

  const K1 := Yields("k1", "", "")

  const K2 := Yields("k2", "", "")

  /** Two rotations of one key have both been approved and have both found it. */
  function BothFound(): (steps: seq<Step>) {
    [Make("t", Yields("k", "", ""))] + [Ask(0, "t", "k", Rotate, true)] + [Ask(1, "t", "k", Rotate, true)] +
    [Find(0)] + [Find(1)]
  }

  /** The first goes through. */
  function FirstThrough(): (steps: seq<Step>) {
    BothFound() + [Tell(0, K1)] + [Reindex(0)]
  }

  /** And then the second. */
  function TwoRotations(): (steps: seq<Step>) {
    FirstThrough() + [Tell(1, K2)] + [Reindex(1)]
  }

  lemma BothApproved()
    ensures Run([Make("t", Yields("k", "", ""))] + [Ask(0, "t", "k", Rotate, true)] +
                [Ask(1, "t", "k", Rotate, true)]) ==
            World(map[("t", "k") := 0], [KEY], {"k"},
                  map[0 := Approved("t", "k", Rotate), 1 := Approved("t", "k", Rotate)],
                  [Entry(0, YES), Entry(1, YES)])
  {
    var a, b, c := Make("t", Yields("k", "", "")), Ask(0, "t", "k", Rotate, true), Ask(1, "t", "k", Rotate, true);
    RunSnoc([], a);
    assert [] + [a] == [a];
    var w := World(map[("t", "k") := 0], [KEY], {"k"}, map[], []);
    assert Run([a]) == w;
    RunSnoc([a], b);
    assert Run([a] + [b]) == w.(flights := map[0 := Approved("t", "k", Rotate)], log := [Entry(0, YES)]);
    RunSnoc([a] + [b], c);
  }

  lemma FoundBoth()
    ensures Run(BothFound()) ==
            World(map[("t", "k") := 0], [KEY], {"k"}, map[0 := ROTATION, 1 := ROTATION], [Entry(0, YES), Entry(1, YES)])
  {
    BothApproved();
    var three := [Make("t", Yields("k", "", ""))] + [Ask(0, "t", "k", Rotate, true)] + [Ask(1, "t", "k", Rotate, true)];
    RunSnoc(three, Find(0));
    var w := Run(three);
    assert Run(three + [Find(0)]) == w.(flights := map[0 := ROTATION, 1 := Approved("t", "k", Rotate)]);
    RunSnoc(three + [Find(0)], Find(1));
  }

  lemma FirstIsTold()
    ensures Run(BothFound() + [Tell(0, K1)]) ==
            World(map[("t", "k") := 0], [KEY.(id := "k1", version := 2)], {"k", "k1"},
                  map[0 := Told("t", "k", Rotate, 0, "k"), 1 := ROTATION],
                  [Entry(0, YES), Entry(1, YES), Entry(0, Destructive("t", "k", Rotate, K1))])
  {
    FoundBoth();
    RunSnoc(BothFound(), Tell(0, K1));
  }

  lemma FirstIsThrough()
    ensures Run(FirstThrough()) ==
            World(map[("t", "k1") := 0], [KEY.(id := "k1", version := 2)], {"k", "k1"}, map[1 := ROTATION],
                  [Entry(0, YES), Entry(1, YES), Entry(0, Destructive("t", "k", Rotate, K1))])
  {
    FirstIsTold();
    var told := BothFound() + [Tell(0, K1)];
    RunSnoc(told, Reindex(0));
    assert DoReindex(Run(told), 0).index == map[("t", "k1") := 0];
  }

  /** The second tells the provider to rotate the first one's new key, which nobody was asked about. */
  lemma SecondIsStale()
    ensures Stale(Run(FirstThrough()), Tell(1, K2))
    ensures Run(FirstThrough() + [Tell(1, K2)]) ==
            World(map[("t", "k1") := 0], [KEY.(id := "k2", version := 3)], {"k", "k1", "k2"},
                  map[1 := Told("t", "k", Rotate, 0, "k")],
                  [Entry(0, YES), Entry(1, YES), Entry(0, Destructive("t", "k", Rotate, K1)),
                   Entry(1, Destructive("t", "k1", Rotate, K2))])
  {
    FirstIsThrough();
    RunSnoc(FirstThrough(), Tell(1, K2));
  }

  /** And the record ends up under both new ids. */
  lemma TwoRotationsOverlap()
    ensures Run(TwoRotations()).index == map[("t", "k1") := 0, ("t", "k2") := 0]
    ensures Entry(1, Destructive("t", "k1", Rotate, K2)) in Run(TwoRotations()).log
    ensures !HeldOnce(Run(TwoRotations())) && !AllApproved(Run(TwoRotations()).log)
  {
    SecondIsStale();
    var before := FirstThrough() + [Tell(1, K2)];
    RunSnoc(before, Reindex(1));
    var w, w' := Run(before), Run(TwoRotations());
    assert w'.index == map[("t", "k1") := 0, ("t", "k2") := 0] && w'.log == w.log;
    assert ("t", "k1") in w'.index && ("t", "k2") in w'.index;
    assert before[..|FirstThrough()|] == FirstThrough();
    assert SomeStale(before);
    ApprovedExactlyUnlessStale(before);
  }

  // ---------------------------------------------------------------- the exact condition

  ghost predicate Good(steps: seq<Step>) {
    HeldThroughout(steps) && AllApproved(Run(steps).log)
  }

  /** A run is good exactly when no call is stale and none displaces a record. */
  lemma GoodExactlyUnlessOvertaken(steps: seq<Step>)
    ensures Good(steps) <==> !SomeStale(steps) && !SomeDisplaces(steps)
  {
    ApprovedExactlyUnlessStale(steps);
    HeldOnceExactlyUnlessDisplaced(steps);
  }

  /** All runs are good exactly when no call may find a record between another's find and its re-indexing. */
  lemma GoodExactlyWhenSerial(serial: bool)
    ensures (forall steps: seq<Step> :: (serial ==> Serial(steps)) ==> Good(steps)) <==> serial
  {
    if serial {
      forall steps: seq<Step> | Serial(steps) ensures Good(steps) {
        SerialIsGood(steps);
        GoodExactlyUnlessOvertaken(steps);
      }
    } else {
      TwoRotationsOverlap();
      assert !Good(TwoRotations());
    }
  }
}
