/** Conservation over every interleaving of Record calls and Flush sections. */
module MeteringRuns {
  import opened Usage
  import opened Metering

  /** The recorder's pending map, the batches of flushes in progress, and the store. */
  datatype State = State(pending: Batch, flights: seq<Batch>, records: Records, slugs: map<string, string>)

  /**
   What can happen next: a Record call; a flush taking the pending batch; a flush's write succeeding,
   its deltas listed in some order; a write failing and the batch being put back; a gauge being set.
   */
  datatype Step =
    | Record(tenant: string, meter: string, delta: int64, now: int)
    | Begin
    | Commit(flight: nat, order: seq<Key>)
    | Abort(flight: nat)
    | SetGauge(tenant: string, meter: string, period: int, value: int64)

  const EMPTY := State(map[], [], map[], map[])

  function Without(flights: seq<Batch>, i: nat): (r: seq<Batch>)
    requires i < |flights|
  {
    flights[..i] + flights[i + 1..]
  }

  ghost function Do(s: State, step: Step): (s': State) {
    match step
    case Record(tenant, meter, delta, now) => s.(pending := Recorded(s.pending, tenant, meter, delta, now))
    case Begin =>
      if s.pending == map[] then s else s.(pending := map[], flights := s.flights + [s.pending])
    case Commit(i, order) =>
      if i < |s.flights| && Enumerates(order, s.flights[i]) then
        s.(flights := Without(s.flights, i),
           records := AddAll(s.slugs, s.records, DeltasOf(order, s.flights[i])))
      else s
    case Abort(i) =>
      if i < |s.flights| then
        s.(flights := Without(s.flights, i), pending := Merge(s.pending, s.flights[i]))
      else s
    case SetGauge(tenant, meter, period, value) =>
      if tenant == "" || meter == "" then s
      else
        var k := Key(tenant, meter, PeriodStart(period));
        s.(records := s.records[k := NewRecord(s.slugs, k, Gauge, value)])
  }

  ghost function Run(steps: seq<Step>): (s: State) {
    if steps == [] then EMPTY else Do(Run(steps[..|steps| - 1]), steps[|steps| - 1])
  }

  /** What a step adds to the usage of k. */
  function Contribution(step: Step, k: Key): (n: nat) {
    if step.Record? && step.tenant != "" && step.meter != "" && step.delta > 0
       && k == Key(step.tenant, step.meter, PeriodStart(step.now))
    then step.delta else 0
  }

  /** The sum of all accepted deltas for k. */
  function Accepted(steps: seq<Step>, k: Key): (n: nat) {
    if steps == [] then 0
    else Accepted(steps[..|steps| - 1], k) + Contribution(steps[|steps| - 1], k)
  }

  predicate Gauges(step: Step, k: Key) {
    step.SetGauge? && k == Key(step.tenant, step.meter, PeriodStart(step.period))
  }

  predicate NeverGauged(steps: seq<Step>, k: Key) {
    forall i :: 0 <= i < |steps| ==> !Gauges(steps[i], k)
  }

  function InFlight(flights: seq<Batch>, k: Key): (n: int) {
    if flights == [] then 0 else At(flights[0], k) + InFlight(flights[1..], k)
  }

  /** Where the usage of k is: stored, pending, or in a batch being written. */
  function Held(s: State, k: Key): (n: int) {
    ValueAt(s.records, k) + At(s.pending, k) + InFlight(s.flights, k)
  }

  /** A batch never holds a zero or negative entry for k, and only keys AddCounters keeps as they are. */
  ghost predicate BatchOk(m: Batch, k: Key) {
    AllKeysOk(m) && (k in m ==> m[k] > 0)
  }

  ghost predicate Positive(s: State, k: Key) {
    && BatchOk(s.pending, k) && ValueAt(s.records, k) >= 0
    && forall i :: 0 <= i < |s.flights| ==> BatchOk(s.flights[i], k)
  }

  lemma {:induction false} InFlightConcat(a: seq<Batch>, b: seq<Batch>, k: Key)
    ensures InFlight(a + b, k) == InFlight(a, k) + InFlight(b, k)
  {
    if a == [] {
      assert a + b == b;
    } else {
      InFlightConcat(a[1..], b, k);
      assert (a + b)[1..] == a[1..] + b;
    }
  }

  lemma InFlightWithout(flights: seq<Batch>, i: nat, k: Key)
    requires i < |flights|
    ensures InFlight(flights, k) == At(flights[i], k) + InFlight(Without(flights, i), k)
  {
    InFlightConcat(flights[..i], flights[i..], k);
    InFlightConcat(flights[..i], flights[i + 1..], k);
    assert flights[..i] + flights[i..] == flights;
    assert flights[i..][1..] == flights[i + 1..];
  }

  lemma {:induction false} InFlightNotNegative(flights: seq<Batch>, k: Key)
    requires forall i :: 0 <= i < |flights| ==> BatchOk(flights[i], k)
    ensures InFlight(flights, k) >= 0
  {
    if flights != [] { InFlightNotNegative(flights[1..], k); }
  }

  lemma RecordConserves(s: State, step: Step, k: Key)
    requires step.Record? && Positive(s, k) && Held(s, k) + Contribution(step, k) <= MAX64
    ensures Positive(Do(s, step), k) && Held(Do(s, step), k) == Held(s, k) + Contribution(step, k)
  {
    InFlightNotNegative(s.flights, k);
  }

  lemma BeginConserves(s: State, k: Key)
    requires Positive(s, k)
    ensures Positive(Do(s, Begin), k) && Held(Do(s, Begin), k) == Held(s, k)
  {
    InFlightConcat(s.flights, [s.pending], k);
    assert [s.pending][1..] == [];
  }

  lemma CommitConserves(s: State, i: nat, order: seq<Key>, k: Key)
    requires Positive(s, k) && Held(s, k) <= MAX64
    ensures Positive(Do(s, Commit(i, order)), k) && Held(Do(s, Commit(i, order)), k) == Held(s, k)
  {
    if i < |s.flights| && Enumerates(order, s.flights[i]) {
      InFlightWithout(s.flights, i, k);
      InFlightNotNegative(Without(s.flights, i), k);
      BatchAddsEachOnce(s.slugs, s.records, order, s.flights[i], k);
    }
  }

  lemma AbortConserves(s: State, i: nat, k: Key)
    requires Positive(s, k) && Held(s, k) <= MAX64
    ensures Positive(Do(s, Abort(i)), k) && Held(Do(s, Abort(i)), k) == Held(s, k)
  {
    if i < |s.flights| {
      InFlightWithout(s.flights, i, k);
      InFlightNotNegative(Without(s.flights, i), k);
      assert BatchOk(s.flights[i], k);
    }
  }

  /**
   Conservation: in every state of every run, for a key no gauge has overwritten and whose accepted
   deltas fit an int64, what is stored, pending and in flight together is exactly what was accepted,
   and no pending or in-flight entry is zero or negative.
   */
  lemma {:induction false} NothingLostOrCountedTwice(steps: seq<Step>, k: Key)
    requires NeverGauged(steps, k) && Accepted(steps, k) <= MAX64
    ensures Positive(Run(steps), k) && Held(Run(steps), k) == Accepted(steps, k)
  {
    if steps != [] {
      var init, last := steps[..|steps| - 1], steps[|steps| - 1];
      NothingLostOrCountedTwice(init, k);
      var s := Run(init);
      match last
      case Record(_, _, _, _) => RecordConserves(s, last, k);
      case Begin => BeginConserves(s, k);
      case Commit(i, order) => CommitConserves(s, i, order, k);
      case Abort(i) => AbortConserves(s, i, k);
      case SetGauge(_, _, _, _) => assert !Gauges(last, k);
    }
  }

  /** With nothing pending or in flight, the store holds the whole usage. */
  lemma DrainedMeansStored(steps: seq<Step>, k: Key)
    requires NeverGauged(steps, k) && Accepted(steps, k) <= MAX64
    requires k !in Run(steps).pending && Run(steps).flights == []
    ensures ValueAt(Run(steps).records, k) == Accepted(steps, k)
  {
    NothingLostOrCountedTwice(steps, k);
  }

  /** The bound is exact: conservation for all totals up to bound holds only when bound fits an int64. */
  lemma ConservationBoundIsExact(bound: nat)
    ensures (forall steps: seq<Step>, k: Key :: NeverGauged(steps, k) && Accepted(steps, k) <= bound ==>
               Held(Run(steps), k) == Accepted(steps, k)) <==> bound <= MAX64
  {
    if bound <= MAX64 {
      forall steps: seq<Step>, k: Key | NeverGauged(steps, k) && Accepted(steps, k) <= bound
        ensures Held(Run(steps), k) == Accepted(steps, k)
      {
        NothingLostOrCountedTwice(steps, k);
      }
    } else {
      OverflowLosesUsage();
    }
  }

  /** One delta too many: the pending sum wraps to a negative value, which a flush would drop. */
  lemma OverflowLosesUsage()
    ensures exists steps: seq<Step>, k: Key ::
      NeverGauged(steps, k) && Accepted(steps, k) == MAX64 + 1 && Held(Run(steps), k) != Accepted(steps, k)
  {
    var a, b := Record("t", "m", MAX64, 0), Record("t", "m", 1, 0);
    var k := Key("t", "m", 0);
    var steps := [a, b];
    assert steps[..1] == [a] && [a][..0] == [];
    assert Accepted([a], k) == MAX64;
    assert Run([a]) == Do(EMPTY, a) && At(Run([a]).pending, k) == MAX64;
    assert Run(steps) == Do(Run([a]), b);
    assert Held(Run(steps), k) == Plus(MAX64, 1);
  }

  ghost predicate GaugesWithin(steps: seq<Step>, gauged: set<Key>) {
    forall i :: 0 <= i < |steps| && steps[i].SetGauge? ==>
      Key(steps[i].tenant, steps[i].meter, PeriodStart(steps[i].period)) in gauged
  }

  /** A gauge on a counter's key leaves a value no delta accounts for. */
  lemma GaugeBreaksConservation(k: Key)
    requires KeyOk(k)
    ensures var steps := [SetGauge(k.tenant, k.meter, k.period, 5)];
            Gauges(steps[0], k) && Accepted(steps, k) == 0 && Held(Run(steps), k) == 5
  {
    var steps := [SetGauge(k.tenant, k.meter, k.period, 5)];
    assert steps[..0] == [];
    assert Run(steps) == Do(EMPTY, steps[0]) && Accepted(steps, k) == 0;
  }

  /** Usage of k is conserved in every run whose gauges stay within a set of keys, exactly when k is not in it. */
  lemma ConservedExactlyWhenNotGauged(gauged: set<Key>, k: Key)
    requires KeyOk(k)
    ensures (forall steps: seq<Step> :: GaugesWithin(steps, gauged) && Accepted(steps, k) <= MAX64 ==>
               Held(Run(steps), k) == Accepted(steps, k)) <==> k !in gauged
  {
    if k !in gauged {
      forall steps: seq<Step> | GaugesWithin(steps, gauged) && Accepted(steps, k) <= MAX64
        ensures Held(Run(steps), k) == Accepted(steps, k)
      {
        NothingLostOrCountedTwice(steps, k);
      }
    } else {
      GaugeBreaksConservation(k);
      assert GaugesWithin([SetGauge(k.tenant, k.meter, k.period, 5)], gauged);
    }
  }
}
