/** The recorder and the store with any number of callers and flushes at work on them. */
module MeteringSystem {
  import opened Usage
  import opened Metering
  import opened MeteringRuns

  lemma {:induction false} KeysAlwaysOk(steps: seq<Step>)
    ensures AllKeysOk(Run(steps).pending)
    ensures forall i :: 0 <= i < |Run(steps).flights| ==> AllKeysOk(Run(steps).flights[i])
  {
    if steps != [] { KeysAlwaysOk(steps[..|steps| - 1]); }
  }

  lemma RunSnoc(steps: seq<Step>, s: Step)
    ensures Run(steps + [s]) == Do(Run(steps), s)
  {
    assert (steps + [s])[..|steps|] == steps;
  }

  lemma AllConserved(steps: seq<Step>)
    ensures forall k ::
              NeverGauged(steps, k) && Accepted(steps, k) <= MAX64 ==> Held(Run(steps), k) == Accepted(steps, k)
  {
    forall k | NeverGauged(steps, k) && Accepted(steps, k) <= MAX64 ensures Held(Run(steps), k) == Accepted(steps, k) {
      NothingLostOrCountedTwice(steps, k);
    }
  }

  /** The step is the write, or the return, of this batch. */
  ghost predicate Settles(s: State, step: Step, batch: Batch) {
    && (step.Commit? || step.Abort?) && step.flight < |s.flights| && s.flights[step.flight] == batch
    && (step.Commit? ==> Enumerates(step.order, batch))
  }

  class System {
    const recorder: Recorder
    const store: MemStore
    /** The batches that flushes have taken and not yet written or put back. */
    var flights: seq<Batch>
    /** Every locked section so far, in order. */
    ghost var trace: seq<Step>

    ghost function Now(): (s: State)
      reads this, recorder, store
    {
      State(recorder.pending, flights, store.records, store.slugs)
    }

    /** The system is where its trace leads. */
    ghost predicate Valid()
      reads this, recorder, store
    {
      Now() == Run(trace)
    }

    constructor ()
      ensures Valid() && trace == [] && fresh(recorder) && fresh(store)
    {
      recorder := new Recorder();
      store := new MemStore();
      flights, trace := [], [];
    }

    ghost method Note(s: Step)
      requires Now() == Do(Run(trace), s)
      modifies this`trace
      ensures Valid() && trace == old(trace) + [s]
    {
      RunSnoc(trace, s);
      trace := trace + [s];
    }

    method RecordUsage(tenant: string, meter: string, delta: int64, now: int)
      requires Valid()
      modifies this`trace, recorder
      ensures Valid() && trace == old(trace) + [Record(tenant, meter, delta, now)]
    {
      recorder.Record(tenant, meter, delta, now);
      Note(Record(tenant, meter, delta, now));
    }

    method Gauge(tenant: string, meter: string, period: int, value: int64)
      requires Valid()
      modifies this`trace, store
      ensures Valid() && trace == old(trace) + [SetGauge(tenant, meter, period, value)]
    {
      store.SetGauge(tenant, meter, period, value);
      Note(SetGauge(tenant, meter, period, value));
    }

    /** The first locked section of a flush. */
    method Take() returns (taken: bool)
      requires Valid()
      modifies this, recorder
      ensures Valid() && trace == old(trace) + [Begin]
      ensures taken == (old(recorder.pending) != map[])
      ensures flights == if taken then old(flights) + [old(recorder.pending)] else old(flights)
    {
      taken := |recorder.pending| != 0;
      if taken {
        var batch := recorder.Take();
        flights := flights + [batch];
      }
      Note(Begin);
    }

    /** The write of a batch: all of it or nothing, as the store decides. */
    method Write(i: nat) returns (ok: bool)
      requires Valid() && i < |flights|
      modifies this, store
      ensures Valid()
      ensures ok ==> flights == Without(old(flights), i) && |trace| == |old(trace)| + 1 && old(trace) < trace
      ensures ok ==> trace[|old(trace)|].Commit? && Settles(old(Now()), trace[|old(trace)|], old(flights)[i])
      ensures !ok ==> flights == old(flights) && trace == old(trace)
    {
      KeysAlwaysOk(trace);
      ghost var keys;
      ok, keys := recorder.Write(store, flights[i]);
      if ok {
        flights := Without(flights, i);
        Note(Commit(i, keys));
      }
    }

    /** The second locked section of a flush whose write failed. */
    method PutBack(i: nat)
      requires Valid() && i < |flights|
      modifies this, recorder
      ensures Valid() && trace == old(trace) + [Abort(i)] && flights == Without(old(flights), i)
    {
      recorder.PutBack(flights[i]);
      flights := Without(flights, i);
      Note(Abort(i));
    }

    /** The store becomes unable to take the next batch. */
    method FailNextWrite()
      requires Valid()
      modifies store
      ensures Valid()
    {
      store.failAdd := true;
    }

    /** Whatever other callers and flushes do meanwhile; the batch at `at` is not theirs, and may move up. */
    method Interfere(at: nat) returns (at': nat)
      requires Valid() && at < |flights|
      modifies this, recorder, store
      ensures Valid() && old(trace) <= trace && at' < |flights| && flights[at'] == old(flights)[at]
    {
      at' := at;
      var n: int := *;
      while n > 0
        invariant Valid() && old(trace) <= trace && at' < |flights| && flights[at'] == old(flights)[at]
      {
        at' := OtherSection(at');
        n := n - 1;
      }
    }

    method OtherSection(at: nat) returns (at': nat)
      requires Valid() && at < |flights|
      modifies this, recorder, store
      ensures Valid() && old(trace) <= trace && at' < |flights| && flights[at'] == old(flights)[at]
    {
      at' := at;
      var which: int, tenant: string, meter: string, now: int, i: int := *, *, *, *, *;
      var value: int := *;
      if which == 0 && -MAX64 - 1 <= value <= MAX64 {
        RecordUsage(tenant, meter, value, now);
      } else if which == 1 && -MAX64 - 1 <= value <= MAX64 {
        Gauge(tenant, meter, now, value);
      } else if which == 2 {
        var taken := Take();
      } else if 0 <= i < |flights| && i != at {
        if which == 3 {
          var ok := Write(i);
          if ok && i < at { at' := at - 1; }
        } else if which == 4 {
          FailNextWrite();
        } else {
          PutBack(i);
          if i < at { at' := at - 1; }
        }
      }
    }

    /**
     Flush among everything else. Whatever happens in between, the system stays where its trace leads, so usage
     is conserved; a success ends with the write of the batch taken, if any, and a failure with its return.
     */
    method Flush() returns (ok: bool)
      requires Valid()
      modifies this, recorder, store
      ensures Valid() && old(trace) <= trace
      ensures |trace| > |old(trace)| && trace[|old(trace)|] == Begin
      ensures old(recorder.pending) == map[] ==> ok && trace == old(trace) + [Begin]
      ensures old(recorder.pending) != map[] ==>
                var last := |trace| - 1;
                && (if ok then trace[last].Commit? else trace[last].Abort?)
                && Settles(Run(trace[..last]), trace[last], old(recorder.pending))
      ensures forall k :: NeverGauged(trace, k) && Accepted(trace, k) <= MAX64 ==> Held(Now(), k) == Accepted(trace, k)
    {
      var taken := Take();
      ok := !taken;
      if taken { ok := WriteLast(); }
      AllConserved(trace);
    }

    /** What a flush does with the batch it has taken, others interfering before the write and before the return. */
    method WriteLast() returns (ok: bool)
      requires Valid() && flights != []
      modifies this, recorder, store
      ensures Valid() && old(trace) < trace
      ensures var last := |trace| - 1;
        && (if ok then trace[last].Commit? else trace[last].Abort?)
        && Settles(Run(trace[..last]), trace[last], old(flights)[|old(flights)| - 1])
    {
      var at := Interfere(|flights| - 1);
      ghost var before := trace;
      ok := Write(at);
      if !ok {
        at := Interfere(at);
        before := trace;
        PutBack(at);
      }
      assert trace[..|trace| - 1] == before;
    }
  }
}
