/** What the stored records say beside their values: whose they are, for which hour, and of which kind. */
module MeteringRecords {
  import opened Usage
  import opened Metering
  import opened MeteringRuns

  /** The record is about its key: that tenant's meter, from the start of that hour to its end. */
  predicate IsAbout(slugs: map<string, string>, r: UsageRecord, k: Key) {
    && r.tenant == k.tenant && r.slug == (if k.tenant in slugs then slugs[k.tenant] else k.tenant)
    && r.meter == k.meter && r.unit == "count"
    && r.periodStart == k.period && r.periodEnd == k.period + 3600 && k.period % 3600 == 0
    && k.tenant != "" && k.meter != ""
  }

  ghost predicate EverGauged(steps: seq<Step>, k: Key) {
    exists i :: 0 <= i < |steps| && Gauges(steps[i], k)
  }

  /** A record is about its key, and its kind says whether a gauge was ever set there. */
  predicate Right(slugs: map<string, string>, rs: Records, k: Key, gauged: bool) {
    && (k in rs ==> IsAbout(slugs, rs[k], k) && rs[k].kind == if gauged then Gauge else Counter)
    && (gauged && k.tenant != "" && k.meter != "" ==> k in rs)
  }

  lemma GaugedSnoc(steps: seq<Step>, s: Step, k: Key)
    ensures EverGauged(steps + [s], k) <==> EverGauged(steps, k) || Gauges(s, k)
  {
    if EverGauged(steps, k) {
      var i :| 0 <= i < |steps| && Gauges(steps[i], k);
      assert Gauges((steps + [s])[i], k);
    }
    if Gauges(s, k) { assert Gauges((steps + [s])[|steps|], k); }
  }

  /** Adding deltas leaves the kind of a record alone, and makes counters only. */
  lemma {:induction false} AddsKeepRight(slugs: map<string, string>, rs: Records, ds: seq<CounterDelta>, k: Key,
                                         gauged: bool)
    requires Right(slugs, rs, k, gauged)
    ensures Right(slugs, AddAll(slugs, rs, ds), k, gauged)
  {
    if ds != [] { AddsKeepRight(slugs, rs, ds[..|ds| - 1], k, gauged); }
  }

  lemma StepKeepsRight(w: State, s: Step, k: Key, gauged: bool)
    requires Right(w.slugs, w.records, k, gauged)
    ensures Do(w, s).slugs == w.slugs && Right(w.slugs, Do(w, s).records, k, gauged || Gauges(s, k))
  {
    if s.Commit? && s.flight < |w.flights| && Enumerates(s.order, w.flights[s.flight]) {
      AddsKeepRight(w.slugs, w.records, DeltasOf(s.order, w.flights[s.flight]), k, gauged);
    }
  }

  /** In every run a record is about its key, and is a gauge exactly when a gauge was ever set there. */
  lemma {:induction false} RecordsAreAboutTheirKeys(steps: seq<Step>, k: Key)
    ensures Right(Run(steps).slugs, Run(steps).records, k, EverGauged(steps, k))
  {
    if steps != [] {
      var init, last := steps[..|steps| - 1], steps[|steps| - 1];
      RecordsAreAboutTheirKeys(init, k);
      StepKeepsRight(Run(init), last, k, EverGauged(init, k));
      GaugedSnoc(init, last, k);
      assert init + [last] == steps;
    }
  }

  /** Nothing in the steps writes k: no gauge is set there and no batch is committed. */
  predicate Quiet(steps: seq<Step>, k: Key) {
    forall i :: 0 <= i < |steps| ==> !steps[i].Commit? && !Gauges(steps[i], k)
  }

  /** Setting a gauge replaces whatever was stored, and the value stays until something writes the key. */
  lemma {:induction false} GaugeIsLastWord(before: seq<Step>, gauge: Step, after: seq<Step>, k: Key)
    requires Gauges(gauge, k) && k.tenant != "" && k.meter != "" && Quiet(after, k)
    ensures ValueAt(Run(before + [gauge] + after).records, k) == gauge.value
  {
    var steps := before + [gauge] + after;
    if after == [] {
      assert steps[..|steps| - 1] == before;
    } else {
      var init := after[..|after| - 1];
      GaugeIsLastWord(before, gauge, init, k);
      assert steps[..|steps| - 1] == before + [gauge] + init;
      assert steps[|steps| - 1] == after[|after| - 1];
    }
  }
}
