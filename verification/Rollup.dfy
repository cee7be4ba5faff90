/** The daily rollup of usage records in ee/billing, and the proof that it aggregates associatively. */
module Rollup {
  import opened Usage

  datatype DayKey = DayKey(tenant: string, meter: string, day: int)

  function KeyOf(r: UsageRecord): (k: DayKey) {
    DayKey(r.tenant, r.meter, DayStart(r.periodStart))
  }

  function KeysOf(rs: seq<UsageRecord>): (ks: seq<DayKey>)
    ensures |ks| == |rs| && forall i :: 0 <= i < |rs| ==> ks[i] == KeyOf(rs[i])
  {
    seq(|rs|, i requires 0 <= i < |rs| => KeyOf(rs[i]))
  }

  /** The keys in order of first occurrence. */
  function FirstOf(ks: seq<DayKey>): (o: seq<DayKey>)
    ensures forall k :: k in o <==> k in ks
  {
    if ks == [] then []
    else
      var o, last := FirstOf(ks[..|ks| - 1]), ks[|ks| - 1];
      assert forall k :: k in ks <==> k in ks[..|ks| - 1] || k == last;
      if last in o then o else o + [last]
  }

  lemma {:induction false} FirstOfHasNoDuplicates(ks: seq<DayKey>)
    ensures forall i, j :: 0 <= i < j < |FirstOf(ks)| ==> FirstOf(ks)[i] != FirstOf(ks)[j]
  {
    if ks != [] { FirstOfHasNoDuplicates(ks[..|ks| - 1]); }
  }

  /** The records of one key, in order. */
  function OfKey(rs: seq<UsageRecord>, k: DayKey): (vs: seq<UsageRecord>)
    ensures vs == [] <==> k !in KeysOf(rs)
  {
    if rs == [] then []
    else
      var init, last := rs[..|rs| - 1], rs[|rs| - 1];
      assert KeysOf(rs) == KeysOf(init) + [KeyOf(last)];
      OfKey(init, k) + (if KeyOf(last) == k then [last] else [])
  }

  lemma {:induction false} OfKeyFacts(rs: seq<UsageRecord>, k: DayKey)
    ensures forall v :: v in OfKey(rs, k) ==> KeyOf(v) == k && v in rs
  {
    if rs != [] { OfKeyFacts(rs[..|rs| - 1], k); }
  }

  /** The record that opens a day, from the first one of its key. */
  function Opened(r: UsageRecord): (d: UsageRecord)
    ensures KeyOf(d) == KeyOf(r)
  {
    var day := DayStart(r.periodStart);
    r.(periodStart := day, periodEnd := day + DAY)
  }

  /** A later record folded in: gauges keep the larger value, anything else adds. */
  function Folded(cur: UsageRecord, r: UsageRecord): (d: UsageRecord) {
    if r.kind == Gauge then (if r.value > cur.value then cur.(value := r.value) else cur)
    else cur.(value := Plus(cur.value, r.value))
  }

  function Aggregate(vs: seq<UsageRecord>): (d: UsageRecord)
    requires vs != []
    ensures KeyOf(d) == KeyOf(vs[0]) && d.kind == vs[0].kind
    ensures Opened(d) == d
  {
    if |vs| == 1 then Opened(vs[0])
    else Folded(Aggregate(vs[..|vs| - 1]), vs[|vs| - 1])
  }

  /** One record per tenant, meter and day. */
  function RollupDay(rs: seq<UsageRecord>): (out: seq<UsageRecord>)
    ensures |out| == |FirstOf(KeysOf(rs))|
    ensures forall i :: 0 <= i < |out| ==>
      var k := FirstOf(KeysOf(rs))[i];
      OfKey(rs, k) != [] && out[i] == Aggregate(OfKey(rs, k)) && KeyOf(out[i]) == k
  {
    var o := FirstOf(KeysOf(rs));
    assert forall i :: 0 <= i < |o| ==> o[i] in KeysOf(rs);
    assert forall i :: 0 <= i < |o| ==> KeyOf(Aggregate(OfKey(rs, o[i]))) == o[i] by {
      forall i | 0 <= i < |o| ensures KeyOf(Aggregate(OfKey(rs, o[i]))) == o[i] {
        OfKeyFacts(rs, o[i]);
        assert OfKey(rs, o[i])[0] in OfKey(rs, o[i]);
      }
    }
    seq(|o|, i requires 0 <= i < |o| => Aggregate(OfKey(rs, o[i])))
  }

  datatype Granularity = Hour | Day

  /** Rollup as the source runs it: an aggregate map and the order its keys were first seen. */
  method RollUp(records: seq<UsageRecord>, granularity: Granularity) returns (out: seq<UsageRecord>)
    ensures out == if granularity == Day then RollupDay(records) else records
  {
    if granularity != Day { return records; }
    var agg: map<DayKey, UsageRecord>, order: seq<DayKey> := map[], [];
    for i := 0 to |records|
      invariant Tracks(agg, order, records[..i])
    {
      var record := records[i];
      var k := KeyOf(record);
      TracksOneMore(agg, order, records, i);
      if k !in agg {
        agg := agg[k := Opened(record)];
        order := order + [k];
      } else {
        agg := agg[k := Folded(agg[k], record)];
      }
    }
    assert records[..|records|] == records;
    out := Collect(records, agg, order);
  }

  /** The aggregate map and order after the records seen so far. */
  ghost predicate Tracks(agg: map<DayKey, UsageRecord>, order: seq<DayKey>, rs: seq<UsageRecord>) {
    order == FirstOf(KeysOf(rs)) && forall k :: TracksKey(agg, rs, k)
  }

  ghost predicate TracksKey(agg: map<DayKey, UsageRecord>, rs: seq<UsageRecord>, k: DayKey) {
    if OfKey(rs, k) == [] then k !in agg else k in agg && agg[k] == Aggregate(OfKey(rs, k))
  }

  function NextAgg(agg: map<DayKey, UsageRecord>, r: UsageRecord): (agg': map<DayKey, UsageRecord>) {
    var k := KeyOf(r);
    agg[k := if k in agg then Folded(agg[k], r) else Opened(r)]
  }

  lemma TracksOneMore(agg: map<DayKey, UsageRecord>, order: seq<DayKey>, rs: seq<UsageRecord>, i: nat)
    requires i < |rs| && Tracks(agg, order, rs[..i])
    ensures Tracks(NextAgg(agg, rs[i]), if KeyOf(rs[i]) in agg then order else order + [KeyOf(rs[i])], rs[..i + 1])
  {
    OneMoreKey(rs, i);
    assert TracksKey(agg, rs[..i], KeyOf(rs[i]));
    var agg', rs' := NextAgg(agg, rs[i]), rs[..i + 1];
    forall k ensures TracksKey(agg', rs', k) { TracksKeyOneMore(agg, rs, i, k); }
  }

  lemma TracksKeyOneMore(agg: map<DayKey, UsageRecord>, rs: seq<UsageRecord>, i: nat, k: DayKey)
    requires i < |rs| && TracksKey(agg, rs[..i], k)
    ensures TracksKey(NextAgg(agg, rs[i]), rs[..i + 1], k)
  {
    var vs := OfKey(rs[..i], k);
    OneMoreOf(rs, i, k);
    if k == KeyOf(rs[i]) {
      AggregateOneMore(vs, rs[i]);
    } else {
      assert vs + [] == vs;
    }
  }

  lemma AggregateOneMore(vs: seq<UsageRecord>, r: UsageRecord)
    ensures Aggregate(vs + [r]) == if vs == [] then Opened(r) else Folded(Aggregate(vs), r)
  {
    assert (vs + [r])[..|vs|] == vs;
  }

  /** The final loop of Rollup. */
  method Collect(ghost records: seq<UsageRecord>, agg: map<DayKey, UsageRecord>, order: seq<DayKey>)
    returns (out: seq<UsageRecord>)
    requires Tracks(agg, order, records)
    ensures out == RollupDay(records)
  {
    out := [];
    for i := 0 to |order|
      invariant out == RollupDay(records)[..i]
    {
      assert TracksKey(agg, records, order[i]);
      out := out + [agg[order[i]]];
    }
  }

  lemma OneMoreKey(rs: seq<UsageRecord>, i: nat)
    requires i < |rs|
    ensures FirstOf(KeysOf(rs[..i + 1])) ==
            var o := FirstOf(KeysOf(rs[..i])); if KeyOf(rs[i]) in o then o else o + [KeyOf(rs[i])]
  {
    var ks := KeysOf(rs[..i + 1]);
    assert ks[..|ks| - 1] == KeysOf(rs[..i]);
  }

  lemma OneMoreOf(rs: seq<UsageRecord>, i: nat, k: DayKey)
    requires i < |rs|
    ensures OfKey(rs[..i + 1], k) == OfKey(rs[..i], k) + (if KeyOf(rs[i]) == k then [rs[i]] else [])
  {
    assert rs[..i + 1][..i] == rs[..i];
  }

  // ---------------------------------------------------------------- order

  /** The order is that of first occurrence: an earlier key was seen before any later one. */
  lemma {:induction false} FirstOfIsFirst(ks: seq<DayKey>, i: nat, j: nat)
    requires i < j < |FirstOf(ks)|
    ensures exists a :: 0 <= a < |ks| && ks[a] == FirstOf(ks)[i] && FirstOf(ks)[j] !in ks[..a + 1]
  {
    var init := ks[..|ks| - 1];
    var o := FirstOf(ks);
    if j < |FirstOf(init)| {
      FirstOfIsFirst(init, i, j);
      var a :| 0 <= a < |init| && init[a] == FirstOf(init)[i] && FirstOf(init)[j] !in init[..a + 1];
      assert ks[..a + 1] == init[..a + 1] && ks[a] == init[a];
    } else {
      assert o[i] in init && o[j] !in init;
      var a :| 0 <= a < |init| && init[a] == o[i];
      assert ks[..a + 1] == init[..a + 1] && ks[a] == init[a];
    }
  }

  lemma {:induction false} FirstOfDistinct(o: seq<DayKey>)
    requires forall i, j :: 0 <= i < j < |o| ==> o[i] != o[j]
    ensures FirstOf(o) == o
  {
    if o != [] {
      var init, last := o[..|o| - 1], o[|o| - 1];
      FirstOfDistinct(init);
      assert last !in init;
      assert init + [last] == o;
    }
  }

  lemma {:induction false} FirstOfLeft(u: seq<DayKey>, v: seq<DayKey>)
    ensures FirstOf(FirstOf(u) + v) == FirstOf(u + v)
  {
    if v == [] {
      assert u + v == u && FirstOf(u) + v == FirstOf(u);
      FirstOfHasNoDuplicates(u);
      FirstOfDistinct(FirstOf(u));
    } else {
      var init, last := v[..|v| - 1], v[|v| - 1];
      assert u + v == (u + init) + [last];
      assert FirstOf(u) + v == (FirstOf(u) + init) + [last];
      FirstOfLeft(u, init);
      FirstOfSnoc(u + init, last);
      FirstOfSnoc(FirstOf(u) + init, last);
    }
  }

  lemma {:induction false} FirstOfRight(u: seq<DayKey>, v: seq<DayKey>)
    ensures FirstOf(u + FirstOf(v)) == FirstOf(u + v)
  {
    if v != [] {
      var init, last := v[..|v| - 1], v[|v| - 1];
      FirstOfRight(u, init);
      FirstOfLast(u, init, last);
      assert init + [last] == v;
    }
  }

  lemma FirstOfLast(u: seq<DayKey>, init: seq<DayKey>, last: DayKey)
    requires FirstOf(u + FirstOf(init)) == FirstOf(u + init)
    ensures FirstOf(u + FirstOf(init + [last])) == FirstOf(u + (init + [last]))
  {
    assert (init + [last])[..|init|] == init;
    assert u + (init + [last]) == (u + init) + [last];
    FirstOfSnoc(u + init, last);
    if last in FirstOf(init) {
      assert last in u + init;
    } else {
      assert u + (FirstOf(init) + [last]) == (u + FirstOf(init)) + [last];
      FirstOfSnoc(u + FirstOf(init), last);
    }
  }

  lemma FirstOfSnoc(ks: seq<DayKey>, k: DayKey)
    ensures FirstOf(ks + [k]) == if k in FirstOf(ks) then FirstOf(ks) else FirstOf(ks) + [k]
  {
    assert (ks + [k])[..|ks|] == ks;
  }

  // ---------------------------------------------------------------- values

  /** Records of one key agree on their kind. */
  ghost predicate OneKind(vs: seq<UsageRecord>) {
    forall i, j :: 0 <= i < |vs| && 0 <= j < |vs| ==> vs[i].kind == vs[j].kind
  }

  ghost predicate KindsConsistent(rs: seq<UsageRecord>) {
    forall r, t :: r in rs && t in rs && KeyOf(r) == KeyOf(t) ==> r.kind == t.kind
  }

  lemma FoldedAssociative(a: UsageRecord, b: UsageRecord, c: UsageRecord)
    requires a.kind == b.kind == c.kind
    ensures Folded(Folded(a, b), c) == Folded(a, Folded(b, c))
  {
    PlusAssociative(a.value, b.value, c.value);
  }

  /** Aggregating two parts and folding the results is aggregating the whole. */
  lemma {:induction false} AggregateConcat(u: seq<UsageRecord>, v: seq<UsageRecord>)
    requires u != [] && v != [] && OneKind(u + v)
    ensures Aggregate(u + v) == Folded(Aggregate(u), Aggregate(v))
  {
    assert forall i :: 0 <= i < |v| ==> v[i] == (u + v)[|u| + i];
    assert (u + v)[0] == u[0];
    assert (u + v)[..|u + v| - 1] == u + v[..|v| - 1];
    if |v| == 1 {
      assert u + v[..|v| - 1] == u;
    } else {
      var init := v[..|v| - 1];
      assert forall i :: 0 <= i < |u + init| ==> (u + init)[i] == (u + v)[i];
      AggregateConcat(u, init);
      FoldedAssociative(Aggregate(u), Aggregate(init), v[|v| - 1]);
    }
  }

  lemma OfKeySnoc(rs: seq<UsageRecord>, r: UsageRecord, k: DayKey)
    ensures OfKey(rs + [r], k) == OfKey(rs, k) + (if KeyOf(r) == k then [r] else [])
  {
    assert (rs + [r])[..|rs|] == rs;
  }

  lemma {:induction false} OfKeyConcat(a: seq<UsageRecord>, b: seq<UsageRecord>, k: DayKey)
    ensures OfKey(a + b, k) == OfKey(a, k) + OfKey(b, k)
  {
    if b == [] {
      assert a + b == a;
    } else {
      var init, last := b[..|b| - 1], b[|b| - 1];
      assert b == init + [last];
      OfKeyConcat(a, init, k);
      OfKeyOneMore(a, init, last, k);
    }
  }

  lemma OfKeyOneMore(a: seq<UsageRecord>, b: seq<UsageRecord>, r: UsageRecord, k: DayKey)
    requires OfKey(a + b, k) == OfKey(a, k) + OfKey(b, k)
    ensures OfKey(a + (b + [r]), k) == OfKey(a, k) + OfKey(b + [r], k)
  {
    Regroup(a, b, [r]);
    OfKeySnoc(a + b, r, k);
    OfKeySnoc(b, r, k);
    Regroup(OfKey(a, k), OfKey(b, k), if KeyOf(r) == k then [r] else []);
  }

  lemma Regroup(a: seq<UsageRecord>, b: seq<UsageRecord>, c: seq<UsageRecord>)
    ensures (a + b) + c == a + (b + c)
  {
  }

  /** Each record of the key as often as it was given, and no other. */
  lemma {:induction false} OfKeyIsFilter(rs: seq<UsageRecord>, k: DayKey, r: UsageRecord)
    ensures multiset(OfKey(rs, k))[r] == if KeyOf(r) == k then multiset(rs)[r] else 0
  {
    if rs != [] {
      var init, last := rs[..|rs| - 1], rs[|rs| - 1];
      assert rs == init + [last];
      OfKeyIsFilter(init, k, r);
      OfKeySnoc(init, last, k);
    }
  }

  /** A list with one record per key yields that one, or nothing. */
  lemma {:induction false} OfKeyUnique(rs: seq<UsageRecord>, k: DayKey)
    requires forall i, j :: 0 <= i < j < |rs| ==> KeyOf(rs[i]) != KeyOf(rs[j])
    ensures forall i :: 0 <= i < |rs| && KeyOf(rs[i]) == k ==> OfKey(rs, k) == [rs[i]]
    ensures k !in KeysOf(rs) ==> OfKey(rs, k) == []
  {
    if rs != [] {
      var init := rs[..|rs| - 1];
      OfKeyUnique(init, k);
      if KeyOf(rs[|rs| - 1]) == k {
        assert forall i :: 0 <= i < |init| ==> KeysOf(init)[i] != k;
        assert OfKey(init, k) == [];
      }
    }
  }

  /** What the rollup holds for a key. */
  lemma OfKeyRolled(rs: seq<UsageRecord>, k: DayKey)
    ensures OfKey(RollupDay(rs), k) == if OfKey(rs, k) == [] then [] else [Aggregate(OfKey(rs, k))]
  {
    var out, o := RollupDay(rs), FirstOf(KeysOf(rs));
    FirstOfHasNoDuplicates(KeysOf(rs));
    forall i, j | 0 <= i < j < |out| ensures KeyOf(out[i]) != KeyOf(out[j]) {
      assert o[i] != o[j];
    }
    OfKeyUnique(out, k);
    if k in o {
      var i :| 0 <= i < |o| && o[i] == k;
      assert KeyOf(out[i]) == k;
    } else {
      assert forall i :: 0 <= i < |out| ==> KeysOf(out)[i] == o[i];
    }
  }

  lemma KeysOfRolled(rs: seq<UsageRecord>)
    ensures KeysOf(RollupDay(rs)) == FirstOf(KeysOf(rs))
  {}

  lemma KeysOfConcat(a: seq<UsageRecord>, b: seq<UsageRecord>)
    ensures KeysOf(a + b) == KeysOf(a) + KeysOf(b)
  {}

  lemma OneKindOfKey(rs: seq<UsageRecord>, k: DayKey)
    requires KindsConsistent(rs)
    ensures OneKind(OfKey(rs, k))
  {
    var vs := OfKey(rs, k);
    OfKeyFacts(rs, k);
    forall i, j | 0 <= i < |vs| && 0 <= j < |vs| ensures vs[i].kind == vs[j].kind {
      assert vs[i] in vs && vs[j] in vs;
    }
  }

  lemma SameAggregate(a: seq<UsageRecord>, b: seq<UsageRecord>, k: DayKey)
    requires KindsConsistent(a + b) && OfKey(a + b, k) != []
    ensures OfKey(RollupDay(a) + RollupDay(b), k) != []
    ensures Aggregate(OfKey(RollupDay(a) + RollupDay(b), k)) == Aggregate(OfKey(a + b, k))
  {
    OfKeyConcat(RollupDay(a), RollupDay(b), k);
    OfKeyConcat(a, b, k);
    OfKeyRolled(a, k);
    OfKeyRolled(b, k);
    OneKindOfKey(a + b, k);
    AggregateOfAggregates(OfKey(a, k), OfKey(b, k));
  }

  lemma AggregateOfAggregates(u: seq<UsageRecord>, v: seq<UsageRecord>)
    requires u + v != [] && OneKind(u + v)
    ensures Aggregate((if u == [] then [] else [Aggregate(u)]) + (if v == [] then [] else [Aggregate(v)])) ==
            Aggregate(u + v)
  {
    if u != [] && v != [] {
      AggregateConcat(u, v);
      var x, y := Aggregate(u), Aggregate(v);
      assert [x] + [y] == [x, y] && [x, y][..1] == [x];
    } else if u != [] {
      assert u + v == u && [Aggregate(u)] + [] == [Aggregate(u)];
    } else {
      assert u + v == v && [] + [Aggregate(v)] == [Aggregate(v)];
    }
  }

  // ---------------------------------------------------------------- main theorems

  /** Rolling up two parts and then their rollups is rolling up everything at once. */
  lemma RollupIsHomomorphism(a: seq<UsageRecord>, b: seq<UsageRecord>)
    requires KindsConsistent(a + b)
    ensures RollupDay(RollupDay(a) + RollupDay(b)) == RollupDay(a + b)
  {
    var c := RollupDay(a) + RollupDay(b);
    KeysOfConcat(RollupDay(a), RollupDay(b));
    KeysOfConcat(a, b);
    KeysOfRolled(a);
    KeysOfRolled(b);
    FirstOfLeft(KeysOf(a), FirstOf(KeysOf(b)));
    FirstOfRight(KeysOf(a), KeysOf(b));
    assert FirstOf(KeysOf(c)) == FirstOf(KeysOf(a + b));
    forall i | 0 <= i < |RollupDay(a + b)| ensures RollupDay(c)[i] == RollupDay(a + b)[i] {
      SameAggregate(a, b, FirstOf(KeysOf(a + b))[i]);
    }
  }

  /** A rollup is its own rollup, whatever kinds the records have. */
  lemma RollupIsIdempotent(a: seq<UsageRecord>)
    ensures RollupDay(RollupDay(a)) == RollupDay(a)
  {
    var c, ks := RollupDay(a), FirstOf(KeysOf(a));
    KeysOfRolled(a);
    FirstOfHasNoDuplicates(KeysOf(a));
    FirstOfDistinct(ks);
    assert FirstOf(KeysOf(c)) == ks;
    forall i | 0 <= i < |c| ensures RollupDay(c)[i] == c[i] {
      OfKeyRolled(a, ks[i]);
    }
  }

  function Total(vs: seq<UsageRecord>): (n: int) {
    if vs == [] then 0 else Total(vs[..|vs| - 1]) + vs[|vs| - 1].value
  }

  lemma {:induction false} CounterAggregate(vs: seq<UsageRecord>)
    requires vs != [] && OneKind(vs) && vs[0].kind == Counter
    ensures Aggregate(vs).value == Wrap(Total(vs))
  {
    var init, last := vs[..|vs| - 1], vs[|vs| - 1];
    if |vs| == 1 {
      assert init == [];
    } else {
      assert forall i :: 0 <= i < |init| ==> init[i] == vs[i];
      CounterAggregate(init);
      assert last.kind == Counter;
      PlusIsWrap(Total(init), last.value);
    }
  }

  lemma {:induction false} GaugeAggregate(vs: seq<UsageRecord>)
    requires vs != [] && OneKind(vs) && vs[0].kind == Gauge
    ensures forall v :: v in vs ==> v.value <= Aggregate(vs).value
    ensures exists v :: v in vs && v.value == Aggregate(vs).value
  {
    var init, last := vs[..|vs| - 1], vs[|vs| - 1];
    if |vs| == 1 {
      assert vs[0] in vs && vs[0].value == Aggregate(vs).value;
    } else {
      assert forall i :: 0 <= i < |init| ==> init[i] == vs[i];
      GaugeAggregate(init);
      assert last.kind == Gauge && last in vs;
      var m :| m in init && m.value == Aggregate(init).value;
      assert m in vs;
      assert forall v :: v in vs <==> v in init || v == last;
    }
  }

  /**
   What a rolled-up record reports when its key has one kind: for a counter the int64 sum of its day's records,
   and for a gauge the largest of them.
   */
  lemma RollupReports(rs: seq<UsageRecord>, i: nat)
    requires i < |RollupDay(rs)| && OneKind(OfKey(rs, KeyOf(RollupDay(rs)[i])))
    ensures var d := RollupDay(rs)[i]; var vs := OfKey(rs, KeyOf(d));
      && vs != [] && d.kind == vs[0].kind && d.slug == vs[0].slug && d.unit == vs[0].unit
      && d.periodStart % DAY == 0 && d.periodEnd == d.periodStart + DAY
      && (d.kind == Counter ==> d.value == Wrap(Total(vs)))
      && (d.kind == Gauge ==>
            (forall v :: v in vs ==> v.value <= d.value) && exists v :: v in vs && v.value == d.value)
  {
    var vs := OfKey(rs, FirstOf(KeysOf(rs))[i]);
    AggregateSpansDay(vs);
    if vs[0].kind == Counter { CounterAggregate(vs); } else { GaugeAggregate(vs); }
  }

  lemma {:induction false} AggregateSpansDay(vs: seq<UsageRecord>)
    requires vs != []
    ensures var d := Aggregate(vs);
      && d.periodStart % DAY == 0 && d.periodEnd == d.periodStart + DAY
      && d.slug == vs[0].slug && d.unit == vs[0].unit
  {
    if |vs| > 1 { AggregateSpansDay(vs[..|vs| - 1]); }
  }

  /** Records of a single key roll up to one. */
  lemma {:induction false} SingleKey(rs: seq<UsageRecord>, k: DayKey)
    requires AllOfKey(rs, k)
    ensures RollupDay(rs) == [Aggregate(rs)]
  {
    SingleKeyParts(rs, k);
    assert |RollupDay(rs)| == 1;
  }

  lemma {:induction false} SingleKeyParts(rs: seq<UsageRecord>, k: DayKey)
    requires AllOfKey(rs, k)
    ensures FirstOf(KeysOf(rs)) == [k] && OfKey(rs, k) == rs
  {
    var init := rs[..|rs| - 1];
    assert KeysOf(rs)[..|rs| - 1] == KeysOf(init);
    assert init + [rs[|rs| - 1]] == rs;
    if init != [] {
      assert forall i :: 0 <= i < |init| ==> init[i] == rs[i];
      SingleKeyParts(init, k);
    }
  }

  /** A counter's record of this key. */
  function CounterOf(k: DayKey, value: int64): (r: UsageRecord) {
    UsageRecord(k.tenant, k.tenant, k.meter, Counter, k.day, k.day + DAY, value, "count")
  }

  ghost predicate Mixed(x: UsageRecord, y: UsageRecord, z: UsageRecord, k: DayKey) {
    k.day % DAY == 0 && x == CounterOf(k, 1) && y == CounterOf(k, 5) && z == CounterOf(k, 7).(kind := Gauge)
  }

  /** All at once: 1 + 5 = 6, then at least 7. In parts: 5, then at least 7, added to 1. */
  lemma MixedKindsBreakHomomorphism(x: UsageRecord, y: UsageRecord, z: UsageRecord, k: DayKey)
    requires Mixed(x, y, z, k)
    ensures RollupDay(RollupDay([x]) + RollupDay([y, z])) != RollupDay([x] + [y, z])
  {
    MixedInParts(x, y, z, k);
    MixedAtOnce(x, y, z, k);
    assert [CounterOf(k, 8)][0] != [CounterOf(k, 7)][0];
  }

  lemma MixedAtOnce(x: UsageRecord, y: UsageRecord, z: UsageRecord, k: DayKey)
    requires Mixed(x, y, z, k)
    ensures RollupDay([x] + [y, z]) == [CounterOf(k, 7)]
  {
    MixedAggregates(x, y, z, k);
    assert [x] + [y, z] == [x, y, z];
    SingleKey([x, y, z], k);
  }

  lemma MixedInParts(x: UsageRecord, y: UsageRecord, z: UsageRecord, k: DayKey)
    requires Mixed(x, y, z, k)
    ensures RollupDay(RollupDay([x]) + RollupDay([y, z])) == [CounterOf(k, 8)]
  {
    MixedAggregates(x, y, z, k);
    SingleKeyTwice([x], [y, z], k);
  }

  ghost predicate AllOfKey(rs: seq<UsageRecord>, k: DayKey) {
    rs != [] && forall i :: 0 <= i < |rs| ==> KeyOf(rs[i]) == k
  }

  lemma SingleKeyTwice(a: seq<UsageRecord>, b: seq<UsageRecord>, k: DayKey)
    requires AllOfKey(a, k) && AllOfKey(b, k)
    ensures RollupDay(RollupDay(a) + RollupDay(b)) == [Aggregate([Aggregate(a), Aggregate(b)])]
  {
    SingleKey(a, k);
    SingleKey(b, k);
    var c := [Aggregate(a), Aggregate(b)];
    assert RollupDay(a) + RollupDay(b) == c;
    SingleKey(c, k);
  }

  lemma MixedAggregates(x: UsageRecord, y: UsageRecord, z: UsageRecord, k: DayKey)
    requires Mixed(x, y, z, k)
    ensures Aggregate([x]) == x && Aggregate([y, z]) == CounterOf(k, 7)
    ensures Aggregate([x, y, z]) == CounterOf(k, 7) && Aggregate([x, CounterOf(k, 7)]) == CounterOf(k, 8)
  {
    assert [y, z][..1] == [y] && [x, y, z][..2] == [x, y] && [x, y][..1] == [x];
    assert [x, CounterOf(k, 7)][..1] == [x];
    assert Aggregate([x, y]) == CounterOf(k, 6);
  }

  // ---------------------------------------------------------------- exactly when grouping does not matter

  /** Which kinds of records occur under which key. */
  type Catalogue = c: set<(DayKey, Kind)> | forall k, v :: (k, v) in c ==> k.day % DAY == 0

  ghost predicate DrawnFrom(rs: seq<UsageRecord>, c: Catalogue) {
    forall r :: r in rs ==> (KeyOf(r), r.kind) in c
  }

  ghost predicate OneKindEach(c: Catalogue) {
    forall k :: !((k, Counter) in c && (k, Gauge) in c)
  }

  /** Grouping never matters for the records a catalogue admits, exactly when it has one kind per key. */
  lemma GroupingIsFreeExactlyWhenKindsAreFixed(c: Catalogue)
    ensures (forall a: seq<UsageRecord>, b: seq<UsageRecord> :: DrawnFrom(a, c) && DrawnFrom(b, c) ==>
               RollupDay(RollupDay(a) + RollupDay(b)) == RollupDay(a + b)) <==> OneKindEach(c)
  {
    if OneKindEach(c) {
      forall a: seq<UsageRecord>, b: seq<UsageRecord> | DrawnFrom(a, c) && DrawnFrom(b, c)
        ensures RollupDay(RollupDay(a) + RollupDay(b)) == RollupDay(a + b)
      {
        DrawnIsConsistent(a, b, c);
        RollupIsHomomorphism(a, b);
      }
    } else {
      var a, b := BothKindsMatter(c);
    }
  }

  lemma BothKindsMatter(c: Catalogue) returns (a: seq<UsageRecord>, b: seq<UsageRecord>)
    requires !OneKindEach(c)
    ensures DrawnFrom(a, c) && DrawnFrom(b, c) && RollupDay(RollupDay(a) + RollupDay(b)) != RollupDay(a + b)
  {
    var k :| (k, Counter) in c && (k, Gauge) in c;
    var x, y, z := CounterOf(k, 1), CounterOf(k, 5), CounterOf(k, 7).(kind := Gauge);
    assert Mixed(x, y, z, k) && KeyOf(x) == KeyOf(y) == KeyOf(z) == k;
    a, b := [x], [y, z];
    MixedKindsBreakHomomorphism(x, y, z, k);
  }

  lemma DrawnIsConsistent(a: seq<UsageRecord>, b: seq<UsageRecord>, c: Catalogue)
    requires DrawnFrom(a, c) && DrawnFrom(b, c) && OneKindEach(c)
    ensures KindsConsistent(a + b)
  {
    forall r, t | r in a + b && t in a + b && KeyOf(r) == KeyOf(t) ensures r.kind == t.kind {
      assert (KeyOf(r), r.kind) in c && (KeyOf(t), t.kind) in c;
    }
  }
}
