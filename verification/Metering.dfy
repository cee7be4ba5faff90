/**
 The metering recorder and store of ee/billing. Any number of callers record deltas while any number
 of flushes take the pending batch, write it, and put it back when the write fails; the proof is that
 nothing is lost or counted twice, as long as no counter overflows.
 */
module Metering {
  import opened Usage

  type Batch = map<Key, int64>

  function At(m: Batch, k: Key): (v: int64) {
    if k in m then m[k] else 0
  }

  /** r.pending[k] += delta. */
  function Bump(m: Batch, k: Key, delta: int64): (m': Batch) {
    m[k := Plus(At(m, k), delta)]
  }

  /** Every delta of a failed batch put back on top of what has been recorded since. */
  function Merge(m: Batch, batch: Batch): (m': Batch)
    ensures m'.Keys == m.Keys + batch.Keys
    ensures forall k :: k in m' ==> m'[k] == if k in batch then Plus(At(m, k), batch[k]) else m[k]
  {
    map k | k in m.Keys + batch.Keys :: if k in batch then Plus(At(m, k), batch[k]) else m[k]
  }

  type Records = map<Key, UsageRecord>

  function ValueAt(rs: Records, k: Key): (v: int64) {
    if k in rs then rs[k].value else 0
  }

  function SlugOf(slugs: map<string, string>, tenant: string): (slug: string) {
    if tenant in slugs then slugs[tenant] else tenant
  }

  predicate KeyOk(k: Key) {
    k.tenant != "" && k.meter != "" && PeriodStart(k.period) == k.period
  }

  function NewRecord(slugs: map<string, string>, k: Key, kind: Kind, value: int64): (r: UsageRecord) {
    UsageRecord(k.tenant, SlugOf(slugs, k.tenant), k.meter, kind, k.period, k.period + HOUR, value, "count")
  }

  // ---------------------------------------------------------------- the store

  datatype CounterDelta = CounterDelta(tenant: string, meter: string, period: int, delta: int64)

  /** One delta of AddCounters; a nameless or non-positive one is skipped. */
  function AddOne(slugs: map<string, string>, rs: Records, d: CounterDelta): (rs': Records) {
    if d.tenant == "" || d.meter == "" || d.delta <= 0 then rs
    else
      var k := Key(d.tenant, d.meter, PeriodStart(d.period));
      if k in rs then rs[k := rs[k].(value := Plus(rs[k].value, d.delta))]
      else rs[k := NewRecord(slugs, k, Counter, d.delta)]
  }

  function AddAll(slugs: map<string, string>, rs: Records, ds: seq<CounterDelta>): (rs': Records) {
    if ds == [] then rs else AddOne(slugs, AddAll(slugs, rs, ds[..|ds| - 1]), ds[|ds| - 1])
  }

  class MemStore {
    var records: Records
    var slugs: map<string, string>
    var failAdd: bool

    constructor ()
      ensures records == map[] && slugs == map[] && !failAdd
    {
      records, slugs, failAdd := map[], map[], false;
    }

    /** All of the deltas or, when the write is made to fail, none. */
    method AddCounters(deltas: seq<CounterDelta>) returns (ok: bool)
      modifies this
      ensures slugs == old(slugs) && ok == !old(failAdd) && !failAdd
      ensures records == if ok then AddAll(slugs, old(records), deltas) else old(records)
    {
      if failAdd {
        failAdd := false;
        return false;
      }
      for i := 0 to |deltas|
        invariant slugs == old(slugs) && !failAdd
        invariant records == AddAll(slugs, old(records), deltas[..i])
      {
        assert deltas[..i + 1][..i] == deltas[..i];
        var d := deltas[i];
        if d.tenant == "" || d.meter == "" || d.delta <= 0 { continue; }
        var k := Key(d.tenant, d.meter, PeriodStart(d.period));
        if k in records {
          records := records[k := records[k].(value := Plus(records[k].value, d.delta))];
        } else {
          records := records[k := NewRecord(slugs, k, Counter, d.delta)];
        }
      }
      assert deltas[..|deltas|] == deltas;
      return true;
    }

    /** SetGauge overwrites the record, whatever it was. */
    method SetGauge(tenant: string, meter: string, period: int, value: int64)
      modifies this
      ensures slugs == old(slugs) && failAdd == old(failAdd)
      ensures records ==
        if tenant == "" || meter == "" then old(records)
        else var k := Key(tenant, meter, PeriodStart(period)); old(records)[k := NewRecord(slugs, k, Gauge, value)]
    {
      if tenant == "" || meter == "" { return; }
      var k := Key(tenant, meter, PeriodStart(period));
      records := records[k := NewRecord(slugs, k, Gauge, value)];
    }
  }

  // ---------------------------------------------------------------- a batch as a list of deltas

  function DeltaOf(k: Key, delta: int64): (d: CounterDelta) {
    CounterDelta(k.tenant, k.meter, k.period, delta)
  }

  /** The keys of the batch in some order, each once. */
  ghost predicate Enumerates(keys: seq<Key>, batch: Batch) {
    && (forall i, j :: 0 <= i < j < |keys| ==> keys[i] != keys[j])
    && (forall k :: k in keys <==> k in batch)
  }

  function DeltasOf(keys: seq<Key>, batch: Batch): (ds: seq<CounterDelta>)
    requires forall k :: k in keys ==> k in batch
  {
    seq(|keys|, i requires 0 <= i < |keys| => DeltaOf(keys[i], batch[keys[i]]))
  }

  /** Whatever the order, writing a batch adds each of its positive values to its own key. */
  lemma {:induction false} BatchAddsEachOnce(slugs: map<string, string>, rs: Records, keys: seq<Key>, batch: Batch,
                                             k: Key)
    requires forall i, j :: 0 <= i < j < |keys| ==> keys[i] != keys[j]
    requires forall x :: x in keys ==> x in batch && KeyOk(x)
    ensures ValueAt(AddAll(slugs, rs, DeltasOf(keys, batch)), k) ==
            if k in keys && batch[k] > 0 then Plus(ValueAt(rs, k), batch[k]) else ValueAt(rs, k)
  {
    if keys != [] {
      var init, last := keys[..|keys| - 1], keys[|keys| - 1];
      var ds := DeltasOf(keys, batch);
      assert ds[..|ds| - 1] == DeltasOf(init, batch);
      assert k in keys <==> k in init || k == last by { assert keys == init + [last]; }
      BatchAddsEachOnce(slugs, rs, init, batch, k);
      OneDelta(slugs, AddAll(slugs, rs, DeltasOf(init, batch)), last, batch[last], k);
    }
  }

  lemma OneDelta(slugs: map<string, string>, rs: Records, key: Key, value: int64, k: Key)
    requires KeyOk(key)
    ensures ValueAt(AddOne(slugs, rs, DeltaOf(key, value)), k) ==
            if k == key && value > 0 then Plus(ValueAt(rs, k), value) else ValueAt(rs, k)
  {
  }

  lemma MergeIntoNothing(batch: Batch)
    ensures Merge(map[], batch) == batch
  {
  }

  lemma NothingWritten(rs: Records)
    ensures Written(rs, map[], rs)
  {
  }

  // ---------------------------------------------------------------- the recorder

  class Recorder {
    var pending: Batch

    constructor ()
      ensures pending == map[]
    {
      pending := map[];
    }

    method Record(tenant: string, meter: string, delta: int64, now: int)
      modifies this
      ensures AllKeysOk(old(pending)) ==> AllKeysOk(pending)
      ensures pending == Recorded(old(pending), tenant, meter, delta, now)
    {
      if tenant == "" || meter == "" || delta <= 0 { return; }
      var k := Key(tenant, meter, PeriodStart(now));
      pending := pending[k := Plus(At(pending, k), delta)];
    }

    /** The first locked section of Flush: the whole batch, or nothing when there is none. */
    method Take() returns (batch: Batch)
      modifies this
      ensures batch == old(pending) && pending == map[]
    {
      batch := pending;
      pending := map[];
    }

    /** The second locked section, after a failed write. */
    method PutBack(batch: Batch)
      modifies this
      ensures pending == Merge(old(pending), batch)
    {
      var todo := batch.Keys;
      while todo != {}
        invariant todo <= batch.Keys
        invariant pending.Keys == old(pending).Keys + (batch.Keys - todo)
        invariant forall k :: k in pending ==>
          pending[k] == if k in batch && k !in todo then Plus(At(old(pending), k), batch[k]) else old(pending)[k]
        decreases todo
      {
        var k :| k in todo;
        todo := todo - {k};
        pending := pending[k := Plus(At(pending, k), batch[k])];
      }
      assert pending == Merge(old(pending), batch);
    }

    /** The unlocked middle of Flush: list the batch, write it. */
    method Write(store: MemStore, batch: Batch) returns (ok: bool, ghost keys: seq<Key>)
      requires AllKeysOk(batch)
      modifies store
      ensures ok == !old(store.failAdd) && store.slugs == old(store.slugs) && Enumerates(keys, batch)
      ensures ok ==> store.records == AddAll(store.slugs, old(store.records), DeltasOf(keys, batch))
      ensures ok ==> Written(old(store.records), batch, store.records)
      ensures !ok ==> store.records == old(store.records)
    {
      var listed := Enumerate(batch);
      keys := listed;
      ok := store.AddCounters(DeltasOf(listed, batch));
      if ok {
        forall k ensures ValueAt(store.records, k) == ValueAfter(old(store.records), batch, k) {
          BatchAddsEachOnce(store.slugs, old(store.records), keys, batch, k);
        }
      }
    }

    /** Flush with nothing else running: written in full, or still pending in full. */
    method Flush(store: MemStore) returns (ok: bool)
      requires AllKeysOk(pending)
      modifies this, store
      ensures ok ==> pending == map[] && Written(old(store.records), old(pending), store.records)
      ensures !ok ==> pending == old(pending) && store.records == old(store.records)
    {
      if |pending| == 0 {
        NothingWritten(store.records);
        return true;
      }
      var batch := Take();
      ghost var keys;
      ok, keys := Write(store, batch);
      if !ok {
        MergeIntoNothing(batch);
        PutBack(batch);
      }
    }
  }

  ghost predicate AllKeysOk(m: Batch) {
    forall k :: k in m ==> KeyOk(k)
  }

  /** The value a key has once the batch is written; AddCounters skips values that are not positive. */
  function ValueAfter(rs: Records, batch: Batch, k: Key): (v: int64) {
    if k in batch && batch[k] > 0 then Plus(ValueAt(rs, k), batch[k]) else ValueAt(rs, k)
  }

  ghost predicate Written(rs: Records, batch: Batch, rs': Records) {
    forall k :: ValueAt(rs', k) == ValueAfter(rs, batch, k)
  }

  /** The pending map after a Record call, which ignores nameless and non-positive deltas. */
  function Recorded(pending: Batch, tenant: string, meter: string, delta: int64, now: int): (m: Batch) {
    if tenant == "" || meter == "" || delta <= 0 then pending
    else Bump(pending, Key(tenant, meter, PeriodStart(now)), delta)
  }

  /** Ranging over a map: its keys in no particular order. */
  method Enumerate(batch: Batch) returns (keys: seq<Key>)
    ensures Enumerates(keys, batch)
  {
    keys := [];
    var todo := batch.Keys;
    while todo != {}
      invariant todo <= batch.Keys
      invariant forall i, j :: 0 <= i < j < |keys| ==> keys[i] != keys[j]
      invariant forall k :: k in keys <==> k in batch && k !in todo
      decreases todo
    {
      var k :| k in todo;
      todo := todo - {k};
      keys := keys + [k];
    }
  }
}
