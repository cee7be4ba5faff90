/**
 The KMIP object store of ee/kmip/kmip.go: first as a value with its operations, over whose runs
 the lifecycle is proved, then as the object graph the server mutates, over which the ownership
 of key buffers is proved.
 */
module KmipStore {
  import opened Bytes
  import opened Text

  datatype Status = Active | Revoked | Destroyed

  datatype Entry = Entry(algorithm: Text, status: Status, version: nat, key: seq<Byte>)

  datatype Store = Store(n: nat, objects: map<Text, Entry>)

  const EMPTY := Store(0, map[])

  function IdOf(k: nat): (id: Text) {
    Ascii("kmip-") + Decimal(k)
  }

  /** The identifier the next registration hands out. */
  function NextId(s: Store): (id: Text) {
    IdOf(s.n + 1)
  }

  predicate Live(s: Store, id: Text) {
    id in s.objects && s.objects[id].status == Active
  }

  predicate Issued(s: Store, id: Text) {
    exists k :: 1 <= k <= s.n && id == IdOf(k)
  }

  // ---------------------------------------------------------------- operations on the value

  /** The changes an authenticated client can make; Create is Register of a random key. */
  datatype Op =
    | Register(algorithm: Text, key: seq<Byte>)
    | ReKey(id: Text, key: seq<Byte>)
    | Revoke(id: Text)
    | Destroy(id: Text)
    | Close

  /** The store after one operation; an operation the server refuses changes nothing. */
  function Step(s: Store, op: Op): (s': Store)
    ensures s.n <= s'.n
  {
    match op
    case Register(alg, key) => Store(s.n + 1, s.objects[NextId(s) := Entry(alg, Active, 1, key)])
    case ReKey(id, key) =>
      if Live(s, id) then
        var e := s.objects[id];
        s.(objects := s.objects[id := e.(key := key, version := e.version + 1)])
      else s
    case Revoke(id) =>
      if id in s.objects then s.(objects := s.objects[id := s.objects[id].(status := Revoked)]) else s
    case Destroy(id) =>
      if id in s.objects then
        s.(objects := s.objects[id := s.objects[id].(status := Destroyed, key := [])])
      else s
    case Close => s.(objects := map[])
  }

  /** The store after a run of operations on a new server. */
  function Run(ops: seq<Op>): (s: Store) {
    if ops == [] then EMPTY else Step(Run(ops[..|ops| - 1]), ops[|ops| - 1])
  }

  // ---------------------------------------------------------------- lifecycle over runs

  lemma IdInjective(j: nat, k: nat)
    ensures IdOf(j) == IdOf(k) ==> j == k
  {
    if IdOf(j) == IdOf(k) {
      assert IdOf(j)[5..] == Decimal(j) && IdOf(k)[5..] == Decimal(k);
      DecimalInjective(j, k);
    }
  }

  /** What every reachable store satisfies. */
  ghost predicate Inv(s: Store) {
    && (forall id :: id in s.objects ==> Issued(s, id))
    && (forall id :: id in s.objects && s.objects[id].status == Destroyed ==> s.objects[id].key == [])
  }

  lemma StepKeepsInv(s: Store, op: Op)
    requires Inv(s)
    ensures Inv(Step(s, op))
    ensures forall id :: Issued(s, id) ==> Issued(Step(s, op), id)
  {
    var s' := Step(s, op);
    forall id | Issued(s, id) ensures Issued(s', id) {
      var k :| 1 <= k <= s.n && id == IdOf(k);
      assert 1 <= k <= s'.n;
    }
    if op.Register? { assert Issued(s', IdOf(s'.n)); }
  }

  /** A destroyed object holds no key, in every state of every run. */
  lemma {:induction false} RunKeepsInv(ops: seq<Op>)
    ensures Inv(Run(ops))
  {
    if ops != [] {
      RunKeepsInv(ops[..|ops| - 1]);
      StepKeepsInv(Run(ops[..|ops| - 1]), ops[|ops| - 1]);
    }
  }

  lemma {:induction false} CounterNeverDecreases(ops: seq<Op>, i: nat)
    requires i <= |ops|
    ensures Run(ops[..i]).n <= Run(ops).n
  {
    if i == |ops| {
      assert ops[..i] == ops;
    } else {
      var init := ops[..|ops| - 1];
      assert init[..i] == ops[..i];
      CounterNeverDecreases(init, i);
    }
  }

  /** No two registrations of a run hand out the same identifier, even across Close. */
  lemma IdentifiersAreNeverReused(ops: seq<Op>, i: nat, j: nat)
    requires i < j < |ops| && ops[i].Register? && ops[j].Register?
    ensures NextId(Run(ops[..i])) != NextId(Run(ops[..j]))
  {
    var before := ops[..i + 1];
    assert before[..|before| - 1] == ops[..i];
    assert ops[..j][..i + 1] == before;
    CounterNeverDecreases(ops[..j], i + 1);
    IdInjective(Run(ops[..i]).n + 1, Run(ops[..j]).n + 1);
  }

  lemma StepKeepsRetired(s: Store, op: Op, id: Text)
    requires Issued(s, id) && !Live(s, id)
    ensures Issued(Step(s, op), id) && !Live(Step(s, op), id)
  {
    var k :| 1 <= k <= s.n && id == IdOf(k);
    assert 1 <= k <= Step(s, op).n;
    IdInjective(k, s.n + 1);
  }

  /**
   An identifier that has been handed out and is not active is not active at any later point: no
   operation, registration included, brings it back, so it is never located, fetched or rekeyed again.
   */
  lemma {:induction false} LeavingActiveIsFinal(ops: seq<Op>, i: nat, id: Text)
    requires i <= |ops|
    requires Issued(Run(ops[..i]), id) && !Live(Run(ops[..i]), id)
    ensures Issued(Run(ops), id) && !Live(Run(ops), id)
  {
    if i == |ops| {
      assert ops[..i] == ops;
    } else {
      var init := ops[..|ops| - 1];
      assert init[..i] == ops[..i];
      LeavingActiveIsFinal(init, i, id);
      StepKeepsRetired(Run(init), ops[|ops| - 1], id);
    }
  }

  /** Handed out, not active, and without a key if it is still listed. */
  predicate Gone(s: Store, id: Text) {
    Issued(s, id) && !Live(s, id) && (id in s.objects ==> s.objects[id].key == [])
  }

  lemma StepKeepsGone(s: Store, op: Op, id: Text)
    requires Gone(s, id)
    ensures Gone(Step(s, op), id)
  {
    StepKeepsRetired(s, op, id);
    NextIsNotIssued(s);
  }

  /** Once destroyed, an identifier never holds a key again, whatever is done to it later, a revocation included. */
  lemma {:induction false} DestroyedStaysKeyless(ops: seq<Op>, i: nat, id: Text)
    requires i < |ops| && ops[i] == Destroy(id) && id in Run(ops[..i]).objects
    ensures Gone(Run(ops), id)
  {
    var init := ops[..|ops| - 1];
    if i == |ops| - 1 {
      RunKeepsInv(ops);
    } else {
      assert init[..i] == ops[..i] && init[i] == ops[i];
      DestroyedStaysKeyless(init, i, id);
      StepKeepsGone(Run(init), ops[|ops| - 1], id);
    }
  }

  /** How many times the run rotated the key of id. */
  function ReKeys(ops: seq<Op>, id: Text): (count: nat) {
    if ops == [] then 0
    else
      var init, last := ops[..|ops| - 1], ops[|ops| - 1];
      ReKeys(init, id) + (if last.ReKey? && last.id == id && Live(Run(init), id) then 1 else 0)
  }

  lemma {:induction false} NotIssuedNotRekeyed(ops: seq<Op>, id: Text)
    requires !Issued(Run(ops), id)
    ensures ReKeys(ops, id) == 0
  {
    if ops != [] {
      var init := ops[..|ops| - 1];
      RunKeepsInv(init);
      StepKeepsInv(Run(init), ops[|ops| - 1]);
      NotIssuedNotRekeyed(init, id);
    }
  }

  lemma NextIsNotIssued(s: Store)
    ensures !Issued(s, NextId(s))
  {
    if Issued(s, NextId(s)) {
      var k :| 1 <= k <= s.n && NextId(s) == IdOf(k);
      IdInjective(k, s.n + 1);
    }
  }

  /** The version of an object is one plus the number of times its key was rotated. */
  lemma {:induction false} VersionCountsReKeys(ops: seq<Op>, id: Text)
    requires id in Run(ops).objects
    ensures Run(ops).objects[id].version == 1 + ReKeys(ops, id)
  {
    var init, last := ops[..|ops| - 1], ops[|ops| - 1];
    var s := Run(init);
    if last.Register? && id == NextId(s) {
      NextIsNotIssued(s);
      NotIssuedNotRekeyed(init, id);
    } else {
      VersionCountsReKeys(init, id);
    }
  }

  // ---------------------------------------------------------------- the object graph

  datatype Failure = NotAuthenticated | NoEntropy | NotAvailable | NotActive | NotFound

  datatype Result<T> = Ok(value: T) | Err(failure: Failure)

  /** What GetObject hands to the caller, who owns the key buffer and wipes it. */
  datatype View = View(id: Text, algorithm: Text, version: nat, key: array<Byte>)

  class ManagedObject {
    const id: Text
    const algorithm: Text
    var status: Status
    var version: nat
    var key: array?<Byte>

    constructor (id: Text, algorithm: Text, key: array<Byte>)
      ensures this.id == id && this.algorithm == algorithm
      ensures status == Active && version == 1 && this.key == key
    {
      this.id, this.algorithm := id, algorithm;
      status, version, this.key := Active, 1, key;
    }

    method SetStatus(status: Status)
      modifies this
      ensures this.status == status && version == old(version) && key == old(key)
    {
      this.status := status;
    }

    /** Wipes the key in place before letting go of it. */
    method Rekey(key: array?<Byte>, status: Status, version: nat)
      requires key == null || key != this.key
      modifies this, this.key
      ensures this.key == key && this.status == status && this.version == version
      ensures old(this.key) != null ==> Wiped(old(this.key))
    {
      if this.key != null { Wipe(this.key); }
      this.key, this.status, this.version := key, status, version;
    }
  }

  /** The object is this entry of the store. */
  ghost predicate Represents(o: ManagedObject, id: Text, e: Entry)
    reads o, o.key
  {
    && o.id == id && o.algorithm == e.algorithm && o.status == e.status && o.version == e.version
    && e.key == if o.key == null then [] else o.key[..]
  }

  /** secret.Wipe. */
  method Wipe(b: array<Byte>)
    modifies b
    ensures Wiped(b)
  {
    for i := 0 to b.Length
      invariant forall j :: 0 <= j < i ==> b[j] == 0
    {
      b[i] := 0;
    }
  }

  method CopyBytes(src: array<Byte>) returns (dst: array<Byte>)
    ensures fresh(dst) && dst[..] == src[..]
  {
    dst := new Byte[src.Length](i requires 0 <= i < src.Length reads src => src[i]);
  }

  /** crypto.RandomBytes: a new buffer of arbitrary bytes, or a failure. */
  method RandomBytes(n: nat) returns (b: array?<Byte>)
    ensures b != null ==> fresh(b) && b.Length == n
  {
    var available: bool := *;
    b := null;
    if available { b := new Byte[n]; }
  }

  class Server {
    const authenticate: seq<Byte> -> bool
    var objects: map<Text, ManagedObject>
    var n: nat
    /** The store value this object graph represents. */
    ghost var Contents: Store
    /** Everything the server owns: itself, its objects and their key buffers. */
    ghost var Repr: set<object>
    /** Which object each key buffer was made for. */
    ghost var Owner: map<object, Text>
    /** Every buffer that has crossed the boundary: registered inputs and returned views. */
    ghost var Shared: set<object>
    /** The operations that took effect, in order. */
    ghost var History: seq<Op>

    /** The object graph is this store; no key buffer is held twice, and none is one a caller has seen. */
    ghost predicate Image(c: Store)
      reads this`objects, this`n, this`Repr, this`Owner, this`Shared, Repr - {this}
    {
      && this in Repr && Repr !! Shared
      && c.n == n && c.objects.Keys == objects.Keys
      && (forall id :: id in objects ==> objects[id] in Repr - {this})
      && (forall id :: id in objects && objects[id].key != null ==>
            var b := objects[id].key; b in Repr - {this} && b in Owner && Owner[b] == id)
      && (forall id :: id in objects ==> Represents(objects[id], id, c.objects[id]))
    }

    /** The graph is the store its operations so far have led to. */
    ghost predicate Valid()
      reads this, Repr
    {
      Image(Contents) && Contents == Run(History)
    }

    constructor (authenticate: seq<Byte> -> bool)
      ensures Valid() && fresh(Repr) && Shared == {}
      ensures this.authenticate == authenticate && Contents == EMPTY && History == []
    {
      this.authenticate := authenticate;
      objects, n := map[], 0;
      Repr, Shared, Owner, Contents, History := {this}, {}, map[], EMPTY, [];
    }

    /** The represented value takes a step. */
    ghost method Note(op: Op)
      requires Contents == Run(History) && Image(Step(Contents, op))
      modifies this`Contents, this`History
      ensures Valid() && Contents == Step(old(Contents), op) && History == old(History) + [op]
    {
      assert (History + [op])[..|History|] == History;
      Contents, History := Step(Contents, op), History + [op];
    }

    method Create(cert: seq<Byte>, algorithm: Text) returns (r: Result<Text>)
      requires Valid()
      modifies Repr
      ensures unchanged(old(Shared))
      ensures Valid() && fresh(Repr - old(Repr)) && Shared == old(Shared)
      ensures r.Err? ==> r.failure == if authenticate(cert) then NoEntropy else NotAuthenticated
      ensures r.Ok? ==>
        && authenticate(cert) && r.value == NextId(old(Contents))
        && r.value in Contents.objects && |Contents.objects[r.value].key| == 32
        && Contents == Step(old(Contents), Register(algorithm, Contents.objects[r.value].key))
        && History == old(History) + [Register(algorithm, Contents.objects[r.value].key)]
      ensures r.Err? ==> Contents == old(Contents) && History == old(History)
    {
      if !authenticate(cert) { return Err(NotAuthenticated); }
      var key := RandomBytes(32);
      if key == null { return Err(NoEntropy); }
      var id := Insert(algorithm, key);
      return Ok(id);
    }

    /** Register keeps a copy: the caller's buffer stays the caller's. */
    method RegisterKey(cert: seq<Byte>, algorithm: Text, key: array<Byte>) returns (r: Result<Text>)
      requires Valid()
      modifies Repr
      ensures unchanged(old(Shared))
      ensures Valid() && fresh(Repr - old(Repr))
      ensures Shared == if r.Ok? && key !in old(Repr) then old(Shared) + {key} else old(Shared)
      ensures !authenticate(cert) ==>
        r == Err(NotAuthenticated) && Contents == old(Contents) && History == old(History)
      ensures authenticate(cert) ==>
        && r == Ok(NextId(old(Contents))) && Contents == Step(old(Contents), Register(algorithm, old(key[..])))
        && History == old(History) + [Register(algorithm, old(key[..]))]
    {
      if !authenticate(cert) { return Err(NotAuthenticated); }
      var copy := CopyBytes(key);
      var id := Insert(algorithm, copy);
      if key !in old(Repr) { Share(key); }
      return Ok(id);
    }

    /** register: takes ownership of a buffer nobody else holds. */
    method Insert(algorithm: Text, key: array<Byte>) returns (id: Text)
      requires Valid() && key !in Repr && key !in Shared
      modifies this
      ensures Valid() && fresh(Repr - old(Repr) - {key}) && Shared == old(Shared)
      ensures id == NextId(old(Contents))
      ensures Contents == Step(old(Contents), Register(algorithm, key[..]))
      ensures History == old(History) + [Register(algorithm, key[..])]
    {
      id := Put(algorithm, key);
      Note(Register(algorithm, key[..]));
    }

    method Put(algorithm: Text, key: array<Byte>) returns (id: Text)
      requires Image(Contents) && key !in Repr && key !in Shared
      modifies this`n, this`objects, this`Repr, this`Owner
      ensures fresh(Repr - old(Repr) - {key}) && id == NextId(Contents)
      ensures Image(Step(Contents, Register(algorithm, key[..])))
    {
      n := n + 1;
      id := IdOf(n);
      var o := new ManagedObject(id, algorithm, key);
      objects := objects[id := o];
      Repr, Owner := Repr + {o, key}, Owner[key := id];
    }

    /** A buffer that is not the server's is handed to a caller. */
    ghost method Share(b: array<Byte>)
      requires Valid() && b !in Repr
      modifies this`Shared
      ensures Valid() && Shared == old(Shared) + {b}
    {
      Shared := Shared + {b};
    }

    /** The key in the view is a new copy; the store does not change. */
    method GetObject(cert: seq<Byte>, id: Text) returns (r: Result<View>)
      requires Valid()
      modifies this`Shared
      ensures Valid()
      ensures r.Ok? <==> authenticate(cert) && Live(Contents, id)
      ensures r.Ok? ==>
        var e := Contents.objects[id];
        && r.value.id == id && r.value.algorithm == e.algorithm && r.value.version == e.version
        && r.value.key[..] == e.key && fresh(r.value.key) && r.value.key !in Repr
        && Shared == old(Shared) + {r.value.key}
      ensures r.Err? ==> Shared == old(Shared)
      ensures r.Err? ==> r.failure == if authenticate(cert) then NotAvailable else NotAuthenticated
      ensures Contents == old(Contents)
    {
      if !authenticate(cert) { return Err(NotAuthenticated); }
      if id !in objects || objects[id].status != Active { return Err(NotAvailable); }
      var o := objects[id];
      var copy;
      if o.key == null { copy := new Byte[0]; } else { copy := CopyBytes(o.key); }
      Share(copy);
      return Ok(View(o.id, o.algorithm, o.version, copy));
    }

    /** The active objects of an algorithm, in whatever order the map yields them. */
    method Locate(cert: seq<Byte>, algorithm: Text) returns (r: Result<seq<Text>>)
      requires Valid()
      ensures r.Ok? <==> authenticate(cert)
      ensures r.Err? ==> r.failure == NotAuthenticated
      ensures r.Ok? ==>
        && (forall i, j :: 0 <= i < j < |r.value| ==> r.value[i] != r.value[j])
        && (forall id :: id in r.value <==>
              Live(Contents, id) && (algorithm == [] || Contents.objects[id].algorithm == algorithm))
    {
      if !authenticate(cert) { return Err(NotAuthenticated); }
      var out, todo := [], objects.Keys;
      while todo != {}
        invariant todo <= objects.Keys
        invariant forall i, j :: 0 <= i < j < |out| ==> out[i] != out[j]
        invariant forall id :: id in out <==>
          && id in objects && id !in todo && objects[id].status == Active
          && (algorithm == [] || objects[id].algorithm == algorithm)
        decreases todo
      {
        var id :| id in todo;
        todo := todo - {id};
        var o := objects[id];
        if o.status == Active && (algorithm == [] || o.algorithm == algorithm) { out := out + [id]; }
      }
      return Ok(out);
    }

    /** The old buffer is wiped in place, which reaches no other object and no earlier copy. */
    method ReKeyObject(cert: seq<Byte>, id: Text) returns (r: Result<nat>)
      requires Valid()
      modifies Repr
      ensures unchanged(old(Shared))
      ensures Valid() && fresh(Repr - old(Repr)) && Shared == old(Shared)
      ensures r.Ok? ==>
        && authenticate(cert) && Live(old(Contents), id) && Live(Contents, id)
        && |Contents.objects[id].key| == 32
        && Contents == Step(old(Contents), ReKey(id, Contents.objects[id].key))
        && History == old(History) + [ReKey(id, Contents.objects[id].key)]
        && r.value == Contents.objects[id].version
        && (old(objects[id].key) != null ==> Wiped(old(objects[id].key)))
      ensures r.Err? ==> Contents == old(Contents) && History == old(History)
      ensures authenticate(cert) && !Live(old(Contents), id) ==> r.Err?
    {
      if !authenticate(cert) { return Err(NotAuthenticated); }
      var key := RandomBytes(32);
      if key == null { return Err(NoEntropy); }
      r := RekeyOrWipe(id, key);
    }

    /** The locked part of ReKey, with a buffer nobody else holds. */
    method RekeyOrWipe(id: Text, key: array<Byte>) returns (r: Result<nat>)
      requires Valid() && key !in Repr && key !in Shared && key.Length == 32
      modifies Repr, key
      ensures Valid() && Repr == (if r.Ok? then old(Repr) + {key} else old(Repr)) && Shared == old(Shared)
      ensures r.Ok? <==> Live(old(Contents), id)
      ensures r.Ok? ==>
        && Live(Contents, id) && |Contents.objects[id].key| == 32 && r.value == Contents.objects[id].version
        && Contents == Step(old(Contents), ReKey(id, Contents.objects[id].key))
        && History == old(History) + [ReKey(id, Contents.objects[id].key)]
        && (old(objects[id].key) != null ==> Wiped(old(objects[id].key)))
      ensures r.Err? ==> Contents == old(Contents) && History == old(History)
    {
      if id !in objects || objects[id].status != Active {
        Wipe(key);
        return Err(NotActive);
      }
      Rotate(id, key);
      return Ok(objects[id].version);
    }

    method Rotate(id: Text, key: array<Byte>)
      requires Valid() && Live(Contents, id) && key !in Repr && key !in Shared
      modifies this`Repr, this`Owner, this`Contents, this`History, objects[id], objects[id].key
      ensures Valid() && Repr == old(Repr) + {key} && Shared == old(Shared)
      ensures Contents == Step(old(Contents), ReKey(id, key[..])) && History == old(History) + [ReKey(id, key[..])]
      ensures old(objects[id].key) != null ==> Wiped(old(objects[id].key))
    {
      Swap(id, key);
      Note(ReKey(id, key[..]));
    }

    /** A buffer nobody holds becomes the object's key, the old one wiped. */
    method Swap(id: Text, key: array<Byte>)
      requires Image(Contents) && Live(Contents, id) && key !in Repr && key !in Shared
      modifies this`Repr, this`Owner, objects[id], objects[id].key
      ensures Image(Step(Contents, ReKey(id, key[..]))) && Repr == old(Repr) + {key}
      ensures old(objects[id].key) != null ==> Wiped(old(objects[id].key))
    {
      Adopt(id, key);
      Replace(id, key);
    }

    ghost method Adopt(id: Text, key: array<Byte>)
      requires Image(Contents) && key !in Repr && key !in Shared
      modifies this`Repr, this`Owner
      ensures Image(Contents) && Repr == old(Repr) + {key} && key in Owner && Owner[key] == id
      ensures forall i :: i in objects ==> objects[i].key != key
    {
      Repr, Owner := Repr + {key}, Owner[key := id];
    }

    method Replace(id: Text, key: array<Byte>)
      requires Image(Contents) && Live(Contents, id)
      requires key in Repr - {this} && key in Owner && Owner[key] == id
      requires forall i :: i in objects ==> objects[i].key != key
      modifies objects[id], objects[id].key
      ensures Image(Step(Contents, ReKey(id, key[..])))
      ensures old(objects[id].key) != null ==> Wiped(old(objects[id].key))
    {
      var o := objects[id];
      o.Rekey(key, Active, o.version + 1);
    }

    method RevokeObject(cert: seq<Byte>, id: Text) returns (r: Result<()>)
      requires Valid()
      modifies Repr
      ensures unchanged(old(Shared))
      ensures Valid() && Repr == old(Repr) && Shared == old(Shared)
      ensures r.Ok? <==> authenticate(cert) && id in old(Contents).objects
      ensures r.Err? ==> r.failure == if authenticate(cert) then NotFound else NotAuthenticated
      ensures Contents == if r.Ok? then Step(old(Contents), Revoke(id)) else old(Contents)
      ensures History == if r.Ok? then old(History) + [Revoke(id)] else old(History)
    {
      if !authenticate(cert) { return Err(NotAuthenticated); }
      if id !in objects { return Err(NotFound); }
      RevokeKnown(id);
      return Ok(());
    }

    method RevokeKnown(id: Text)
      requires Valid() && id in objects
      modifies this`Contents, this`History, objects[id]
      ensures Valid() && Contents == Step(old(Contents), Revoke(id)) && History == old(History) + [Revoke(id)]
    {
      MarkRevoked(id);
      Note(Revoke(id));
    }

    method MarkRevoked(id: Text)
      requires Image(Contents) && id in objects
      modifies objects[id]
      ensures Image(Step(Contents, Revoke(id)))
    {
      objects[id].SetStatus(Revoked);
    }

    method DestroyObject(cert: seq<Byte>, id: Text) returns (r: Result<()>)
      requires Valid()
      modifies Repr
      ensures unchanged(old(Shared))
      ensures Valid() && Repr == old(Repr) && Shared == old(Shared)
      ensures r.Ok? <==> authenticate(cert) && id in old(Contents).objects
      ensures r.Err? ==> r.failure == if authenticate(cert) then NotFound else NotAuthenticated
      ensures Contents == if r.Ok? then Step(old(Contents), Destroy(id)) else old(Contents)
      ensures History == if r.Ok? then old(History) + [Destroy(id)] else old(History)
      ensures r.Ok? && old(objects[id].key) != null ==> Wiped(old(objects[id].key))
    {
      if !authenticate(cert) { return Err(NotAuthenticated); }
      if id !in objects { return Err(NotFound); }
      DestroyKnown(id);
      return Ok(());
    }

    method DestroyKnown(id: Text)
      requires Valid() && id in objects
      modifies this`Contents, this`History, objects[id], objects[id].key
      ensures Valid() && Contents == Step(old(Contents), Destroy(id)) && History == old(History) + [Destroy(id)]
      ensures old(objects[id].key) != null ==> Wiped(old(objects[id].key))
    {
      Scrub(id);
      Note(Destroy(id));
    }

    method Scrub(id: Text)
      requires Image(Contents) && id in objects
      modifies objects[id], objects[id].key
      ensures Image(Step(Contents, Destroy(id)))
      ensures old(objects[id].key) != null ==> Wiped(old(objects[id].key))
    {
      objects[id].Rekey(null, Destroyed, objects[id].version);
    }

    /** Every buffer is scrubbed and every object dropped; the id counter goes on. */
    method CloseAll()
      requires Valid()
      modifies Repr
      ensures unchanged(old(Shared))
      ensures Valid() && Repr == old(Repr) && Shared == old(Shared)
      ensures Contents == Step(old(Contents), Close) && History == old(History) + [Close]
      ensures forall id :: id in old(objects) && old(objects[id].key) != null ==> Wiped(old(objects[id].key))
    {
      ScrubAll();
      objects := map[];
      Note(Close);
    }

    method ScrubAll()
      requires Valid()
      modifies Repr - {this}
      ensures forall id :: id in objects && old(objects[id].key) != null ==> Wiped(old(objects[id].key))
    {
      var todo := objects.Keys;
      while todo != {}
        invariant todo <= objects.Keys
        invariant forall id :: id in todo ==> objects[id].key == old(objects[id].key)
        invariant forall id :: id in objects && id !in todo && old(objects[id].key) != null ==>
          Wiped(old(objects[id].key))
        decreases todo
      {
        var id :| id in todo;
        todo := todo - {id};
        objects[id].Rekey(null, Destroyed, objects[id].version);
      }
    }
  }

  ghost predicate Wiped(b: array<Byte>)
    reads b
  {
    forall i :: 0 <= i < b.Length ==> b[i] == 0
  }

  /**
   Whatever callers do to the buffers they have seen, such as wiping a view or overwriting a key they registered,
   and to nothing else, changes no object of the store.
   */
  twostate lemma CallersCannotDisturb(s: Server)
    requires old(s.Valid())
    requires forall o: object :: old(allocated(o)) && o !in old(s.Shared) ==> unchanged(o)
    ensures s.Valid() && s.Contents == old(s.Contents) && s.History == old(s.History)
  {}

  /** A caller that overwrites any of the buffers it has, and the store as it was. */
  method Scribble(s: Server, buffer: array<Byte>, value: Byte)
    requires s.Valid() && buffer in s.Shared
    modifies buffer
    ensures s.Valid() && s.Contents == old(s.Contents) && s.Shared == old(s.Shared)
    ensures forall i :: 0 <= i < buffer.Length ==> buffer[i] == value
  {
    for i := 0 to buffer.Length
      invariant s.Valid() && s.Contents == old(s.Contents)
      invariant forall j :: 0 <= j < i ==> buffer[j] == value
    {
      buffer[i] := value;
    }
  }
}
