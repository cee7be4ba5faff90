/** What a store holds, told from the operations alone: which objects, with which key, status and algorithm. */
module KmipHistory {
  import opened Bytes
  import opened Text
  import opened KmipStore

  /** The identifier of a registration is its number among all registrations. */
  function Registrations(ops: seq<Op>): (n: nat) {
    if ops == [] then 0 else Registrations(ops[..|ops| - 1]) + (if ops[|ops| - 1].Register? then 1 else 0)
  }

  lemma {:induction false} CounterCounts(ops: seq<Op>)
    ensures Run(ops).n == Registrations(ops)
  {
    if ops != [] { CounterCounts(ops[..|ops| - 1]); }
  }

  function RegisteredAs(ops: seq<Op>, i: nat): (id: Text)
    requires i <= |ops|
  {
    Ascii("kmip-") + Decimal(Registrations(ops[..i]) + 1)
  }

  /** Operations that name the object, or drop every object. */
  predicate Touches(op: Op, id: Text) {
    match op
    case Register(_, _) => false
    case ReKey(x, _) => x == id
    case Revoke(x) => x == id
    case Destroy(x) => x == id
    case Close => true
  }

  ghost predicate UntouchedSince(ops: seq<Op>, i: nat, id: Text) {
    forall j :: i <= j < |ops| ==> !Touches(ops[j], id)
  }

  lemma StepLeavesOthers(s: Store, op: Op, id: Text)
    requires id in s.objects && Inv(s) && !Touches(op, id)
    ensures id in Step(s, op).objects && Step(s, op).objects[id] == s.objects[id]
  {
    if op.Register? { NextIsNotIssued(s); }
  }

  /** An object no later operation names, short of Close, stays as it is. */
  lemma {:induction false} UntouchedStays(ops: seq<Op>, i: nat, id: Text)
    requires i <= |ops| && id in Run(ops[..i]).objects && UntouchedSince(ops, i, id)
    ensures id in Run(ops).objects && Run(ops).objects[id] == Run(ops[..i]).objects[id]
  {
    if i == |ops| {
      assert ops[..i] == ops;
    } else {
      var init := ops[..|ops| - 1];
      assert init[..i] == ops[..i];
      UntouchedStays(init, i, id);
      RunKeepsInv(init);
      StepLeavesOthers(Run(init), ops[|ops| - 1], id);
    }
  }

  lemma PrefixSnoc(ops: seq<Op>, i: nat)
    requires i < |ops|
    ensures Run(ops[..i + 1]) == Step(Run(ops[..i]), ops[i])
  {
    assert ops[..i + 1][..i] == ops[..i];
  }

  /** A registered object is active with the registered algorithm and key, until an operation names it. */
  lemma RegisteredHolds(ops: seq<Op>, i: nat)
    requires i < |ops| && ops[i].Register? && UntouchedSince(ops, i + 1, RegisteredAs(ops, i))
    ensures RegisteredAs(ops, i) in Run(ops).objects
    ensures Run(ops).objects[RegisteredAs(ops, i)] == Entry(ops[i].algorithm, Active, 1, ops[i].key)
  {
    CounterCounts(ops[..i]);
    PrefixSnoc(ops, i);
    UntouchedStays(ops, i + 1, RegisteredAs(ops, i));
  }

  /** A rotated key is the one held, the rest of the object being as it was. */
  lemma RekeyedHolds(ops: seq<Op>, i: nat, id: Text, key: seq<Byte>)
    requires i < |ops| && ops[i] == ReKey(id, key) && UntouchedSince(ops, i + 1, id)
    requires var s := Run(ops[..i]); id in s.objects && s.objects[id].status == Active
    ensures var e := Run(ops[..i]).objects[id];
            id in Run(ops).objects && Run(ops).objects[id] == Entry(e.algorithm, Active, e.version + 1, key)
  {
    PrefixSnoc(ops, i);
    UntouchedStays(ops, i + 1, id);
  }

  /** A revoked object keeps its key and version; a destroyed one loses the key. */
  lemma RetiredHolds(ops: seq<Op>, i: nat, id: Text)
    requires i < |ops| && (ops[i] == Revoke(id) || ops[i] == Destroy(id)) && UntouchedSince(ops, i + 1, id)
    requires id in Run(ops[..i]).objects
    ensures var e := Run(ops[..i]).objects[id];
            && id in Run(ops).objects
            && Run(ops).objects[id] == if ops[i].Revoke? then Entry(e.algorithm, Revoked, e.version, e.key)
                                       else Entry(e.algorithm, Destroyed, e.version, [])
  {
    PrefixSnoc(ops, i);
    UntouchedStays(ops, i + 1, id);
  }

  /** A rotation of an object that is not active does nothing. */
  lemma RetiredIsNotRekeyed(s: Store, id: Text, key: seq<Byte>)
    requires !Live(s, id)
    ensures Step(s, ReKey(id, key)) == s
  {
  }

  ghost predicate RegisteredSinceClose(ops: seq<Op>, i: nat, id: Text) {
    i < |ops| && ops[i].Register? && id == RegisteredAs(ops, i) && forall j :: i < j < |ops| ==> !ops[j].Close?
  }

  /** The objects of a store are exactly those registered since the last Close. */
  lemma {:induction false} KnownExactly(ops: seq<Op>, id: Text)
    ensures id in Run(ops).objects <==> exists i: nat :: RegisteredSinceClose(ops, i, id)
  {
    if ops != [] {
      var n := |ops| - 1;
      var init, last := ops[..n], ops[n];
      KnownExactly(init, id);
      CounterCounts(init);
      forall i: nat | i < n
        ensures RegisteredSinceClose(ops, i, id) <==> RegisteredSinceClose(init, i, id) && !last.Close? {
        SinceCloseSnoc(ops, i, id);
      }
      assert RegisteredSinceClose(ops, n, id) <==> last.Register? && id == NextId(Run(init));
      if id in Run(ops).objects && !(last.Register? && id == NextId(Run(init))) {
        var i: nat :| RegisteredSinceClose(init, i, id);
        assert RegisteredSinceClose(ops, i, id);
      }
      if i: nat :| RegisteredSinceClose(ops, i, id) {
        if i < n { assert RegisteredSinceClose(init, i, id); }
      }
    }
  }

  lemma SinceCloseSnoc(ops: seq<Op>, i: nat, id: Text)
    requires ops != [] && i < |ops| - 1
    ensures RegisteredSinceClose(ops, i, id) <==>
            RegisteredSinceClose(ops[..|ops| - 1], i, id) && !ops[|ops| - 1].Close?
  {
    var init := ops[..|ops| - 1];
    assert init[..i] == ops[..i] && forall j :: 0 <= j < |init| ==> init[j] == ops[j];
  }
}
