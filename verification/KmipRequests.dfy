/**
 What a request frame asks for, said without the decoder: which trees are requests, with which version and items;
 and that the decoder finds exactly those. A client's own message decodes to what the client put in it.
 */
module KmipRequests {
  import opened Bytes
  import opened Ttlv
  import opened KmipMessages

  // ---------------------------------------------------------------- numbers and children

  /** The first child with this tag is a four-byte number of this type, big-endian in two's complement. */
  ghost predicate Carries(ts: seq<Node>, tag: nat, typ: Byte, v: int) {
    && -TWO_31 <= v < TWO_31
    && exists c :: IsFirst(ts, tag, c) && c.typ == typ && c.value == PutU32(v)
  }

  lemma FirstChildExactly(ts: seq<Node>, tag: nat, t: Node)
    ensures FirstChild(ts, tag) == Some(t) <==> IsFirst(ts, tag, t)
  {
    if IsFirst(ts, tag, t) && FirstChild(ts, tag).Some? { OnlyOneFirst(ts, tag, t, FirstChild(ts, tag).value); }
  }

  lemma OnlyOneFirst(ts: seq<Node>, tag: nat, t: Node, u: Node)
    requires IsFirst(ts, tag, t) && IsFirst(ts, tag, u)
    ensures t == u
  {
    var i :| 0 <= i < |ts| && ts[i] == t && t.tag == tag && forall j :: 0 <= j < i ==> ts[j].tag != tag;
    var k :| 0 <= k < |ts| && ts[k] == u && u.tag == tag && forall j :: 0 <= j < k ==> ts[j].tag != tag;
    assert !(i < k) && !(k < i);
  }

  lemma SameLowBytes(m: int, n: int)
    requires m % TWO_32 == n % TWO_32
    ensures PutU32(m) == PutU32(n)
  {
  }

  lemma SignedAgain(v: int)
    requires -TWO_31 <= v < TWO_31
    ensures AsI32(v % TWO_32) == v
  {
  }

  lemma NumberBytes(bs: seq<Byte>, v: int)
    requires |bs| == 4 && -TWO_31 <= v < TWO_31
    ensures AsI32(U32(bs)) == v <==> bs == PutU32(v)
  {
    var u := U32(bs);
    if AsI32(u) == v {
      assert PutU32(u) == bs by { PutAfterU32(bs); }
      assert u % TWO_32 == u;
      SameLowBytes(u, v);
    }
    if bs == PutU32(v) {
      assert u == v % TWO_32 by { U32AfterPut(v); }
      SignedAgain(v);
    }
  }

  lemma Int32ChildExactly(parent: Node, tag: nat, typ: Byte, v: int)
    ensures Int32Child(parent, tag, typ) == Some(v) <==> Carries(parent.children, tag, typ, v)
  {
    var first := FirstChild(parent.children, tag);
    if -TWO_31 <= v < TWO_31 {
      if first.Some? && |first.value.value| == 4 { NumberBytes(first.value.value, v); }
      if Carries(parent.children, tag, typ, v) {
        var c :| IsFirst(parent.children, tag, c) && c.typ == typ && c.value == PutU32(v);
        FirstChildExactly(parent.children, tag, c);
      }
    }
  }

  // ---------------------------------------------------------------- which children are batch items

  /** The places, in order, of the children with this tag. */
  ghost predicate Places(ts: seq<Node>, tag: nat, at: seq<nat>) {
    && (forall i :: 0 <= i < |at| ==> at[i] < |ts| && ts[at[i]].tag == tag)
    && (forall i, j :: 0 <= i < j < |at| ==> at[i] < at[j])
    && (forall k: nat :: k < |ts| && ts[k].tag == tag ==> k in at)
  }

  lemma {:induction false} ByTagIsPlaces(ts: seq<Node>, tag: nat) returns (at: seq<nat>)
    ensures Places(ts, tag, at) && |at| == |ByTag(ts, tag)|
    ensures forall i :: 0 <= i < |at| ==> ByTag(ts, tag)[i] == ts[at[i]]
  {
    if ts == [] {
      at := [];
    } else {
      var n := |ts| - 1;
      var init := ByTagIsPlaces(ts[..n], tag);
      at := if ts[n].tag == tag then init + [n] else init;
      OnePlaceMore(ts, tag, init, at);
    }
  }

  lemma OnePlaceMore(ts: seq<Node>, tag: nat, init: seq<nat>, at: seq<nat>)
    requires ts != [] && Places(ts[..|ts| - 1], tag, init)
    requires at == if ts[|ts| - 1].tag == tag then init + [|ts| - 1] else init
    ensures Places(ts, tag, at)
  {
    var n := |ts| - 1;
    forall k: nat | k < |ts| && ts[k].tag == tag ensures k in at {
      if k < n { assert ts[..n][k].tag == tag; } else { assert at[|at| - 1] == n; }
    }
  }

  /** Two lists of all the places are one list. */
  lemma {:induction false} PlacesAgree(ts: seq<Node>, tag: nat, a: seq<nat>, b: seq<nat>, i: nat)
    requires Places(ts, tag, a) && Places(ts, tag, b) && i < |a|
    ensures i < |b| && a[i] == b[i]
  {
    forall j | 0 <= j < i ensures j < |b| && a[j] == b[j] { PlacesAgree(ts, tag, a, b, j); }
    assert a[i] in b;
    var k :| 0 <= k < |b| && b[k] == a[i];
    NoneSkipped(a, b, i, k);
    assert b[i] in a;
    var l :| 0 <= l < |a| && a[l] == b[i];
    NoneSkipped(b, a, i, l);
  }

  lemma NoneSkipped(a: seq<nat>, b: seq<nat>, i: nat, k: nat)
    requires i < |a| && k < |b| && b[k] == a[i]
    requires forall m, n :: 0 <= m < n < |a| ==> a[m] < a[n]
    requires forall m, n :: 0 <= m < n < |b| ==> b[m] < b[n]
    requires forall j :: 0 <= j < i ==> j < |b| && a[j] == b[j]
    ensures i < |b| && b[i] <= a[i]
  {
  }

  lemma ByTagExactly(ts: seq<Node>, tag: nat, at: seq<nat>)
    requires Places(ts, tag, at)
    ensures |ByTag(ts, tag)| == |at| && forall i :: 0 <= i < |at| ==> ByTag(ts, tag)[i] == ts[at[i]]
  {
    var own := ByTagIsPlaces(ts, tag);
    if |at| > 0 { PlacesAgree(ts, tag, at, own, |at| - 1); }
    if |own| > 0 { PlacesAgree(ts, tag, own, at, |own| - 1); }
    forall i | 0 <= i < |at| ensures at[i] == own[i] { PlacesAgree(ts, tag, at, own, i); }
  }

  // ---------------------------------------------------------------- what a tree asks for

  /** The header announces this version and this many items. */
  ghost predicate Announces(root: Node, h: RequestHeader) {
    exists header, version ::
      && IsFirst(root.children, REQUEST_HEADER, header) && header.typ == STRUCTURE
      && IsFirst(header.children, PROTOCOL_VERSION, version) && version.typ == STRUCTURE
      && Carries(version.children, PROTOCOL_VERSION_MAJOR, INTEGER, h.major)
      && Carries(version.children, PROTOCOL_VERSION_MINOR, INTEGER, h.minor)
      && Carries(header.children, BATCH_COUNT, INTEGER, h.count)
  }

  /** The batch item is this operation with the first payload in it, or with none. */
  ghost predicate ItemAsks(t: Node, item: BatchItem) {
    && t.typ == STRUCTURE && Carries(t.children, OPERATION, ENUMERATION, item.operation)
    && if exists c :: c in t.children && c.tag == REQUEST_PAYLOAD
       then IsFirst(t.children, REQUEST_PAYLOAD, item.payload) else item.payload == ZERO_NODE
  }

  /** A request message of this version whose batch items, all of them and in order, are these. */
  ghost predicate Asks(root: Node, major: int, minor: int, items: seq<BatchItem>) {
    && root.tag == REQUEST_MESSAGE && root.typ == STRUCTURE
    && Announces(root, RequestHeader(major, minor, |items|))
    && exists at :: BatchAsks(root.children, items, at)
  }

  /** The batch items are at these places, and these are what they ask for. */
  ghost predicate BatchAsks(ts: seq<Node>, items: seq<BatchItem>, at: seq<nat>) {
    && Places(ts, BATCH_ITEM, at) && |at| == |items|
    && forall i :: 0 <= i < |items| ==> ItemAsks(ts[at[i]], items[i])
  }

  lemma DecodeItemExactly(t: Node, item: BatchItem)
    ensures DecodeItem(t) == Some(item) <==> ItemAsks(t, item)
  {
    Int32ChildExactly(t, OPERATION, ENUMERATION, item.operation);
    FirstChildExactly(t.children, REQUEST_PAYLOAD, item.payload);
    var p := FirstChild(t.children, REQUEST_PAYLOAD);
    assert p.Some? <==> exists c :: c in t.children && c.tag == REQUEST_PAYLOAD by {
      if p.Some? { assert p.value in t.children && p.value.tag == REQUEST_PAYLOAD; }
    }
  }

  lemma {:induction false} DecodeItemsExactly(ts: seq<Node>, items: seq<BatchItem>)
    requires |ts| == |items|
    ensures DecodeItems(ts) == Some(items) <==> forall i :: 0 <= i < |ts| ==> ItemAsks(ts[i], items[i])
  {
    if ts != [] {
      var n := |ts| - 1;
      DecodeItemsExactly(ts[..n], items[..n]);
      DecodeItemExactly(ts[n], items[n]);
      assert items == items[..n] + [items[n]];
      assert forall i :: 0 <= i < n ==> ts[..n][i] == ts[i] && items[..n][i] == items[i];
    }
  }

  lemma DecodeHeaderExactly(root: Node, h: RequestHeader)
    ensures DecodeHeader(root) == Some(h) <==> Announces(root, h)
  {
    if DecodeHeader(root) == Some(h) {
      var header := FirstChild(root.children, REQUEST_HEADER).value;
      var version := FirstChild(header.children, PROTOCOL_VERSION).value;
      NumbersExactly(header, version, h);
    }
    if Announces(root, h) {
      var header, version :|
        && IsFirst(root.children, REQUEST_HEADER, header) && header.typ == STRUCTURE
        && IsFirst(header.children, PROTOCOL_VERSION, version) && version.typ == STRUCTURE
        && Carries(version.children, PROTOCOL_VERSION_MAJOR, INTEGER, h.major)
        && Carries(version.children, PROTOCOL_VERSION_MINOR, INTEGER, h.minor)
        && Carries(header.children, BATCH_COUNT, INTEGER, h.count);
      FirstChildExactly(root.children, REQUEST_HEADER, header);
      FirstChildExactly(header.children, PROTOCOL_VERSION, version);
      NumbersExactly(header, version, h);
    }
  }

  lemma NumbersExactly(header: Node, version: Node, h: RequestHeader)
    ensures IntegerChild(version, PROTOCOL_VERSION_MAJOR) == Some(h.major) <==>
            Carries(version.children, PROTOCOL_VERSION_MAJOR, INTEGER, h.major)
    ensures IntegerChild(version, PROTOCOL_VERSION_MINOR) == Some(h.minor) <==>
            Carries(version.children, PROTOCOL_VERSION_MINOR, INTEGER, h.minor)
    ensures IntegerChild(header, BATCH_COUNT) == Some(h.count) <==>
            Carries(header.children, BATCH_COUNT, INTEGER, h.count)
  {
    Int32ChildExactly(version, PROTOCOL_VERSION_MAJOR, INTEGER, h.major);
    Int32ChildExactly(version, PROTOCOL_VERSION_MINOR, INTEGER, h.minor);
    Int32ChildExactly(header, BATCH_COUNT, INTEGER, h.count);
  }

  lemma BatchExactly(ts: seq<Node>, items: seq<BatchItem>, at: seq<nat>)
    requires Places(ts, BATCH_ITEM, at)
    ensures DecodeItems(ByTag(ts, BATCH_ITEM)) == Some(items) <==> BatchAsks(ts, items, at)
  {
    var batch := ByTag(ts, BATCH_ITEM);
    ByTagExactly(ts, BATCH_ITEM, at);
    if |batch| == |items| { DecodeItemsExactly(batch, items); }
  }

  lemma ItemsExactly(ts: seq<Node>, items: seq<BatchItem>)
    ensures DecodeItems(ByTag(ts, BATCH_ITEM)) == Some(items) <==> exists at :: BatchAsks(ts, items, at)
  {
    var own := ByTagIsPlaces(ts, BATCH_ITEM);
    BatchExactly(ts, items, own);
    if at :| BatchAsks(ts, items, at) { BatchExactly(ts, items, at); }
  }

  lemma DecodeTreeExactly(root: Node, major: int, minor: int, items: seq<BatchItem>)
    ensures DecodeTree(root) == Request(major, minor, items) <==> Asks(root, major, minor, items)
  {
    DecodeHeaderExactly(root, RequestHeader(major, minor, |items|));
    ItemsExactly(root.children, items);
  }

  /**
   A frame decodes to this request exactly when it is, up to padding, the encoding of a tree within the limits
   that asks for it.
   */
  lemma DecodesExactlyRequests(frame: seq<Byte>, major: int, minor: int, items: seq<BatchItem>)
    ensures DecodeRequest(frame) == Request(major, minor, items) <==>
            exists root :: WellFormed(root) && Within(root, Normalize(DEFAULT_LIMITS))
                           && EncodesUpToPadding(frame, root) && Asks(root, major, minor, items)
  {
    var parsed := ParseFrame(frame, DEFAULT_LIMITS);
    if parsed.Accepted? {
      ParseAcceptsExactlyEncodings(frame, DEFAULT_LIMITS, parsed.root);
      DecodeTreeExactly(parsed.root, major, minor, items);
    }
    if root :| WellFormed(root) && Within(root, Normalize(DEFAULT_LIMITS))
               && EncodesUpToPadding(frame, root) && Asks(root, major, minor, items) {
      ParseAcceptsExactlyEncodings(frame, DEFAULT_LIMITS, root);
      DecodeTreeExactly(root, major, minor, items);
    }
  }

  /** A batch count other than the number of batch items makes the whole frame malformed. */
  lemma WrongCountIsMalformed(frame: seq<Byte>, root: Node, h: RequestHeader)
    requires ParseFrame(frame, DEFAULT_LIMITS) == Accepted(root) && Announces(root, h)
    requires h.count != |ByTag(root.children, BATCH_ITEM)|
    ensures DecodeRequest(frame) == Malformed
  {
    DecodeHeaderExactly(root, h);
  }

  // ---------------------------------------------------------------- a client's own message

  datatype ClientItem = ClientItem(operation: int, payload: Option<Node>)

  function ClientItemTree(item: ClientItem): (t: Node) {
    Structure(BATCH_ITEM,
      [Enumeration(OPERATION, item.operation)] + (if item.payload.Some? then [item.payload.value] else []))
  }

  function ClientItemTrees(items: seq<ClientItem>): (ts: seq<Node>)
    ensures |ts| == |items|
  {
    seq(|items|, i requires 0 <= i < |items| => ClientItemTree(items[i]))
  }

  function ClientHeader(major: int, minor: int, count: int): (t: Node) {
    Structure(REQUEST_HEADER,
      [Structure(PROTOCOL_VERSION,
        [Integer(PROTOCOL_VERSION_MAJOR, major), Integer(PROTOCOL_VERSION_MINOR, minor)]),
       Integer(BATCH_COUNT, count)])
  }

  function ClientMessage(major: int, minor: int, count: int, items: seq<ClientItem>): (t: Node) {
    Structure(REQUEST_MESSAGE, [ClientHeader(major, minor, count)] + ClientItemTrees(items))
  }

  predicate IsInt32(v: int) { -TWO_31 <= v < TWO_31 }

  predicate ItemOk(item: ClientItem) {
    && IsInt32(item.operation)
    && (item.payload.Some? ==> item.payload.value.tag == REQUEST_PAYLOAD && Consistent(item.payload.value))
  }

  predicate AllItemsOk(items: seq<ClientItem>) {
    forall i :: 0 <= i < |items| ==> ItemOk(items[i])
  }

  predicate FitsParser(t: Node) {
    && Size(t) <= DEFAULT_LIMITS.maxFrameSize && Nodes(t) <= DEFAULT_LIMITS.maxFields
    && Height(t) <= DEFAULT_LIMITS.maxDepth
  }

  /** What the server is to see of an item. */
  function Seen(item: ClientItem): (r: BatchItem) {
    BatchItem(item.operation, if item.payload.Some? then item.payload.value else ZERO_NODE)
  }

  function AllSeen(items: seq<ClientItem>): (r: seq<BatchItem>)
    ensures |r| == |items|
  {
    seq(|items|, i requires 0 <= i < |items| => Seen(items[i]))
  }

  lemma NumberIsFirst(t: Node, rest: seq<Node>, v: int)
    requires IsInt32(v) && t.value == PutU32(v)
    ensures Carries([t] + rest, t.tag, t.typ, v)
  {
    assert ([t] + rest)[0] == t;
    assert IsFirst([t] + rest, t.tag, t);
  }

  lemma SecondIsFirst(a: Node, b: Node, rest: seq<Node>)
    requires a.tag != b.tag
    ensures IsFirst([a, b] + rest, b.tag, b)
  {
    var all := [a, b] + rest;
    assert all[1] == b && all[0] == a;
  }

  lemma ClientItemAsks(item: ClientItem)
    requires ItemOk(item)
    ensures ItemAsks(ClientItemTree(item), Seen(item))
  {
    var op := Enumeration(OPERATION, item.operation);
    var rest := if item.payload.Some? then [item.payload.value] else [];
    var ts := ClientItemTree(item).children;
    assert ts == [op] + rest;
    NumberIsFirst(op, rest, item.operation);
    if item.payload.Some? {
      var p := item.payload.value;
      SecondIsFirst(op, p, []);
      assert [op, p] + [] == ts;
      assert p in ts;
    }
  }

  lemma ClientHeaderAnnounces(root: Node, major: int, minor: int, count: int)
    requires IsInt32(major) && IsInt32(minor) && IsInt32(count)
    requires IsFirst(root.children, REQUEST_HEADER, ClientHeader(major, minor, count))
    ensures Announces(root, RequestHeader(major, minor, count))
  {
    var header := ClientHeader(major, minor, count);
    var a, b := Integer(PROTOCOL_VERSION_MAJOR, major), Integer(PROTOCOL_VERSION_MINOR, minor);
    var version, c := Structure(PROTOCOL_VERSION, [a, b]), Integer(BATCH_COUNT, count);
    assert header.children == [version, c] && header.children[0] == version;
    assert IsFirst(header.children, PROTOCOL_VERSION, version);
    NumberIsFirst(a, [b], major);
    assert [a] + [b] == [a, b];
    SecondIsFirst(a, b, []);
    assert [a, b] + [] == [a, b] && b.value == PutU32(minor);
    SecondIsFirst(version, c, []);
    assert [version, c] + [] == [version, c] && c.value == PutU32(count);
    assert Carries(version.children, PROTOCOL_VERSION_MINOR, INTEGER, minor);
    assert Carries(header.children, BATCH_COUNT, INTEGER, count);
  }

  lemma ClientMessageAsks(major: int, minor: int, items: seq<ClientItem>)
    requires IsInt32(major) && IsInt32(minor) && |items| < TWO_31 && AllItemsOk(items)
    ensures Asks(ClientMessage(major, minor, |items|, items), major, minor, AllSeen(items))
  {
    var root, header := ClientMessage(major, minor, |items|, items), ClientHeader(major, minor, |items|);
    assert root.children[0] == header;
    assert IsFirst(root.children, REQUEST_HEADER, header);
    ClientHeaderAnnounces(root, major, minor, |items|);
    var at := PlacesAfterHeader(header, ClientItemTrees(items), BATCH_ITEM);
    forall i | 0 <= i < |items| ensures ItemAsks(root.children[at[i]], AllSeen(items)[i]) {
      ClientItemAsks(items[i]);
    }
    assert BatchAsks(root.children, AllSeen(items), at);
  }

  lemma PlacesAfterHeader(h: Node, ts: seq<Node>, tag: nat) returns (at: seq<nat>)
    requires h.tag != tag && forall i :: 0 <= i < |ts| ==> ts[i].tag == tag
    ensures Places([h] + ts, tag, at) && |at| == |ts| && forall i :: 0 <= i < |at| ==> at[i] == i + 1
  {
    at := seq(|ts|, i => i + 1);
    forall k: nat | k < |ts| + 1 && ([h] + ts)[k].tag == tag ensures k in at { assert at[k - 1] == k; }
  }

  lemma ClientItemConsistent(item: ClientItem)
    requires ItemOk(item)
    ensures Consistent(ClientItemTree(item))
  {
    var op := Enumeration(OPERATION, item.operation);
    LeafFacts(op);
    if item.payload.Some? {
      var p := item.payload.value;
      assert AllConsistent([p]) by { assert [p][1..] == []; }
      ConsistentConcat([op], [p]);
    } else {
      assert [op] + [] == [op];
    }
  }

  lemma {:induction false} ClientItemsConsistent(items: seq<ClientItem>)
    requires AllItemsOk(items)
    ensures AllConsistent(ClientItemTrees(items))
  {
    if items != [] {
      var n := |items| - 1;
      ClientItemsConsistent(items[..n]);
      ClientItemConsistent(items[n]);
      var last := ClientItemTree(items[n]);
      assert AllConsistent([last]) by { assert [last][1..] == []; }
      ConsistentConcat(ClientItemTrees(items[..n]), [last]);
      assert ClientItemTrees(items) == ClientItemTrees(items[..n]) + [last];
    }
  }

  lemma ClientHeaderConsistent(major: int, minor: int, count: int)
    ensures Consistent(ClientHeader(major, minor, count))
  {
    var a, b := Integer(PROTOCOL_VERSION_MAJOR, major), Integer(PROTOCOL_VERSION_MINOR, minor);
    LeafFacts(a);
    LeafFacts(b);
    ConsistentConcat([a], [b]);
    assert [a] + [b] == [a, b];
    var v, c := Structure(PROTOCOL_VERSION, [a, b]), Integer(BATCH_COUNT, count);
    LeafFacts(c);
    assert AllConsistent([v]) by { assert [v][1..] == []; }
    ConsistentConcat([v], [c]);
    assert [v] + [c] == [v, c];
  }

  lemma ClientMessageConsistent(major: int, minor: int, count: int, items: seq<ClientItem>)
    requires AllItemsOk(items)
    ensures Consistent(ClientMessage(major, minor, count, items))
  {
    var h := ClientHeader(major, minor, count);
    ClientHeaderConsistent(major, minor, count);
    ClientItemsConsistent(items);
    assert AllConsistent([h]) by { assert [h][1..] == []; }
    ConsistentConcat([h], ClientItemTrees(items));
  }

  /** The server decodes from a client's frame exactly the version, operations and payloads put in it, in order. */
  lemma RequestRoundTrip(major: int, minor: int, items: seq<ClientItem>)
    requires IsInt32(major) && IsInt32(minor) && |items| < TWO_31 && AllItemsOk(items)
    requires FitsParser(ClientMessage(major, minor, |items|, items))
    ensures DecodeRequest(Encode(ClientMessage(major, minor, |items|, items))) == Request(major, minor, AllSeen(items))
  {
    var root := ClientMessage(major, minor, |items|, items);
    ClientMessageConsistent(major, minor, |items|, items);
    ConsistentParses(root, DEFAULT_LIMITS);
    ClientMessageAsks(major, minor, items);
    DecodeTreeExactly(root, major, minor, AllSeen(items));
  }

  /** And refuses it when the count in its header is another. */
  lemma MiscountedMessage(major: int, minor: int, count: int, items: seq<ClientItem>)
    requires IsInt32(major) && IsInt32(minor) && IsInt32(count) && count != |items| && AllItemsOk(items)
    requires FitsParser(ClientMessage(major, minor, count, items))
    ensures DecodeRequest(Encode(ClientMessage(major, minor, count, items))) == Malformed
  {
    var root, header := ClientMessage(major, minor, count, items), ClientHeader(major, minor, count);
    ClientMessageConsistent(major, minor, count, items);
    ConsistentParses(root, DEFAULT_LIMITS);
    assert root.children[0] == header;
    assert IsFirst(root.children, REQUEST_HEADER, header);
    ClientHeaderAnnounces(root, major, minor, count);
    ByTagAfterHeader(header, ClientItemTrees(items), BATCH_ITEM);
    WrongCountIsMalformed(Encode(root), root, RequestHeader(major, minor, count));
  }
}
