/**
 KMIP request and response messages of ee/kmip: what DecodeRequestMessage accepts, what
 encodeResponse writes, and the proof that a response reads back item by item.
 */
module KmipMessages {
  import opened Bytes
  import opened Text
  import opened Ttlv
  import TtlvParser

  datatype Option<T> = None | Some(value: T)

  const ATTRIBUTE := 0x420008
  const ATTRIBUTE_NAME := 0x42000a
  const ATTRIBUTE_VALUE := 0x42000b
  const BATCH_COUNT := 0x42000d
  const BATCH_ITEM := 0x42000f
  const CRYPTOGRAPHIC_ALGORITHM := 0x420028
  const CRYPTOGRAPHIC_LENGTH := 0x42002a
  const KEY_BLOCK := 0x420040
  const KEY_FORMAT_TYPE := 0x420042
  const KEY_MATERIAL := 0x420043
  const KEY_VALUE := 0x420045
  const OBJECT_TYPE := 0x420057
  const OPERATION := 0x42005c
  const PROTOCOL_VERSION := 0x420069
  const PROTOCOL_VERSION_MAJOR := 0x42006a
  const PROTOCOL_VERSION_MINOR := 0x42006b
  const REQUEST_HEADER := 0x420077
  const REQUEST_MESSAGE := 0x420078
  const REQUEST_PAYLOAD := 0x420079
  const RESPONSE_HEADER := 0x42007a
  const RESPONSE_MESSAGE := 0x42007b
  const RESPONSE_PAYLOAD := 0x42007c
  const RESULT_MESSAGE := 0x42007d
  const RESULT_REASON := 0x42007e
  const RESULT_STATUS := 0x42007f
  const SYMMETRIC_KEY := 0x42008f
  const TEMPLATE_ATTRIBUTE := 0x420091
  const TIME_STAMP := 0x420092
  const UNIQUE_IDENTIFIER := 0x420094

  const STATUS_SUCCESS := 0
  const STATUS_FAILED := 1

  // ---------------------------------------------------------------- reading trees

  /** The first child with this tag. */
  function FirstChild(ts: seq<Node>, tag: nat): (r: Option<Node>)
    ensures r.Some? ==> IsFirst(ts, tag, r.value)
    ensures r.None? ==> forall t :: t in ts ==> t.tag != tag
  {
    if ts == [] then None
    else if ts[0].tag == tag then Some(ts[0])
    else
      var r := FirstChild(ts[1..], tag);
      if r.Some? then FirstAfter(ts, tag, r.value); r else r
  }

  /** The node has this tag, and no child before it does. */
  ghost predicate IsFirst(ts: seq<Node>, tag: nat, t: Node) {
    exists i :: 0 <= i < |ts| && ts[i] == t && t.tag == tag && forall j :: 0 <= j < i ==> ts[j].tag != tag
  }

  lemma FirstAfter(ts: seq<Node>, tag: nat, t: Node)
    requires ts != [] && ts[0].tag != tag && IsFirst(ts[1..], tag, t)
    ensures IsFirst(ts, tag, t)
  {
    var rest := ts[1..];
    var i :| 0 <= i < |rest| && rest[i] == t && t.tag == tag && forall j :: 0 <= j < i ==> rest[j].tag != tag;
    assert ts[i + 1] == t;
    forall j | 0 <= j < i + 1 ensures ts[j].tag != tag {
      if j > 0 { assert ts[j] == rest[j - 1]; }
    }
  }

  /** All children with this tag, in order. */
  function ByTag(ts: seq<Node>, tag: nat): (r: seq<Node>)
    ensures |r| <= |ts|
  {
    if ts == [] then []
    else
      var last := ts[|ts| - 1];
      ByTag(ts[..|ts| - 1], tag) + (if last.tag == tag then [last] else [])
  }

  method ChildrenByTag(t: Node, tag: nat) returns (out: seq<Node>)
    ensures out == ByTag(t.children, tag)
  {
    out := [];
    for i := 0 to |t.children|
      invariant out == ByTag(t.children[..i], tag)
    {
      assert t.children[..i + 1][..i] == t.children[..i];
      if t.children[i].tag == tag { out := out + [t.children[i]]; }
    }
    assert t.children[..|t.children|] == t.children;
  }

  /** A child of this tag and type holding four bytes, read as an int32. */
  function Int32Child(parent: Node, tag: nat, typ: Byte): (r: Option<int>)
    ensures r.Some? ==> -TWO_31 <= r.value < TWO_31
  {
    match FirstChild(parent.children, tag)
    case None => None
    case Some(c) => if c.typ == typ && |c.value| == 4 then Some(AsI32(U32(c.value))) else None
  }

  function IntegerChild(parent: Node, tag: nat): (r: Option<int>) {
    Int32Child(parent, tag, INTEGER)
  }

  function EnumChild(parent: Node, tag: nat): (r: Option<int>) {
    Int32Child(parent, tag, ENUMERATION)
  }

  // ---------------------------------------------------------------- requests

  /** The zero TTLV value, which stands for an absent payload. */
  const ZERO_NODE := Node(0, 0, 0, [], [])

  datatype BatchItem = BatchItem(operation: int, payload: Node)

  datatype Decoded = Request(major: int, minor: int, items: seq<BatchItem>) | Malformed

  function DecodeItem(t: Node): (r: Option<BatchItem>) {
    if t.typ != STRUCTURE then None
    else
      match EnumChild(t, OPERATION)
      case None => None
      case Some(op) =>
        match FirstChild(t.children, REQUEST_PAYLOAD)
        case None => Some(BatchItem(op, ZERO_NODE))
        case Some(p) => Some(BatchItem(op, p))
  }

  function DecodeItems(ts: seq<Node>): (r: Option<seq<BatchItem>>)
    ensures r.Some? ==> |r.value| == |ts|
  {
    if ts == [] then Some([])
    else
      match (DecodeItems(ts[..|ts| - 1]), DecodeItem(ts[|ts| - 1]))
      case (Some(items), Some(item)) => Some(items + [item])
      case _ => None
  }

  datatype RequestHeader = RequestHeader(major: int, minor: int, count: int)

  function DecodeHeader(root: Node): (r: Option<RequestHeader>) {
    match FirstChild(root.children, REQUEST_HEADER)
    case None => None
    case Some(header) =>
      if header.typ != STRUCTURE then None
      else
        match FirstChild(header.children, PROTOCOL_VERSION)
        case None => None
        case Some(version) =>
          if version.typ != STRUCTURE then None
          else
            match (IntegerChild(version, PROTOCOL_VERSION_MAJOR),
                   IntegerChild(version, PROTOCOL_VERSION_MINOR),
                   IntegerChild(header, BATCH_COUNT))
            case (Some(major), Some(minor), Some(count)) => Some(RequestHeader(major, minor, count))
            case _ => None
  }

  function DecodeTree(root: Node): (r: Decoded) {
    if root.tag != REQUEST_MESSAGE || root.typ != STRUCTURE then Malformed
    else
      match (DecodeHeader(root), DecodeItems(ByTag(root.children, BATCH_ITEM)))
      case (Some(h), Some(items)) => if h.count != |items| then Malformed else Request(h.major, h.minor, items)
      case _ => Malformed
  }

  /** What a frame asks for. */
  function DecodeRequest(frame: seq<Byte>): (r: Decoded) {
    match ParseFrame(frame, DEFAULT_LIMITS)
    case Rejected(_) => Malformed
    case Accepted(root) => DecodeTree(root)
  }

  lemma {:induction false} DecodeItemsPrefix(ts: seq<Node>, n: nat)
    requires n <= |ts|
    ensures DecodeItems(ts[..n]).None? ==> DecodeItems(ts).None?
  {
    if n == |ts| {
      assert ts[..n] == ts;
    } else {
      var init := ts[..|ts| - 1];
      assert init[..n] == ts[..n];
      DecodeItemsPrefix(init, n);
    }
  }

  method DecodeRequestMessage(frame: seq<Byte>) returns (r: Decoded)
    ensures r == DecodeRequest(frame)
  {
    var parsed := TtlvParser.ParseWithLimits(frame, DEFAULT_LIMITS);
    if parsed.Rejected? { return Malformed; }
    var root := parsed.root;
    if root.tag != REQUEST_MESSAGE || root.typ != STRUCTURE { return Malformed; }
    var header := DecodeHeader(root);
    if header.None? { return Malformed; }
    var batch := ChildrenByTag(root, BATCH_ITEM);
    var items := DecodeBatch(batch);
    if items.None? || header.value.count != |items.value| { return Malformed; }
    return Request(header.value.major, header.value.minor, items.value);
  }

  /** DecodeRequestMessage's loop over the batch items, which stops at the first bad one. */
  method DecodeBatch(batch: seq<Node>) returns (r: Option<seq<BatchItem>>)
    ensures r == DecodeItems(batch)
  {
    var items := [];
    for i := 0 to |batch|
      invariant DecodeItems(batch[..i]) == Some(items)
    {
      assert batch[..i + 1][..i] == batch[..i];
      var item := DecodeItem(batch[i]);
      if item.None? {
        DecodeItemsPrefix(batch, i + 1);
        return None;
      }
      items := items + [item.value];
    }
    assert batch[..|batch|] == batch;
    return Some(items);
  }

  // ---------------------------------------------------------------- building trees and bytes

  function Structure(tag: nat, children: seq<Node>): (t: Node) {
    Node(tag, STRUCTURE, SizeAll(children), [], children)
  }

  function Leaf(tag: nat, typ: Byte, value: seq<Byte>): (t: Node) {
    Node(tag, typ, |value|, value, [])
  }

  function Integer(tag: nat, v: int): (t: Node) { Leaf(tag, INTEGER, PutU32(v)) }

  function Enumeration(tag: nat, v: int): (t: Node) { Leaf(tag, ENUMERATION, PutU32(v)) }

  function DateTime(tag: nat, v: int): (t: Node) { Leaf(tag, DATE_TIME, PutU64(v)) }

  function TextString(tag: nat, v: Text): (t: Node) { Leaf(tag, TEXT_STRING, v) }

  function ByteString(tag: nat, v: seq<Byte>): (t: Node) { Leaf(tag, BYTE_STRING, v) }

  /** A tree that is well formed but for the 32-bit bound on its lengths. */
  predicate Consistent(t: Node)
    decreases t, 1
  {
    && t.tag < TWO_24
    && if t.typ == STRUCTURE then
         t.value == [] && t.length == SizeAll(t.children) && AllConsistent(t.children)
       else
         t.children == [] && t.length == |t.value| && PrimitiveLength(t.typ, t.length)
  }

  predicate AllConsistent(ts: seq<Node>)
    decreases ts, 0
  {
    ts == [] || (Consistent(ts[0]) && AllConsistent(ts[1..]))
  }

  /** The root's length bounds every length below it. */
  lemma {:induction false} ConsistentIsWellFormed(t: Node)
    requires Consistent(t) && t.length < TWO_32
    ensures WellFormed(t)
    decreases t, 1
  {
    if t.typ == STRUCTURE { AllConsistentIsWellFormed(t.children); }
  }

  lemma {:induction false} AllConsistentIsWellFormed(ts: seq<Node>)
    requires AllConsistent(ts) && SizeAll(ts) < TWO_32
    ensures AllWellFormed(ts)
    decreases ts, 0
  {
    if ts != [] {
      ConsistentIsWellFormed(ts[0]);
      AllConsistentIsWellFormed(ts[1..]);
    }
  }

  /** encodeStructure. */
  function EncodeStructure(tag: nat, parts: seq<seq<Byte>>): (bs: seq<Byte>) {
    EncodeItem(tag, STRUCTURE, Concat(parts))
  }

  function Encodings(ts: seq<Node>): (parts: seq<seq<Byte>>) {
    if ts == [] then [] else [Encode(ts[0])] + Encodings(ts[1..])
  }

  lemma {:induction false} ConcatEncodings(ts: seq<Node>)
    ensures Concat(Encodings(ts)) == EncodeAll(ts)
  {
    if ts != [] {
      ConcatEncodings(ts[1..]);
      assert Encodings(ts)[1..] == Encodings(ts[1..]);
    }
  }

  /** Encoding a structure is joining the encodings of its children. */
  lemma StructureBytes(tag: nat, ts: seq<Node>)
    ensures EncodeStructure(tag, Encodings(ts)) == Encode(Structure(tag, ts))
  {
    ConcatEncodings(ts);
  }

  // ---------------------------------------------------------------- responses

  /** wireResponseItem, with the payload as the tree whose encoding it holds. */
  datatype Item = Item(operation: int, status: int, reason: int, message: Text, payload: Option<Node>)

  /** The version the response announces. */
  function Major(major: int): (r: int) { if major <= 0 then 1 else major }

  function Minor(minor: int): (r: int) { if minor < 0 then 2 else minor }

  function OperationPart(item: Item): (ts: seq<Node>) {
    if item.operation != 0 then [Enumeration(OPERATION, item.operation)] else []
  }

  function FailurePart(item: Item): (ts: seq<Node>) {
    if item.status != STATUS_SUCCESS then
      [Enumeration(RESULT_REASON, item.reason), TextString(RESULT_MESSAGE, item.message)]
    else []
  }

  function PayloadPart(item: Item): (ts: seq<Node>) {
    if item.payload.Some? then [item.payload.value] else []
  }

  function BatchItemTree(item: Item): (t: Node) {
    Structure(BATCH_ITEM,
      OperationPart(item) + [Enumeration(RESULT_STATUS, item.status)] + FailurePart(item) + PayloadPart(item))
  }

  function HeaderTree(major: int, minor: int, now: int, count: int): (t: Node) {
    Structure(RESPONSE_HEADER,
      [Structure(PROTOCOL_VERSION,
        [Integer(PROTOCOL_VERSION_MAJOR, Major(major)), Integer(PROTOCOL_VERSION_MINOR, Minor(minor))]),
       DateTime(TIME_STAMP, now),
       Integer(BATCH_COUNT, count)])
  }

  function BatchItemTrees(items: seq<Item>): (ts: seq<Node>) {
    seq(|items|, i requires 0 <= i < |items| => BatchItemTree(items[i]))
  }

  /** The message encodeResponse writes; the clock's reading is an input. */
  function ResponseTree(major: int, minor: int, now: int, items: seq<Item>): (t: Node) {
    Structure(RESPONSE_MESSAGE, [HeaderTree(major, minor, now, |items|)] + BatchItemTrees(items))
  }

  /** encodeResponseBatchItem: the encoded children are collected one by one, then joined. */
  method EncodeBatchItem(item: Item) returns (bs: seq<Byte>)
    ensures bs == Encode(BatchItemTree(item))
  {
    var parts: seq<seq<Byte>> := [];
    ghost var nodes: seq<Node> := [];
    if item.operation != 0 {
      parts, nodes := AppendEncoded(parts, nodes, Enumeration(OPERATION, item.operation));
    }
    assert nodes == OperationPart(item);
    parts, nodes := AppendEncoded(parts, nodes, Enumeration(RESULT_STATUS, item.status));
    ghost var statusNodes := nodes;
    if item.status != STATUS_SUCCESS {
      parts, nodes := AppendEncoded(parts, nodes, Enumeration(RESULT_REASON, item.reason));
      parts, nodes := AppendEncoded(parts, nodes, TextString(RESULT_MESSAGE, item.message));
    }
    assert nodes == statusNodes + FailurePart(item);
    ghost var failureNodes := nodes;
    if item.payload.Some? {
      parts, nodes := AppendEncoded(parts, nodes, item.payload.value);
    }
    assert nodes == failureNodes + PayloadPart(item);
    StructureBytes(BATCH_ITEM, nodes);
    bs := EncodeStructure(BATCH_ITEM, parts);
  }

  /** children = append(children, the encoding of t). */
  method AppendEncoded(parts: seq<seq<Byte>>, ghost nodes: seq<Node>, t: Node)
    returns (parts': seq<seq<Byte>>, ghost nodes': seq<Node>)
    requires parts == Encodings(nodes)
    ensures nodes' == nodes + [t] && parts' == Encodings(nodes')
  {
    parts' := parts + [Encode(t)];
    nodes' := nodes + [t];
    EncodingsSnoc(nodes, t);
  }

  /** encodeResponse. */
  method EncodeResponse(major: int, minor: int, now: int, items: seq<Item>) returns (bs: seq<Byte>)
    ensures bs == Encode(ResponseTree(major, minor, now, items))
  {
    var header := HeaderTree(major, minor, now, |items|);
    var parts := [Encode(header)];
    for i := 0 to |items|
      invariant parts == Encodings([header] + BatchItemTrees(items)[..i])
    {
      var part := EncodeBatchItem(items[i]);
      EncodingsSnoc([header] + BatchItemTrees(items)[..i], BatchItemTree(items[i]));
      parts := parts + [part];
      assert [header] + BatchItemTrees(items)[..i] + [BatchItemTree(items[i])]
        == [header] + BatchItemTrees(items)[..i + 1];
    }
    assert BatchItemTrees(items)[..|items|] == BatchItemTrees(items);
    StructureBytes(RESPONSE_MESSAGE, [header] + BatchItemTrees(items));
    bs := EncodeStructure(RESPONSE_MESSAGE, parts);
  }

  lemma {:induction false} EncodingsSnoc(ts: seq<Node>, t: Node)
    ensures Encodings(ts + [t]) == Encodings(ts) + [Encode(t)]
  {
    if ts == [] {
    } else {
      EncodingsSnoc(ts[1..], t);
      assert (ts + [t])[1..] == ts[1..] + [t];
    }
  }

  // ---------------------------------------------------------------- responses read back

  /** An item the server can produce: 32-bit codes, and a payload tree of the depth it builds. */
  predicate Sendable(item: Item) {
    && -TWO_31 <= item.operation < TWO_31
    && -TWO_31 <= item.status < TWO_31
    && -TWO_31 <= item.reason < TWO_31
    && (item.payload.Some? ==>
          var p := item.payload.value;
          p.tag == RESPONSE_PAYLOAD && Consistent(p) && Height(p) <= 5)
  }

  predicate AllSendable(items: seq<Item>) {
    forall i :: 0 <= i < |items| ==> Sendable(items[i])
  }

  /** A batch item, read with the client's own lookups, says exactly what the item says. */
  ghost predicate ItemReadsAs(t: Node, item: Item) {
    && t.tag == BATCH_ITEM && t.typ == STRUCTURE
    && EnumChild(t, OPERATION) == (if item.operation == 0 then None else Some(item.operation))
    && EnumChild(t, RESULT_STATUS) == Some(item.status)
    && EnumChild(t, RESULT_REASON) == (if item.status == STATUS_SUCCESS then None else Some(item.reason))
    && FirstChild(t.children, RESULT_MESSAGE) ==
       (if item.status == STATUS_SUCCESS then None else Some(TextString(RESULT_MESSAGE, item.message)))
    && FirstChild(t.children, RESPONSE_PAYLOAD) == item.payload
  }

  /** A response message with these items, in this order, under a matching batch count. */
  ghost predicate ReadsAs(root: Node, items: seq<Item>) {
    && root.tag == RESPONSE_MESSAGE && root.typ == STRUCTURE
    && (var header := FirstChild(root.children, RESPONSE_HEADER);
        header.Some? && IntegerChild(header.value, BATCH_COUNT) == Some(|items|))
    && (var batch := ByTag(root.children, BATCH_ITEM);
        |batch| == |items| && forall i :: 0 <= i < |items| ==> ItemReadsAs(batch[i], items[i]))
  }

  lemma {:induction false} FirstChildConcat(a: seq<Node>, b: seq<Node>, tag: nat)
    ensures FirstChild(a + b, tag) ==
            if FirstChild(a, tag).Some? then FirstChild(a, tag) else FirstChild(b, tag)
  {
    if a == [] {
      assert a + b == b;
    } else {
      FirstChildConcat(a[1..], b, tag);
      assert (a + b)[1..] == a[1..] + b;
    }
  }

  lemma LeafReads(tag: nat, typ: Byte, v: int)
    requires -TWO_31 <= v < TWO_31
    ensures AsI32(U32(Leaf(tag, typ, PutU32(v)).value)) == v
  {
    U32AfterPut(v);
  }

  lemma ItemChild(item: Item, tag: nat)
    requires tag == OPERATION || tag == RESULT_STATUS || tag == RESULT_REASON || tag == RESULT_MESSAGE
          || tag == RESPONSE_PAYLOAD
    requires Sendable(item)
    ensures FirstChild(BatchItemTree(item).children, tag) ==
      if tag == OPERATION then FirstChild(OperationPart(item), tag)
      else if tag == RESULT_STATUS then Some(Enumeration(RESULT_STATUS, item.status))
      else if tag == RESPONSE_PAYLOAD then item.payload
      else FirstChild(FailurePart(item), tag)
  {
    var a, b := OperationPart(item), [Enumeration(RESULT_STATUS, item.status)];
    var c, d := FailurePart(item), PayloadPart(item);
    FirstChildConcat(a + b + c, d, tag);
    FirstChildConcat(a + b, c, tag);
    FirstChildConcat(a, b, tag);
    FailureChild(item, tag);
  }

  lemma FailureChild(item: Item, tag: nat)
    ensures FirstChild(FailurePart(item), tag) ==
      if item.status == STATUS_SUCCESS then None
      else if tag == RESULT_REASON then Some(Enumeration(RESULT_REASON, item.reason))
      else if tag == RESULT_MESSAGE then Some(TextString(RESULT_MESSAGE, item.message))
      else None
  {
    if item.status != STATUS_SUCCESS {
      assert FailurePart(item)[1..] == [TextString(RESULT_MESSAGE, item.message)];
    }
  }

  lemma ItemTreeReads(item: Item)
    requires Sendable(item)
    ensures ItemReadsAs(BatchItemTree(item), item)
  {
    ItemChild(item, OPERATION);
    ItemChild(item, RESULT_STATUS);
    ItemChild(item, RESULT_REASON);
    ItemChild(item, RESULT_MESSAGE);
    ItemChild(item, RESPONSE_PAYLOAD);
    FailureChild(item, RESULT_REASON);
    FailureChild(item, RESULT_MESSAGE);
    LeafReads(OPERATION, ENUMERATION, item.operation);
    LeafReads(RESULT_STATUS, ENUMERATION, item.status);
    LeafReads(RESULT_REASON, ENUMERATION, item.reason);
  }

  lemma {:induction false} ByTagAfterHeader(h: Node, ts: seq<Node>, tag: nat)
    requires h.tag != tag
    requires forall i :: 0 <= i < |ts| ==> ts[i].tag == tag
    ensures ByTag([h] + ts, tag) == ts
  {
    var all := [h] + ts;
    if ts == [] {
      assert all[..|all| - 1] == [];
    } else {
      var init := ts[..|ts| - 1];
      assert all[..|all| - 1] == [h] + init;
      ByTagAfterHeader(h, init, tag);
    }
  }

  lemma HeaderReads(major: int, minor: int, now: int, count: nat)
    requires count < TWO_31
    ensures IntegerChild(HeaderTree(major, minor, now, count), BATCH_COUNT) == Some(count)
  {
    var ts := HeaderTree(major, minor, now, count).children;
    assert ts[1..][1..] == [Integer(BATCH_COUNT, count)];
    assert FirstChild(ts[1..], BATCH_COUNT) == FirstChild(ts[1..][1..], BATCH_COUNT);
    LeafReads(BATCH_COUNT, INTEGER, count);
  }

  lemma ResponseTreeReads(major: int, minor: int, now: int, items: seq<Item>)
    requires AllSendable(items) && |items| < TWO_31
    ensures ReadsAs(ResponseTree(major, minor, now, items), items)
  {
    var header, batch := HeaderTree(major, minor, now, |items|), BatchItemTrees(items);
    HeaderReads(major, minor, now, |items|);
    ByTagAfterHeader(header, batch, BATCH_ITEM);
    forall i | 0 <= i < |items| ensures ItemReadsAs(batch[i], items[i]) { ItemTreeReads(items[i]); }
  }

  lemma {:induction false} ConsistentConcat(a: seq<Node>, b: seq<Node>)
    ensures AllConsistent(a + b) <==> AllConsistent(a) && AllConsistent(b)
    ensures HeightAll(a + b) == if HeightAll(a) > HeightAll(b) then HeightAll(a) else HeightAll(b)
  {
    if a == [] {
      assert a + b == b;
    } else {
      ConsistentConcat(a[1..], b);
      assert (a + b)[1..] == a[1..] + b;
    }
  }

  lemma LeafFacts(t: Node)
    requires t.children == [] && t.tag < TWO_24 && t.typ != STRUCTURE
    requires t.length == |t.value| && PrimitiveLength(t.typ, t.length)
    ensures Consistent(t) && Height(t) == 1
    ensures AllConsistent([t]) && HeightAll([t]) == 1
  {
    assert Consistent(t) && Height(t) == 1;
    assert AllConsistent([]) && HeightAll([]) == 0;
    assert [t][1..] == [];
  }

  lemma ItemTreeFacts(item: Item)
    requires Sendable(item)
    ensures Consistent(BatchItemTree(item)) && Height(BatchItemTree(item)) <= 6
  {
    var a, b := OperationPart(item), [Enumeration(RESULT_STATUS, item.status)];
    var c, d := FailurePart(item), PayloadPart(item);
    LeafFacts(Enumeration(OPERATION, item.operation));
    LeafFacts(b[0]);
    FailureFacts(item);
    assert AllConsistent(d) && HeightAll(d) <= 5;
    ConsistentConcat(a, b);
    ConsistentConcat(a + b, c);
    ConsistentConcat(a + b + c, d);
  }

  lemma FailureFacts(item: Item)
    ensures AllConsistent(FailurePart(item)) && HeightAll(FailurePart(item)) <= 1
  {
    var r, m := Enumeration(RESULT_REASON, item.reason), TextString(RESULT_MESSAGE, item.message);
    LeafFacts(r);
    LeafFacts(m);
    ConsistentConcat([r], [m]);
    assert [r] + [m] == [r, m];
  }

  lemma HeaderFacts(major: int, minor: int, now: int, count: int)
    ensures Consistent(HeaderTree(major, minor, now, count)) && Height(HeaderTree(major, minor, now, count)) == 3
  {
    var a, b := Integer(PROTOCOL_VERSION_MAJOR, Major(major)), Integer(PROTOCOL_VERSION_MINOR, Minor(minor));
    LeafFacts(a);
    LeafFacts(b);
    ConsistentConcat([a], [b]);
    assert [a] + [b] == [a, b];
    var v := Structure(PROTOCOL_VERSION, [a, b]);
    var d, c := DateTime(TIME_STAMP, now), Integer(BATCH_COUNT, count);
    LeafFacts(d);
    LeafFacts(c);
    ConsistentConcat([v], [d]);
    ConsistentConcat([v, d], [c]);
    assert [v] + [d] == [v, d] && [v, d] + [c] == [v, d, c];
  }

  lemma {:induction false} ItemTreesFacts(items: seq<Item>)
    requires AllSendable(items)
    ensures AllConsistent(BatchItemTrees(items)) && HeightAll(BatchItemTrees(items)) <= 6
  {
    if items != [] {
      var init, last := items[..|items| - 1], items[|items| - 1];
      ItemTreesFacts(init);
      ItemTreeFacts(last);
      assert BatchItemTrees(items) == BatchItemTrees(init) + [BatchItemTree(last)];
      ConsistentConcat(BatchItemTrees(init), [BatchItemTree(last)]);
    }
  }

  lemma ResponseTreeFacts(major: int, minor: int, now: int, items: seq<Item>)
    requires AllSendable(items)
    ensures var t := ResponseTree(major, minor, now, items); Consistent(t) && Height(t) <= 7
  {
    var h := HeaderTree(major, minor, now, |items|);
    HeaderFacts(major, minor, now, |items|);
    ItemTreesFacts(items);
    ConsistentConcat([h], BatchItemTrees(items));
  }

  /**
   A response within the reader's size and field limits, and at least seven levels, decodes to a
   message whose batch count is its number of items and whose items are the ones encoded, in order.
   */
  lemma ResponseDecodes(major: int, minor: int, now: int, items: seq<Item>, limits: Limits)
    requires AllSendable(items) && |items| < TWO_31
    requires Size(ResponseTree(major, minor, now, items)) <= Normalize(limits).maxFrameSize < TWO_32
    requires Nodes(ResponseTree(major, minor, now, items)) <= Normalize(limits).maxFields
    requires 7 <= Normalize(limits).maxDepth
    ensures ParseFrame(Encode(ResponseTree(major, minor, now, items)), limits) ==
            Accepted(ResponseTree(major, minor, now, items))
    ensures ReadsAs(ResponseTree(major, minor, now, items), items)
  {
    ResponseTreeFacts(major, minor, now, items);
    ConsistentParses(ResponseTree(major, minor, now, items), limits);
    ResponseTreeReads(major, minor, now, items);
  }

  lemma ConsistentParses(t: Node, limits: Limits)
    requires Consistent(t) && Height(t) <= Normalize(limits).maxDepth
    requires Size(t) <= Normalize(limits).maxFrameSize < TWO_32 && Nodes(t) <= Normalize(limits).maxFields
    ensures ParseFrame(Encode(t), limits) == Accepted(t)
  {
    WithinBelow32Bits(t, Normalize(limits));
    ConsistentIsWellFormed(t);
    ParseAfterEncode(t, limits);
  }
}
