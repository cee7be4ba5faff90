/**
 The client's side of ee/kmip: what it reads in the answers, and that a request it sends and the answer it gets
 back are about the same object with the same key.
 */
module KmipClient {
  import opened Bytes
  import opened Text
  import opened KmipMessages
  import opened KmipRequests
  import opened KmipStore
  import opened KmipServer
  import opened KmipPayloads
  import Ttlv

  // ---------------------------------------------------------------- descending into an answer

  /** The first child with this tag of a node that was found. */
  function Below(t: Option<Ttlv.Node>, tag: nat): (r: Option<Ttlv.Node>) {
    match t
    case None => None
    case Some(n) => FirstChild(n.children, tag)
  }

  ghost predicate IsText(t: Option<Ttlv.Node>, text: Text) {
    t.Some? && t.value.typ == Ttlv.TEXT_STRING && t.value.value == text
  }

  ghost predicate IsBytes(t: Option<Ttlv.Node>, bytes: seq<Byte>) {
    t.Some? && t.value.typ == Ttlv.BYTE_STRING && t.value.value == bytes
  }

  ghost predicate IsNumber(t: Option<Ttlv.Node>, typ: Byte, v: int) {
    t.Some? && t.value.typ == typ && t.value.value == PutU32(v)
  }

  /** The payload hands over this key: raw bytes of an AES key, with their length in bits. */
  ghost predicate HandsOver(payload: Ttlv.Node, id: Text, key: seq<Byte>) {
    var block := Below(Below(Some(payload), SYMMETRIC_KEY), KEY_BLOCK);
    && IsNumber(Below(Some(payload), OBJECT_TYPE), Ttlv.ENUMERATION, 2)
    && IsText(Below(Some(payload), UNIQUE_IDENTIFIER), id)
    && IsBytes(Below(Below(block, KEY_VALUE), KEY_MATERIAL), key)
    && IsNumber(Below(block, KEY_FORMAT_TYPE), Ttlv.ENUMERATION, 1)
    && IsNumber(Below(block, CRYPTOGRAPHIC_ALGORITHM), Ttlv.ENUMERATION, 3)
    && IsNumber(Below(block, CRYPTOGRAPHIC_LENGTH), Ttlv.INTEGER, 8 * |key|)
  }

  /** The texts under this tag, in order. */
  function Texts(ts: seq<Ttlv.Node>, tag: nat): (r: seq<Text>)
    ensures |r| == |ByTag(ts, tag)|
  {
    seq(|ByTag(ts, tag)|, i requires 0 <= i < |ByTag(ts, tag)| => ByTag(ts, tag)[i].value)
  }

  lemma FirstIs(ts: seq<Ttlv.Node>, i: nat, tag: nat)
    requires i < |ts| && ts[i].tag == tag && forall j :: 0 <= j < i ==> ts[j].tag != tag
    ensures FirstChild(ts, tag) == Some(ts[i])
  {
    assert IsFirst(ts, tag, ts[i]);
    FirstChildExactly(ts, tag, ts[i]);
  }

  lemma KeyBlockReads(key: seq<Byte>)
    ensures var block := Below(Some(KeyTree(key)), KEY_BLOCK);
      && IsBytes(Below(Below(block, KEY_VALUE), KEY_MATERIAL), key)
      && IsNumber(Below(block, KEY_FORMAT_TYPE), Ttlv.ENUMERATION, 1)
      && IsNumber(Below(block, CRYPTOGRAPHIC_ALGORITHM), Ttlv.ENUMERATION, 3)
      && IsNumber(Below(block, CRYPTOGRAPHIC_LENGTH), Ttlv.INTEGER, 8 * |key|)
  {
    FirstIs(KeyTree(key).children, 0, KEY_BLOCK);
    var ts := KeyTree(key).children[0].children;
    FirstIs(ts, 0, KEY_FORMAT_TYPE);
    FirstIs(ts, 1, KEY_VALUE);
    FirstIs(ts[1].children, 0, KEY_MATERIAL);
    FirstIs(ts, 2, CRYPTOGRAPHIC_ALGORITHM);
    FirstIs(ts, 3, CRYPTOGRAPHIC_LENGTH);
  }

  lemma GetReplyHandsOver(id: Text, key: seq<Byte>)
    ensures HandsOver(GetReply(id, key), id, key)
  {
    var ts := GetReply(id, key).children;
    FirstIs(ts, 0, OBJECT_TYPE);
    FirstIs(ts, 1, UNIQUE_IDENTIFIER);
    FirstIs(ts, 2, SYMMETRIC_KEY);
    KeyBlockReads(key);
  }

  lemma SmallRepliesRead(id: Text)
    ensures IsText(Below(Some(IdReply(id)), UNIQUE_IDENTIFIER), id)
    ensures IsText(Below(Some(CreateReply(id)), UNIQUE_IDENTIFIER), id)
    ensures IsNumber(Below(Some(CreateReply(id)), OBJECT_TYPE), Ttlv.ENUMERATION, 2)
  {
    FirstIs(IdReply(id).children, 0, UNIQUE_IDENTIFIER);
    FirstIs(CreateReply(id).children, 0, OBJECT_TYPE);
    FirstIs(CreateReply(id).children, 1, UNIQUE_IDENTIFIER);
  }

  lemma {:induction false} IdNodesAre(ids: seq<Text>)
    ensures |IdNodes(ids)| == |ids|
    ensures forall i :: 0 <= i < |ids| ==> IdNodes(ids)[i] == TextString(UNIQUE_IDENTIFIER, ids[i])
  {
    if ids != [] { IdNodesAre(ids[1..]); }
  }

  lemma {:induction false} AllOfOneTag(ts: seq<Ttlv.Node>, tag: nat)
    requires forall i :: 0 <= i < |ts| ==> ts[i].tag == tag
    ensures ByTag(ts, tag) == ts
  {
    if ts != [] { AllOfOneTag(ts[..|ts| - 1], tag); }
  }

  lemma LocateReplyReads(ids: seq<Text>)
    ensures Texts(LocateReply(ids).children, UNIQUE_IDENTIFIER) == ids
  {
    IdNodesAre(ids);
    AllOfOneTag(IdNodes(ids), UNIQUE_IDENTIFIER);
  }

  // ---------------------------------------------------------------- what an item of the response tells

  /** The item reports failure for this reason and carries nothing. */
  ghost predicate TellsFailure(t: Ttlv.Node, reason: int) {
    && EnumChild(t, RESULT_STATUS) == Some(1) && EnumChild(t, RESULT_REASON) == Some(reason)
    && FirstChild(t.children, RESPONSE_PAYLOAD).None?
  }

  /** The item reports success, without a reason, and carries this payload. */
  ghost predicate TellsSuccess(t: Ttlv.Node, payload: Ttlv.Node) {
    && EnumChild(t, RESULT_STATUS) == Some(0) && EnumChild(t, RESULT_REASON).None?
    && FirstChild(t.children, RESPONSE_PAYLOAD) == Some(payload)
  }

  lemma HandledTells(t: Ttlv.Node, operation: int, h: Handled)
    requires ItemReadsAs(t, ItemOf(operation, h))
    ensures h.Done? ==> TellsSuccess(t, h.payload)
    ensures h.Refused? ==> TellsFailure(t, h.reason)
  {
  }

  /** The answer to a Get, with the store as it is. */
  ghost predicate GetTells(auth: bool, s: Store, id: Text, t: Ttlv.Node) {
    if !auth then TellsFailure(t, 3)
    else if id !in s.objects || s.objects[id].status != Active then TellsFailure(t, 1)
    else exists p :: TellsSuccess(t, p) && HandsOver(p, id, s.objects[id].key)
  }

  lemma ClientReadsGet(auth: bool, s: Store, req: BatchItem, s': Store, h: Handled, id: Text, t: Ttlv.Node)
    requires Serves(auth, s, req, s', h) && req.operation == GET && NamesObject(req.payload, id)
    requires ItemReadsAs(t, ItemOf(req.operation, h))
    ensures s' == s && GetTells(auth, s, id, t)
  {
    IdentifierExactly(req.payload, id);
    HandledTells(t, req.operation, h);
    if auth && Live(s, id) { GetReplyHandsOver(id, s.objects[id].key); }
  }

  /** The answer to a Revoke or Destroy, and what has become of the object. */
  ghost predicate ChangeTells(auth: bool, s: Store, id: Text, destroy: bool, s': Store, t: Ttlv.Node) {
    if !auth then TellsFailure(t, 3) && s' == s
    else if id !in s.objects then TellsFailure(t, 1) && s' == s
    else
      && (exists p :: TellsSuccess(t, p) && IsText(Below(Some(p), UNIQUE_IDENTIFIER), id))
      && s'.n == s.n && s'.objects.Keys == s.objects.Keys
      && (forall x :: x in s.objects && x != id ==> s'.objects[x] == s.objects[x])
      && var e := s.objects[id];
         s'.objects[id] == if destroy then Entry(e.algorithm, Destroyed, e.version, [])
                           else Entry(e.algorithm, Revoked, e.version, e.key)
  }

  lemma ClientReadsChange(auth: bool, s: Store, req: BatchItem, s': Store, h: Handled, id: Text, t: Ttlv.Node)
    requires Serves(auth, s, req, s', h) && (req.operation == REVOKE || req.operation == DESTROY)
    requires NamesObject(req.payload, id) && ItemReadsAs(t, ItemOf(req.operation, h))
    ensures ChangeTells(auth, s, id, req.operation == 0x14, s', t)
  {
    IdentifierExactly(req.payload, id);
    HandledTells(t, req.operation, h);
    SmallRepliesRead(id);
  }

  /** The answer to a Locate names the selected objects and no others, each once. */
  ghost predicate LocateTells(auth: bool, s: Store, algorithm: Text, t: Ttlv.Node) {
    if !auth then TellsFailure(t, 3)
    else exists p :: TellsSuccess(t, p) && Located(s, algorithm, Texts(p.children, UNIQUE_IDENTIFIER))
  }

  lemma ClientReadsLocate(auth: bool, s: Store, req: BatchItem, s': Store, h: Handled, t: Ttlv.Node)
    requires Serves(auth, s, req, s', h) && req.operation == LOCATE && ItemReadsAs(t, ItemOf(req.operation, h))
    ensures s' == s
    ensures LocateAlgorithmOf(req.payload).Bad? ==> TellsFailure(t, LocateAlgorithmOf(req.payload).reason)
    ensures LocateAlgorithmOf(req.payload).Parsed? ==> LocateTells(auth, s, LocateAlgorithmOf(req.payload).value, t)
  {
    HandledTells(t, req.operation, h);
    if LocateAlgorithmOf(req.payload).Parsed? && auth {
      var algorithm := LocateAlgorithmOf(req.payload).value;
      var ids :| Located(s, algorithm, ids) && h == Done(LocateReply(ids));
      LocateReplyReads(ids);
    }
  }

  /** The answer to a Create names an object that is new, active, and holds 32 bytes for AES. */
  ghost predicate CreateTells(s: Store, s': Store, t: Ttlv.Node) {
    exists p, id, key ::
      && TellsSuccess(t, p) && IsText(Below(Some(p), UNIQUE_IDENTIFIER), id)
      && IsNumber(Below(Some(p), OBJECT_TYPE), Ttlv.ENUMERATION, 2)
      && !Issued(s, id) && Issued(s', id) && |key| == 32
      && s'.objects == s.objects[id := Entry(Ascii("AES"), Active, 1, key)]
  }

  lemma ClientReadsCreate(auth: bool, s: Store, req: BatchItem, s': Store, h: Handled, t: Ttlv.Node)
    requires Serves(auth, s, req, s', h) && req.operation == CREATE && ItemReadsAs(t, ItemOf(req.operation, h))
    ensures var spec := CreateSpecOf(req.payload);
      if spec.Bad? then TellsFailure(t, spec.reason) && s' == s
      else if spec.value != KeySpec(2, 3, 256) then TellsFailure(t, 7) && s' == s
      else if !auth then TellsFailure(t, 3) && s' == s
      else (TellsFailure(t, 0x100) && s' == s) || CreateTells(s, s', t)
  {
    HandledTells(t, req.operation, h);
    if h.Done? {
      var id := NextId(s);
      SmallRepliesRead(id);
      NextIsNotIssued(s);
      var key: seq<Byte> :| |key| == 32 && s' == Step(s, Register(AES, key));
      assert Issued(s', IdOf(s'.n));
      assert s'.objects == s.objects[id := Entry(Ascii("AES"), Active, 1, key)];
    }
  }

  /** Nobody without an accepted certificate changes the store or is told more than a refusal. */
  lemma NothingWithoutAuthentication(reqs: seq<BatchItem>, v: Served, i: nat)
    requires ServedInTurn(false, reqs, v) && i <= |reqs|
    ensures v.states[i] == v.states[0] && forall k :: 0 <= k < i ==> v.answers[k].Refused?
  {
    if i > 0 {
      NothingWithoutAuthentication(reqs, v, i - 1);
      assert Serves(false, v.states[i - 1], reqs[i - 1], v.states[i], v.answers[i - 1]);
    }
  }

  // ---------------------------------------------------------------- the response header

  /** The message's header gives this protocol version, the time and the number of its items. */
  ghost predicate IsHeaded(root: Ttlv.Node, major: int, minor: int, now: int, count: nat) {
    var header := FirstChild(root.children, RESPONSE_HEADER);
    && IsNumber(Below(Below(header, PROTOCOL_VERSION), PROTOCOL_VERSION_MAJOR), Ttlv.INTEGER, major)
    && IsNumber(Below(Below(header, PROTOCOL_VERSION), PROTOCOL_VERSION_MINOR), Ttlv.INTEGER, minor)
    && (var stamp := Below(header, TIME_STAMP);
        stamp.Some? && stamp.value.typ == Ttlv.DATE_TIME && stamp.value.value == PutU64(now))
    && IsNumber(Below(header, BATCH_COUNT), Ttlv.INTEGER, count)
  }

  lemma HeaderAnnounces(major: int, minor: int, now: int, items: seq<Item>)
    ensures IsHeaded(ResponseTree(major, minor, now, items), if major <= 0 then 1 else major,
                     if minor < 0 then 2 else minor, now, |items|)
  {
    var root := ResponseTree(major, minor, now, items);
    FirstIs(root.children, 0, RESPONSE_HEADER);
    var ts := root.children[0].children;
    FirstIs(ts, 0, PROTOCOL_VERSION);
    FirstIs(ts[0].children, 0, PROTOCOL_VERSION_MAJOR);
    FirstIs(ts[0].children, 1, PROTOCOL_VERSION_MINOR);
    FirstIs(ts, 1, TIME_STAMP);
    FirstIs(ts, 2, BATCH_COUNT);
  }

  /** A response announces the version the request asked for, or the nearest the source allows; 1.2 if it asked none. */
  lemma ResponseIsHeaded(frame: seq<Byte>, now: int, items: seq<Item>)
    ensures match DecodeRequest(frame)
            case Malformed => IsHeaded(Response(DecodeRequest(frame), now, items), 1, 2, now, |items|)
            case Request(major, minor, _) =>
              IsHeaded(Response(DecodeRequest(frame), now, items), if major <= 0 then 1 else major,
                       if minor < 0 then 2 else minor, now, |items|)
  {
    match DecodeRequest(frame)
    case Malformed => HeaderAnnounces(1, 2, now, items);
    case Request(major, minor, _) => HeaderAnnounces(major, minor, now, items);
  }

  // ---------------------------------------------------------------- from one frame to the next

  function CreateRequest(): (item: ClientItem) {
    ClientItem(CREATE, Some(Structure(REQUEST_PAYLOAD, [Enumeration(OBJECT_TYPE, 2)])))
  }

  function GetRequest(id: Text): (item: ClientItem) {
    ClientItem(GET, Some(Structure(REQUEST_PAYLOAD, [TextString(UNIQUE_IDENTIFIER, id)])))
  }

  function FrameOf(item: ClientItem): (frame: seq<Byte>) {
    Ttlv.Encode(ClientMessage(1, 2, 1, [item]))
  }

  predicate Fits(item: ClientItem) { FitsParser(ClientMessage(1, 2, 1, [item])) }

  /** How much room a tree takes. */
  predicate Takes(t: Ttlv.Node, size: nat, nodes: nat, height: nat) {
    Ttlv.Size(t) == size && Ttlv.Nodes(t) == nodes && Ttlv.Height(t) == height
  }

  lemma OfOne(a: Ttlv.Node)
    ensures Ttlv.SizeAll([a]) == Ttlv.Size(a) && Ttlv.NodesAll([a]) == Ttlv.Nodes(a)
    ensures Ttlv.HeightAll([a]) == Ttlv.Height(a)
  {
    assert [a][1..] == [] && Ttlv.HeightAll([a][1..]) == 0;
  }

  lemma TakesOne(tag: nat, a: Ttlv.Node, size: nat, nodes: nat, height: nat)
    requires Takes(a, size, nodes, height)
    ensures Takes(Structure(tag, [a]), 8 + size, 1 + nodes, 1 + height)
  {
    OfOne(a);
  }

  lemma TakesTwo(tag: nat, a: Ttlv.Node, b: Ttlv.Node, size: nat, nodes: nat, height: nat, size': nat, nodes': nat,
                 height': nat)
    requires Takes(a, size, nodes, height) && Takes(b, size', nodes', height')
    ensures Takes(Structure(tag, [a, b]), 8 + size + size', 1 + nodes + nodes',
                  1 + if height > height' then height else height')
  {
    OfOne(b);
    assert [a, b][1..] == [b] && Ttlv.HeightAll([a, b][1..]) == height';
  }

  /** A request with one small item is well within the parser's limits. */
  lemma OneItemFits(operation: int, payload: Ttlv.Node, size: nat)
    requires Takes(payload, size, 2, 2) && size <= 0xf_0000
    ensures Fits(ClientItem(operation, Some(payload)))
  {
    var item := ClientItem(operation, Some(payload));
    var a, b, c := Integer(PROTOCOL_VERSION_MAJOR, 1), Integer(PROTOCOL_VERSION_MINOR, 2), Integer(BATCH_COUNT, 1);
    TakesTwo(PROTOCOL_VERSION, a, b, 16, 1, 1, 16, 1, 1);
    var version := Structure(PROTOCOL_VERSION, [a, b]);
    TakesTwo(REQUEST_HEADER, version, c, 40, 3, 2, 16, 1, 1);
    var op := Enumeration(OPERATION, operation);
    TakesTwo(BATCH_ITEM, op, payload, 16, 1, 1, size, 2, 2);
    assert [op] + [payload] == [op, payload];
    assert ClientItemTrees([item]) == [ClientItemTree(item)];
    var header := ClientHeader(1, 2, 1);
    assert [header] + [ClientItemTree(item)] == [header, ClientItemTree(item)];
    TakesTwo(REQUEST_MESSAGE, header, ClientItemTree(item), 64, 5, 3, 24 + size, 4, 3);
  }

  lemma RequestsFit(id: Text)
    requires |id| <= 0xe_0000
    ensures Fits(CreateRequest()) && Fits(GetRequest(id))
  {
    TakesOne(REQUEST_PAYLOAD, Enumeration(OBJECT_TYPE, 2), 16, 1, 1);
    OneItemFits(CREATE, CreateRequest().payload.value, 24);
    var u := TextString(UNIQUE_IDENTIFIER, id);
    TakesOne(REQUEST_PAYLOAD, u, Ttlv.Size(u), 1, 1);
    OneItemFits(GET, GetRequest(id).payload.value, 8 + Ttlv.Size(u));
  }

  lemma CreateRequestOk()
    ensures ItemOk(CreateRequest())
    ensures CreateSpecOf(CreateRequest().payload.value) == Parsed(KeySpec(2, 3, 256))
  {
    var o := Enumeration(OBJECT_TYPE, 2);
    LeafFacts(o);
    var p := CreateRequest().payload.value;
    FirstIs(p.children, 0, OBJECT_TYPE);
    LeafReads(OBJECT_TYPE, Ttlv.ENUMERATION, 2);
    assert FirstChild(p.children, TEMPLATE_ATTRIBUTE).None?;
  }

  lemma GetRequestOk(id: Text)
    requires id != [] && !IsSpace(id[0]) && !IsSpace(id[|id| - 1])
    ensures ItemOk(GetRequest(id)) && NamesObject(GetRequest(id).payload.value, id)
  {
    var u := TextString(UNIQUE_IDENTIFIER, id);
    LeafFacts(u);
    var p := GetRequest(id).payload.value;
    assert p.children[0] == u;
    assert IsFirst(p.children, UNIQUE_IDENTIFIER, u);
    TrimSpaceExactly(id, id);
  }

  lemma OneItemDecodes(item: ClientItem)
    requires ItemOk(item) && Fits(item)
    ensures DecodeRequest(FrameOf(item)) == Request(1, 2, [Seen(item)])
  {
    RequestRoundTrip(1, 2, [item]);
    assert AllSeen([item]) == [Seen(item)];
  }

  /** A frame with one item is answered with one. */
  lemma ServedAlone(item: ClientItem, s: Store, s': Store, items: seq<Item>, v: Served)
    requires ItemOk(item) && Fits(item) && FrameServed(true, DecodeRequest(FrameOf(item)), s, s', items, v)
    ensures |items| == |v.answers| == 1 && items[0] == ItemOf(item.operation, v.answers[0])
    ensures Serves(true, s, Seen(item), s', v.answers[0])
  {
    OneItemDecodes(item);
    assert Serves(true, v.states[0], Seen(item), v.states[1], v.answers[0]);
    assert items[0] == ItemOf(Seen(item).operation, v.answers[0]);
  }

  /** Identifiers are text without space at its ends. */
  lemma {:induction false} DecimalEnds(n: nat)
    ensures var d := Decimal(n); 48 <= d[|d| - 1] <= 57
  {
  }

  lemma IdentifierEnds(k: nat)
    ensures var id := IdOf(k); id != [] && !IsSpace(id[0]) && !IsSpace(id[|id| - 1])
  {
    DecimalEnds(k);
    var id := IdOf(k);
    assert id[0] == Ascii("kmip-")[0] == 'k' as int;
    assert id[|id| - 1] == Decimal(k)[|Decimal(k)| - 1];
  }

  /**
   A key created over the wire is the key fetched over the wire: a client that sends Create, reads the identifier
   in the answer and sends Get for it reads the 32 bytes the store holds under a new identifier.
   */
  lemma CreateThenGet(s: Store, s1: Store, items1: seq<Item>, v1: Served, s2: Store, items2: seq<Item>, v2: Served,
                      t1: Ttlv.Node, t2: Ttlv.Node, id: Text)
    requires |id| <= 0xe_0000
    requires FrameServed(true, DecodeRequest(FrameOf(CreateRequest())), s, s1, items1, v1)
    requires |items1| == 1 && ItemReadsAs(t1, items1[0]) && EnumChild(t1, RESULT_STATUS) == Some(0)
    requires IsText(Below(FirstChild(t1.children, RESPONSE_PAYLOAD), UNIQUE_IDENTIFIER), id)
    requires FrameServed(true, DecodeRequest(FrameOf(GetRequest(id))), s1, s2, items2, v2)
    requires |items2| == 1 && ItemReadsAs(t2, items2[0])
    ensures !Issued(s, id) && id in s1.objects && |s1.objects[id].key| == 32 && s2 == s1
    ensures exists p :: TellsSuccess(t2, p) && HandsOver(p, id, s1.objects[id].key)
  {
    RequestsFit(id);
    CreateRequestOk();
    ServedAlone(CreateRequest(), s, s1, items1, v1);
    ReadsCreated(s, Seen(CreateRequest()), s1, v1.answers[0], t1, id);
    assert s1.objects[id].status == Active;
    GetRequestOk(id);
    ServedAlone(GetRequest(id), s1, s2, items2, v2);
    ClientReadsGet(true, s1, Seen(GetRequest(id)), s2, v2.answers[0], id, t2);
  }

  lemma ReadsCreated(s: Store, req: BatchItem, s1: Store, h: Handled, t: Ttlv.Node, id: Text)
    requires Serves(true, s, req, s1, h) && req.operation == CREATE
    requires CreateSpecOf(req.payload) == Parsed(KeySpec(2, 3, 256))
    requires ItemReadsAs(t, ItemOf(CREATE, h)) && EnumChild(t, RESULT_STATUS) == Some(0)
    requires IsText(Below(FirstChild(t.children, RESPONSE_PAYLOAD), UNIQUE_IDENTIFIER), id)
    ensures !Issued(s, id) && id in s1.objects && s1.objects[id].status == Active && |s1.objects[id].key| == 32
    ensures id != [] && !IsSpace(id[0]) && !IsSpace(id[|id| - 1])
  {
    ClientReadsCreate(true, s, req, s1, h, t);
    assert CreateTells(s, s1, t);
    var k :| 1 <= k <= s1.n && id == IdOf(k);
    IdentifierEnds(k);
  }
}
