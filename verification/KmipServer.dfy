/**
 HandleFrame of ee/kmip/wire.go: one request frame in, one response frame out, each batch item
 served against the object store in turn.
 */
module KmipServer {
  import opened Bytes
  import opened Text
  import opened KmipMessages
  import opened KmipStore
  import Ttlv

  const CREATE := 0x01
  const LOCATE := 0x08
  const GET := 0x0a
  const REVOKE := 0x13
  const DESTROY := 0x14

  const OBJECT_TYPE_SYMMETRIC_KEY := 2
  const ALGORITHM_AES := 3
  const KEY_FORMAT_RAW := 1

  const REASON_ITEM_NOT_FOUND := 0x01
  const REASON_AUTH_FAILED := 0x03
  const REASON_INVALID_MESSAGE := 0x04
  const REASON_UNSUPPORTED := 0x05
  const REASON_INVALID_FIELD := 0x07
  const REASON_GENERAL_FAILURE := 0x100

  const AES: Text := Ascii("AES")

  // ---------------------------------------------------------------- payloads

  datatype Payload<T> = Parsed(value: T) | Bad(reason: int)

  datatype KeySpec = KeySpec(objectType: int, algorithm: int, length: nat)

  function NormalizedByte(b: Byte): (r: Byte) {
    if b == 0x20 || b == 0x2e || b == 0x2d then 0x5f
    else if 0x41 <= b <= 0x5a then b + 0x20
    else b
  }

  /** normalizedAttributeName on ASCII names. */
  function NormalizedName(t: Text): (r: Text) {
    seq(|t|, i requires 0 <= i < |t| => NormalizedByte(t[i]))
  }

  /** The name and value of an attribute that has both. */
  function AttributeOf(t: Ttlv.Node): (r: Option<(Text, Ttlv.Node)>) {
    if t.tag != ATTRIBUTE || t.typ != Ttlv.STRUCTURE then None
    else
      match (FirstChild(t.children, ATTRIBUTE_NAME), FirstChild(t.children, ATTRIBUTE_VALUE))
      case (Some(name), Some(value)) =>
        if name.typ != Ttlv.TEXT_STRING then None else Some((NormalizedName(name.value), value))
      case _ => None
  }

  function TemplateAttributes(payload: Ttlv.Node): (ts: seq<Ttlv.Node>) {
    match FirstChild(payload.children, TEMPLATE_ATTRIBUTE)
    case Some(t) => if t.typ == Ttlv.STRUCTURE then t.children else []
    case None => []
  }

  function WithAttribute(spec: KeySpec, attr: Ttlv.Node): (r: KeySpec) {
    match AttributeOf(attr)
    case None => spec
    case Some((name, value)) =>
      if name == Ascii("cryptographic_algorithm") && value.typ == Ttlv.ENUMERATION && |value.value| == 4 then
        spec.(algorithm := AsI32(U32(value.value)))
      else if name == Ascii("cryptographic_length") && value.typ == Ttlv.INTEGER && |value.value| == 4 then
        spec.(length := U32(value.value))
      else spec
  }

  /** Attributes apply in order, so the last of a name wins. */
  function WithAttributes(spec: KeySpec, attrs: seq<Ttlv.Node>): (r: KeySpec) {
    if attrs == [] then spec
    else WithAttribute(WithAttributes(spec, attrs[..|attrs| - 1]), attrs[|attrs| - 1])
  }

  predicate IsPayload(t: Ttlv.Node) { t.tag == REQUEST_PAYLOAD && t.typ == Ttlv.STRUCTURE }

  function CreateSpecOf(payload: Ttlv.Node): (r: Payload<KeySpec>)
    ensures r.Bad? ==> r.reason in {REASON_INVALID_MESSAGE, REASON_INVALID_FIELD}
  {
    if !IsPayload(payload) then Bad(REASON_INVALID_MESSAGE)
    else
      match EnumChild(payload, OBJECT_TYPE)
      case None => Bad(REASON_INVALID_FIELD)
      case Some(typ) => Parsed(WithAttributes(KeySpec(typ, ALGORITHM_AES, 256), TemplateAttributes(payload)))
  }

  method ParseCreatePayload(payload: Ttlv.Node) returns (r: Payload<KeySpec>)
    ensures r == CreateSpecOf(payload)
  {
    if payload.tag != REQUEST_PAYLOAD || payload.typ != Ttlv.STRUCTURE { return Bad(REASON_INVALID_MESSAGE); }
    var typ := EnumChild(payload, OBJECT_TYPE);
    if typ.None? { return Bad(REASON_INVALID_FIELD); }
    var spec := KeySpec(typ.value, ALGORITHM_AES, 256);
    var attrs := TemplateAttributes(payload);
    for i := 0 to |attrs|
      invariant spec == WithAttributes(KeySpec(typ.value, ALGORITHM_AES, 256), attrs[..i])
    {
      assert attrs[..i + 1][..i] == attrs[..i];
      spec := WithAttribute(spec, attrs[i]);
    }
    assert attrs[..|attrs|] == attrs;
    return Parsed(spec);
  }

  /** The first algorithm attribute decides; none means every algorithm. */
  function LocateFilter(attrs: seq<Ttlv.Node>): (r: Payload<Text>)
    ensures r.Bad? ==> r.reason == REASON_INVALID_FIELD
  {
    if attrs == [] then Parsed([])
    else
      match AttributeOf(attrs[0])
      case None => LocateFilter(attrs[1..])
      case Some((name, value)) =>
        if name != Ascii("cryptographic_algorithm") then LocateFilter(attrs[1..])
        else if value.typ != Ttlv.ENUMERATION || |value.value| != 4 then Bad(REASON_INVALID_FIELD)
        else if AsI32(U32(value.value)) != ALGORITHM_AES then Bad(REASON_INVALID_FIELD)
        else Parsed(AES)
  }

  function LocateAlgorithmOf(payload: Ttlv.Node): (r: Payload<Text>)
    ensures r.Bad? ==> r.reason in {REASON_INVALID_MESSAGE, REASON_INVALID_FIELD}
  {
    if payload.tag == 0 then Parsed([])
    else if !IsPayload(payload) then Bad(REASON_INVALID_MESSAGE)
    else LocateFilter(TemplateAttributes(payload))
  }

  function IdentifierOf(payload: Ttlv.Node): (r: Payload<Text>)
    ensures r.Bad? ==> r.reason in {REASON_INVALID_MESSAGE, REASON_INVALID_FIELD}
  {
    if !IsPayload(payload) then Bad(REASON_INVALID_MESSAGE)
    else
      match FirstChild(payload.children, UNIQUE_IDENTIFIER)
      case None => Bad(REASON_INVALID_FIELD)
      case Some(uid) =>
        if uid.typ != Ttlv.TEXT_STRING || TrimSpace(uid.value) == [] then Bad(REASON_INVALID_FIELD)
        else Parsed(TrimSpace(uid.value))
  }

  // ---------------------------------------------------------------- replies

  datatype Handled = Done(payload: Ttlv.Node) | Refused(reason: int, message: Text)

  /** errorItem and the success item of a handler. */
  function ItemOf(operation: int, h: Handled): (item: Item) {
    match h
    case Done(payload) => Item(operation, STATUS_SUCCESS, 0, [], Some(payload))
    case Refused(reason, message) => Item(operation, STATUS_FAILED, reason, message, None)
  }

  function ReasonOf(f: Failure): (reason: int) {
    match f
    case NotAuthenticated => REASON_AUTH_FAILED
    case NoEntropy => REASON_GENERAL_FAILURE
    case _ => REASON_ITEM_NOT_FOUND
  }

  function IdReply(id: Text): (t: Ttlv.Node) {
    Structure(RESPONSE_PAYLOAD, [TextString(UNIQUE_IDENTIFIER, id)])
  }

  function CreateReply(id: Text): (t: Ttlv.Node) {
    Structure(RESPONSE_PAYLOAD,
      [Enumeration(OBJECT_TYPE, OBJECT_TYPE_SYMMETRIC_KEY), TextString(UNIQUE_IDENTIFIER, id)])
  }

  function IdNodes(ids: seq<Text>): (ts: seq<Ttlv.Node>) {
    if ids == [] then [] else [TextString(UNIQUE_IDENTIFIER, ids[0])] + IdNodes(ids[1..])
  }

  function LocateReply(ids: seq<Text>): (t: Ttlv.Node) {
    Structure(RESPONSE_PAYLOAD, IdNodes(ids))
  }

  function KeyTree(key: seq<Byte>): (t: Ttlv.Node) {
    Structure(SYMMETRIC_KEY,
      [Structure(KEY_BLOCK,
        [Enumeration(KEY_FORMAT_TYPE, KEY_FORMAT_RAW),
         Structure(KEY_VALUE, [ByteString(KEY_MATERIAL, key)]),
         Enumeration(CRYPTOGRAPHIC_ALGORITHM, ALGORITHM_AES),
         Integer(CRYPTOGRAPHIC_LENGTH, |key| * 8)])])
  }

  function GetReply(id: Text, key: seq<Byte>): (t: Ttlv.Node) {
    Structure(RESPONSE_PAYLOAD,
      [Enumeration(OBJECT_TYPE, OBJECT_TYPE_SYMMETRIC_KEY), TextString(UNIQUE_IDENTIFIER, id), KeyTree(key)])
  }

  // ---------------------------------------------------------------- what serving one item means

  predicate RefusedFor(h: Handled, reason: int) { h.Refused? && h.reason == reason }

  ghost predicate ServesCreate(auth: bool, s: Store, request: Payload<KeySpec>, s': Store, h: Handled) {
    match request
    case Bad(reason) => RefusedFor(h, reason) && s' == s
    case Parsed(spec) =>
      if spec != KeySpec(OBJECT_TYPE_SYMMETRIC_KEY, ALGORITHM_AES, 256) then
        RefusedFor(h, REASON_INVALID_FIELD) && s' == s
      else if !auth then RefusedFor(h, REASON_AUTH_FAILED) && s' == s
      else
        || (RefusedFor(h, REASON_GENERAL_FAILURE) && s' == s)
        || (h == Done(CreateReply(NextId(s)))
            && exists key: seq<Byte> :: |key| == 32 && s' == Step(s, Register(AES, key)))
  }

  /** The ids are the active objects the filter selects, each once. */
  ghost predicate Located(s: Store, algorithm: Text, ids: seq<Text>) {
    && (forall i, j :: 0 <= i < j < |ids| ==> ids[i] != ids[j])
    && (forall id :: id in ids <==> Live(s, id) && (algorithm == [] || s.objects[id].algorithm == algorithm))
  }

  ghost predicate ServesLocate(auth: bool, s: Store, payload: Ttlv.Node, s': Store, h: Handled) {
    && s' == s
    && match LocateAlgorithmOf(payload)
       case Bad(reason) => RefusedFor(h, reason)
       case Parsed(algorithm) =>
         if !auth then RefusedFor(h, REASON_AUTH_FAILED)
         else exists ids :: Located(s, algorithm, ids) && h == Done(LocateReply(ids))
  }

  ghost predicate ServesGet(auth: bool, s: Store, payload: Ttlv.Node, s': Store, h: Handled) {
    && s' == s
    && match IdentifierOf(payload)
       case Bad(reason) => RefusedFor(h, reason)
       case Parsed(id) =>
         if !auth then RefusedFor(h, REASON_AUTH_FAILED)
         else if !Live(s, id) then RefusedFor(h, REASON_ITEM_NOT_FOUND)
         else h == Done(GetReply(id, s.objects[id].key))
  }

  /** Revoke and Destroy: the change is op, on an object that need not be active. */
  ghost predicate ServesChange(auth: bool, s: Store, payload: Ttlv.Node, destroy: bool, s': Store, h: Handled) {
    match IdentifierOf(payload)
    case Bad(reason) => RefusedFor(h, reason) && s' == s
    case Parsed(id) =>
      if !auth then RefusedFor(h, REASON_AUTH_FAILED) && s' == s
      else if id !in s.objects then RefusedFor(h, REASON_ITEM_NOT_FOUND) && s' == s
      else h == Done(IdReply(id)) && s' == Step(s, if destroy then Destroy(id) else Revoke(id))
  }

  /** Serving a request item in store s may leave s' and answer h. */
  ghost predicate Serves(auth: bool, s: Store, req: BatchItem, s': Store, h: Handled) {
    if req.operation == CREATE then ServesCreate(auth, s, CreateSpecOf(req.payload), s', h)
    else if req.operation == LOCATE then ServesLocate(auth, s, req.payload, s', h)
    else if req.operation == GET then ServesGet(auth, s, req.payload, s', h)
    else if req.operation == REVOKE then ServesChange(auth, s, req.payload, false, s', h)
    else if req.operation == DESTROY then ServesChange(auth, s, req.payload, true, s', h)
    else RefusedFor(h, REASON_UNSUPPORTED) && s' == s
  }

  // ---------------------------------------------------------------- handlers

  /** The text of an error; only its presence matters to the protocol. */
  method ErrorText() returns (t: Text) {
    t := *;
  }

  method Refuse(reason: int) returns (h: Handled)
    ensures RefusedFor(h, reason)
  {
    var text := ErrorText();
    return Refused(reason, text);
  }

  method HandleCreate(s: Server, cert: seq<Byte>, payload: Ttlv.Node) returns (h: Handled)
    requires s.Valid()
    modifies s.Repr
    ensures s.Valid() && fresh(s.Repr - old(s.Repr)) && old(s.History) <= s.History
    ensures ServesCreate(s.authenticate(cert), old(s.Contents), CreateSpecOf(payload), s.Contents, h)
  {
    var spec := ParseCreatePayload(payload);
    h := CreateFrom(s, cert, spec);
  }

  method CreateFrom(s: Server, cert: seq<Byte>, spec: Payload<KeySpec>) returns (h: Handled)
    requires s.Valid()
    modifies s.Repr
    ensures s.Valid() && fresh(s.Repr - old(s.Repr)) && old(s.History) <= s.History
    ensures ServesCreate(s.authenticate(cert), old(s.Contents), spec, s.Contents, h)
  {
    if spec.Bad? {
      h := Refuse(spec.reason);
      return;
    }
    if spec.value.objectType != OBJECT_TYPE_SYMMETRIC_KEY
      || spec.value.algorithm != ALGORITHM_AES || spec.value.length != 256 {
      h := Refuse(REASON_INVALID_FIELD);
      return;
    }
    var r := s.Create(cert, AES);
    if r.Err? {
      h := Refuse(ReasonOf(r.failure));
      return;
    }
    return Done(CreateReply(r.value));
  }

  method HandleLocate(s: Server, cert: seq<Byte>, payload: Ttlv.Node) returns (h: Handled)
    requires s.Valid()
    ensures ServesLocate(s.authenticate(cert), s.Contents, payload, s.Contents, h)
  {
    var algorithm := LocateAlgorithmOf(payload);
    if algorithm.Bad? {
      h := Refuse(algorithm.reason);
      return;
    }
    var r := s.Locate(cert, algorithm.value);
    if r.Err? {
      h := Refuse(ReasonOf(r.failure));
      return;
    }
    assert Located(s.Contents, algorithm.value, r.value);
    return Done(LocateReply(r.value));
  }

  /** The key's bytes for the reply; the view they were taken from is wiped before it is let go. */
  method TakeKey(s: Server, cert: seq<Byte>, id: Text) returns (r: Result<seq<Byte>>, ghost view: array?<Byte>)
    requires s.Valid()
    modifies s`Shared
    ensures s.Valid() && s.Contents == old(s.Contents)
    ensures r.Ok? <==> s.authenticate(cert) && Live(s.Contents, id)
    ensures r.Ok? ==> r.value == s.Contents.objects[id].key
    ensures r.Ok? ==> view != null && fresh(view) && Wiped(view) && s.Shared == old(s.Shared) + {view}
    ensures r.Err? ==> r.failure == if s.authenticate(cert) then NotAvailable else NotAuthenticated
    ensures r.Err? ==> s.Shared == old(s.Shared)
  {
    view := null;
    var got := s.GetObject(cert, id);
    if got.Err? { return Err(got.failure), view; }
    var key := got.value.key;
    view := key;
    r := Ok(key[..]);
    Wipe(key);
  }

  /** The reply holds the key; the view it was encoded from is wiped, the stored key is not. */
  method HandleGet(s: Server, cert: seq<Byte>, payload: Ttlv.Node) returns (h: Handled, ghost view: array?<Byte>)
    requires s.Valid()
    modifies s`Shared
    ensures s.Valid()
    ensures ServesGet(s.authenticate(cert), old(s.Contents), payload, s.Contents, h)
    ensures h.Done? ==> view != null && fresh(view) && Wiped(view) && s.Shared == old(s.Shared) + {view}
    ensures !h.Done? ==> s.Shared == old(s.Shared)
  {
    view := null;
    var id := IdentifierOf(payload);
    if id.Bad? {
      h := Refuse(id.reason);
      return;
    }
    var r;
    r, view := TakeKey(s, cert, id.value);
    if r.Err? {
      h := Refuse(ReasonOf(r.failure));
      return;
    }
    h := Done(GetReply(id.value, r.value));
  }

  method HandleChange(s: Server, cert: seq<Byte>, payload: Ttlv.Node, destroy: bool) returns (h: Handled)
    requires s.Valid()
    modifies s.Repr
    ensures s.Valid() && s.Repr == old(s.Repr) && old(s.History) <= s.History
    ensures ServesChange(s.authenticate(cert), old(s.Contents), payload, destroy, s.Contents, h)
  {
    var id := IdentifierOf(payload);
    if id.Bad? {
      h := Refuse(id.reason);
      return;
    }
    var r;
    if destroy { r := s.DestroyObject(cert, id.value); } else { r := s.RevokeObject(cert, id.value); }
    if r.Err? {
      h := Refuse(ReasonOf(r.failure));
      return;
    }
    return Done(IdReply(id.value));
  }

  /** HandleFrame's dispatch on one batch item. */
  method HandleItem(s: Server, cert: seq<Byte>, req: BatchItem) returns (h: Handled)
    requires s.Valid()
    modifies s.Repr
    ensures s.Valid() && fresh(s.Repr - old(s.Repr)) && old(s.History) <= s.History
    ensures Serves(s.authenticate(cert), old(s.Contents), req, s.Contents, h)
  {
    if req.operation == CREATE {
      h := HandleCreate(s, cert, req.payload);
    } else if req.operation == LOCATE {
      h := HandleLocate(s, cert, req.payload);
    } else if req.operation == GET {
      ghost var view;
      h, view := HandleGet(s, cert, req.payload);
    } else if req.operation == REVOKE {
      h := HandleChange(s, cert, req.payload, false);
    } else if req.operation == DESTROY {
      h := HandleChange(s, cert, req.payload, true);
    } else {
      h := Refuse(REASON_UNSUPPORTED);
    }
  }

  // ---------------------------------------------------------------- frames

  /** A run of served items: the stores between them and what each was answered. */
  datatype Served = Served(states: seq<Store>, answers: seq<Handled>)

  /** Each request was served in the store its predecessor left. */
  ghost predicate ServedInTurn(auth: bool, reqs: seq<BatchItem>, v: Served) {
    && |v.states| == |reqs| + 1 && |v.answers| == |reqs|
    && forall i :: 0 <= i < |reqs| ==> Serves(auth, v.states[i], reqs[i], v.states[i + 1], v.answers[i])
  }

  /** One item per request, in order, with the request's operation. */
  ghost predicate Answers(reqs: seq<BatchItem>, v: Served, items: seq<Item>) {
    && |items| == |v.answers| == |reqs|
    && forall i :: 0 <= i < |reqs| ==> items[i] == ItemOf(reqs[i].operation, v.answers[i])
  }

  /** The single item of a response to a frame that asks for nothing. */
  ghost predicate IsRejection(items: seq<Item>) {
    |items| == 1 && items[0].operation == 0 && items[0].status == STATUS_FAILED
    && items[0].reason == REASON_INVALID_MESSAGE && items[0].payload.None?
  }

  method ServeBatch(s: Server, cert: seq<Byte>, reqs: seq<BatchItem>)
    returns (items: seq<Item>, ghost v: Served)
    requires s.Valid()
    modifies s.Repr
    ensures s.Valid() && fresh(s.Repr - old(s.Repr)) && old(s.History) <= s.History
    ensures ServedInTurn(s.authenticate(cert), reqs, v) && Answers(reqs, v, items)
    ensures v.states[0] == old(s.Contents) && v.states[|reqs|] == s.Contents
  {
    items, v := [], Served([s.Contents], []);
    for i := 0 to |reqs|
      invariant s.Valid() && fresh(s.Repr - old(s.Repr)) && old(s.History) <= s.History
      invariant ServedInTurn(s.authenticate(cert), reqs[..i], v) && Answers(reqs[..i], v, items)
      invariant v.states[0] == old(s.Contents) && v.states[i] == s.Contents
    {
      var h := HandleItem(s, cert, reqs[i]);
      items := items + [ItemOf(reqs[i].operation, h)];
      v := Served(v.states + [s.Contents], v.answers + [h]);
    }
    assert reqs[..|reqs|] == reqs;
  }

  /** Serving a whole frame in store s: a rejection, or its items in turn. */
  ghost predicate FrameServed(auth: bool, msg: Decoded, s: Store, s': Store, items: seq<Item>, v: Served) {
    if msg.Malformed? || msg.items == [] then IsRejection(items) && s' == s
    else
      && ServedInTurn(auth, msg.items, v) && Answers(msg.items, v, items)
      && v.states[0] == s && v.states[|msg.items|] == s'
  }

  /** The response announces the request's version, or 1.2 when it could not be read. */
  function Response(msg: Decoded, now: int, items: seq<Item>): (t: Ttlv.Node) {
    match msg
    case Malformed => ResponseTree(1, 2, now, items)
    case Request(major, minor, _) => ResponseTree(major, minor, now, items)
  }

  /**
   HandleFrame. The response is always the encoding of a response message; for a decodable,
   non-empty request it answers the request's items one by one and in order.
   */
  method HandleFrame(s: Server, cert: seq<Byte>, frame: seq<Byte>, now: int)
    returns (response: seq<Byte>, ghost msg: Decoded, ghost items: seq<Item>, ghost v: Served)
    requires s.Valid()
    modifies s.Repr
    ensures s.Valid() && fresh(s.Repr - old(s.Repr)) && old(s.History) <= s.History
    ensures msg == DecodeRequest(frame)
    ensures FrameServed(s.authenticate(cert), msg, old(s.Contents), s.Contents, items, v)
    ensures response == Ttlv.Encode(Response(msg, now, items))
  {
    var decoded := DecodeRequestMessage(frame);
    msg := decoded;
    response, items, v := HandleMessage(s, cert, decoded, now);
  }

  method HandleMessage(s: Server, cert: seq<Byte>, msg: Decoded, now: int)
    returns (response: seq<Byte>, ghost items: seq<Item>, ghost v: Served)
    requires s.Valid()
    modifies s.Repr
    ensures s.Valid() && fresh(s.Repr - old(s.Repr)) && old(s.History) <= s.History
    ensures FrameServed(s.authenticate(cert), msg, old(s.Contents), s.Contents, items, v)
    ensures response == Ttlv.Encode(Response(msg, now, items))
  {
    v := Served([], []);
    var replies;
    if msg.Malformed? || msg.items == [] {
      var h := Refuse(REASON_INVALID_MESSAGE);
      replies := [ItemOf(0, h)];
    } else {
      replies, v := ServeBatch(s, cert, msg.items);
    }
    response := Respond(msg, now, replies);
    items := replies;
  }

  method Respond(msg: Decoded, now: int, items: seq<Item>) returns (bs: seq<Byte>)
    ensures bs == Ttlv.Encode(Response(msg, now, items))
  {
    if msg.Malformed? { bs := EncodeResponse(1, 2, now, items); }
    else { bs := EncodeResponse(msg.major, msg.minor, now, items); }
  }

  // ---------------------------------------------------------------- the responses decode

  lemma {:induction false} ItemsAreNodes(ts: seq<Ttlv.Node>)
    ensures |ts| <= Ttlv.NodesAll(ts)
  {
    if ts != [] { ItemsAreNodes(ts[1..]); }
  }

  lemma {:induction false} OperationsFit(ts: seq<Ttlv.Node>)
    ensures var r := DecodeItems(ts);
      r.Some? ==> forall i :: 0 <= i < |r.value| ==> -TWO_31 <= r.value[i].operation < TWO_31
  {
    if ts != [] { OperationsFit(ts[..|ts| - 1]); }
  }

  /** A decodable request has at most as many items as the parser admits fields. */
  lemma RequestFits(frame: seq<Byte>)
    ensures var r := DecodeRequest(frame);
      r.Request? ==>
        && |r.items| < Ttlv.DEFAULT_LIMITS.maxFields
        && forall i :: 0 <= i < |r.items| ==> -TWO_31 <= r.items[i].operation < TWO_31
  {
    var p := Ttlv.ParseFrame(frame, Ttlv.DEFAULT_LIMITS);
    if p.Accepted? {
      Ttlv.ParseAcceptsExactlyEncodings(frame, Ttlv.DEFAULT_LIMITS, p.root);
      ItemsAreNodes(p.root.children);
      OperationsFit(ByTag(p.root.children, BATCH_ITEM));
    }
  }

  lemma {:induction false} IdNodesFacts(ids: seq<Text>)
    ensures AllConsistent(IdNodes(ids)) && Ttlv.HeightAll(IdNodes(ids)) <= 1
  {
    if ids != [] {
      LeafFacts(TextString(UNIQUE_IDENTIFIER, ids[0]));
      IdNodesFacts(ids[1..]);
      ConsistentConcat([TextString(UNIQUE_IDENTIFIER, ids[0])], IdNodes(ids[1..]));
    }
  }

  lemma SmallRepliesFacts(id: Text)
    ensures Consistent(IdReply(id)) && Ttlv.Height(IdReply(id)) == 2
    ensures Consistent(CreateReply(id)) && Ttlv.Height(CreateReply(id)) == 2
  {
    var o, u := Enumeration(OBJECT_TYPE, OBJECT_TYPE_SYMMETRIC_KEY), TextString(UNIQUE_IDENTIFIER, id);
    LeafFacts(o);
    LeafFacts(u);
    ConsistentConcat([o], [u]);
    assert [o] + [u] == [o, u];
  }

  lemma KeyTreeFacts(key: seq<Byte>)
    ensures Consistent(KeyTree(key)) && Ttlv.Height(KeyTree(key)) == 4
  {
    var a, m := Enumeration(KEY_FORMAT_TYPE, KEY_FORMAT_RAW), ByteString(KEY_MATERIAL, key);
    var c, d := Enumeration(CRYPTOGRAPHIC_ALGORITHM, ALGORITHM_AES), Integer(CRYPTOGRAPHIC_LENGTH, |key| * 8);
    LeafFacts(a);
    LeafFacts(m);
    LeafFacts(c);
    LeafFacts(d);
    var v := Structure(KEY_VALUE, [m]);
    ConsistentConcat([a], [v]);
    ConsistentConcat([a, v], [c]);
    ConsistentConcat([a, v, c], [d]);
    assert [a] + [v] == [a, v] && [a, v] + [c] == [a, v, c] && [a, v, c] + [d] == [a, v, c, d];
    OneChild(SYMMETRIC_KEY, Structure(KEY_BLOCK, [a, v, c, d]));
  }

  lemma OneChild(tag: nat, t: Ttlv.Node)
    requires tag < TWO_24 && Consistent(t)
    ensures Consistent(Structure(tag, [t])) && Ttlv.Height(Structure(tag, [t])) == 1 + Ttlv.Height(t)
    ensures AllConsistent([t]) && Ttlv.HeightAll([t]) == Ttlv.Height(t)
  {
    assert [t][1..] == [] && Ttlv.HeightAll([t]) == Ttlv.Height(t);
  }

  lemma GetReplyFacts(id: Text, key: seq<Byte>)
    ensures Consistent(GetReply(id, key)) && Ttlv.Height(GetReply(id, key)) == 5
  {
    var o, u := Enumeration(OBJECT_TYPE, OBJECT_TYPE_SYMMETRIC_KEY), TextString(UNIQUE_IDENTIFIER, id);
    LeafFacts(o);
    LeafFacts(u);
    KeyTreeFacts(key);
    OneChild(RESPONSE_PAYLOAD, KeyTree(key));
    ConsistentConcat([o], [u]);
    ConsistentConcat([o, u], [KeyTree(key)]);
    assert [o] + [u] == [o, u] && [o, u] + [KeyTree(key)] == [o, u, KeyTree(key)];
  }

  lemma ServedItemIsSendable(auth: bool, s: Store, req: BatchItem, s': Store, h: Handled)
    requires Serves(auth, s, req, s', h) && -TWO_31 <= req.operation < TWO_31
    ensures Sendable(ItemOf(req.operation, h))
  {
    if h.Done? {
      if req.operation == CREATE {
        SmallRepliesFacts(NextId(s));
      } else if req.operation == LOCATE {
        var algorithm := LocateAlgorithmOf(req.payload).value;
        var ids :| Located(s, algorithm, ids) && h == Done(LocateReply(ids));
        IdNodesFacts(ids);
      } else {
        var id := IdentifierOf(req.payload).value;
        if req.operation == GET { GetReplyFacts(id, s.objects[id].key); } else { SmallRepliesFacts(id); }
      }
    }
  }

  lemma AnswersAreSendable(auth: bool, frame: seq<Byte>, s: Store, s': Store, items: seq<Item>, v: Served)
    requires FrameServed(auth, DecodeRequest(frame), s, s', items, v)
    ensures AllSendable(items) && |items| < Ttlv.DEFAULT_LIMITS.maxFields
  {
    var msg := DecodeRequest(frame);
    if msg.Request? && msg.items != [] {
      RequestFits(frame);
      forall i | 0 <= i < |items| ensures Sendable(items[i]) {
        ServedItemIsSendable(auth, v.states[i], msg.items[i], v.states[i + 1], v.answers[i]);
      }
    }
  }

  /**
   What the client reads: under any limits that admit the response's size and fields and at least
   seven levels, the bytes HandleFrame sends, to whatever frame, parse to a response message with
   exactly the served items, in order, under a matching batch count. An item reports success exactly
   when its handler succeeded.
   */
  lemma ClientReadsResponse(auth: bool, frame: seq<Byte>, s: Store, s': Store, now: int, items: seq<Item>, v: Served,
                            limits: Ttlv.Limits)
    requires FrameServed(auth, DecodeRequest(frame), s, s', items, v)
    requires Ttlv.Size(Response(DecodeRequest(frame), now, items)) <= Ttlv.Normalize(limits).maxFrameSize < TWO_32
    requires Ttlv.Nodes(Response(DecodeRequest(frame), now, items)) <= Ttlv.Normalize(limits).maxFields
    requires 7 <= Ttlv.Normalize(limits).maxDepth
    ensures var root := Response(DecodeRequest(frame), now, items);
      Ttlv.ParseFrame(Ttlv.Encode(root), limits) == Ttlv.Accepted(root) && ReadsAs(root, items)
    ensures DecodeRequest(frame).Request? && DecodeRequest(frame).items != [] ==>
      forall i :: 0 <= i < |items| ==> (items[i].status == STATUS_SUCCESS <==> v.answers[i].Done?)
  {
    AnswersAreSendable(auth, frame, s, s', items, v);
    match DecodeRequest(frame)
    case Malformed => ResponseDecodes(1, 2, now, items, limits);
    case Request(major, minor, _) => ResponseDecodes(major, minor, now, items, limits);
  }
}
