/**
 The TTLV encoding of section 9.1 of the OASIS KMIP Specification v1.2, as ee/kmip reads and
 writes it: the tree, its encoding, the bounded parser as a function, and the proof that the
 parser accepts exactly the encodings of well-formed trees within the limits, up to padding.
 */
module Ttlv {
  import opened Bytes

  // ---------------------------------------------------------------- data model

  const STRUCTURE: Byte := 0x01
  const INTEGER: Byte := 0x02
  const LONG_INTEGER: Byte := 0x03
  const BIG_INTEGER: Byte := 0x04
  const ENUMERATION: Byte := 0x05
  const BOOLEAN: Byte := 0x06
  const TEXT_STRING: Byte := 0x07
  const BYTE_STRING: Byte := 0x08
  const DATE_TIME: Byte := 0x09
  const INTERVAL: Byte := 0x0a

  /** One TTLV node. A structure has children and no value, every other type the reverse. */
  datatype Node = Node(tag: nat, typ: Byte, length: nat, value: seq<Byte>, children: seq<Node>)

  predicate IsFourByteType(typ: Byte) { typ == INTEGER || typ == ENUMERATION || typ == INTERVAL }

  predicate IsEightByteType(typ: Byte) { typ == LONG_INTEGER || typ == BOOLEAN || typ == DATE_TIME }

  predicate IsVariableType(typ: Byte) { typ == BIG_INTEGER || typ == TEXT_STRING || typ == BYTE_STRING }

  /** The value lengths a non-structure type admits. */
  predicate PrimitiveLength(typ: Byte, length: nat) {
    || (IsFourByteType(typ) && length == 4)
    || (IsEightByteType(typ) && length == 8)
    || IsVariableType(typ)
  }

  /** The number of bytes that bring a value of this length to a multiple of eight. */
  function Padding(length: nat): (p: nat)
    ensures p < 8 && (length + p) % 8 == 0
  {
    if length % 8 != 0 then 8 - length % 8 else 0
  }

  function ItemSize(length: nat): (n: nat)
    ensures n >= 8 && n % 8 == 0
  {
    8 + length + Padding(length)
  }

  /** The bytes a node's own Length field claims for it. */
  function Size(t: Node): (n: nat) {
    ItemSize(t.length)
  }

  function SizeAll(ts: seq<Node>): (n: nat) {
    if ts == [] then 0 else Size(ts[0]) + SizeAll(ts[1..])
  }

  function Nodes(t: Node): (n: nat)
    decreases t, 1
  {
    1 + NodesAll(t.children)
  }

  function NodesAll(ts: seq<Node>): (n: nat)
    decreases ts, 0
  {
    if ts == [] then 0 else Nodes(ts[0]) + NodesAll(ts[1..])
  }

  function Height(t: Node): (h: nat)
    ensures h >= 1
    decreases t, 1
  {
    1 + HeightAll(t.children)
  }

  function HeightAll(ts: seq<Node>): (h: nat)
    decreases ts, 0
  {
    if ts == [] then 0
    else
      var h, k := Height(ts[0]), HeightAll(ts[1..]);
      if h > k then h else k
  }

  /** A tree whose tags, types and Length fields are those of a KMIP item. */
  predicate WellFormed(t: Node)
    decreases t, 1
  {
    && t.tag < TWO_24
    && t.length < TWO_32
    && if t.typ == STRUCTURE then
         t.value == [] && t.length == SizeAll(t.children) && AllWellFormed(t.children)
       else
         t.children == [] && t.length == |t.value| && PrimitiveLength(t.typ, t.length)
  }

  predicate AllWellFormed(ts: seq<Node>)
    decreases ts, 0
  {
    ts == [] || (WellFormed(ts[0]) && AllWellFormed(ts[1..]))
  }

  // ---------------------------------------------------------------- encoding

  function Header(tag: nat, typ: Byte, length: nat): (bs: seq<Byte>)
    ensures |bs| == 8
  {
    [tag / TWO_16 % TWO_8, tag / TWO_8 % TWO_8, tag % TWO_8, typ] + PutU32(length)
  }

  /** One item: header, value, zero padding. */
  function EncodeItem(tag: nat, typ: Byte, value: seq<Byte>): (bs: seq<Byte>)
    ensures |bs| == ItemSize(|value|)
  {
    Header(tag, typ, |value|) + value + Zeros(Padding(|value|))
  }

  /** A whole tree: a structure's value is the concatenation of its encoded children. */
  function Encode(t: Node): (bs: seq<Byte>)
    decreases t, 1
  {
    EncodeItem(t.tag, t.typ, if t.typ == STRUCTURE then EncodeAll(t.children) else t.value)
  }

  function EncodeAll(ts: seq<Node>): (bs: seq<Byte>)
    decreases ts, 0
  {
    if ts == [] then [] else Encode(ts[0]) + EncodeAll(ts[1..])
  }

  /** Offset i of Encode(t) holds a padding byte. */
  predicate IsPadding(t: Node, i: nat)
    decreases t, 1
  {
    if t.typ == STRUCTURE then i >= 8 && IsPaddingAll(t.children, i - 8)
    else i >= 8 + t.length
  }

  predicate IsPaddingAll(ts: seq<Node>, i: nat)
    decreases ts, 0
  {
    ts != [] &&
    if i < Size(ts[0]) then IsPadding(ts[0], i) else IsPaddingAll(ts[1..], i - Size(ts[0]))
  }

  /** The frame is the encoding of t except that its padding bytes may be anything. */
  predicate EncodesUpToPadding(frame: seq<Byte>, t: Node) {
    |frame| == |Encode(t)| && SameButPadding(frame, Encode(t), t)
  }

  predicate SameButPadding(a: seq<Byte>, b: seq<Byte>, t: Node)
    requires |a| == |b|
  {
    forall i :: 0 <= i < |a| && !IsPadding(t, i) ==> a[i] == b[i]
  }

  predicate SameButPaddingAll(a: seq<Byte>, b: seq<Byte>, ts: seq<Node>)
    requires |a| == |b|
  {
    forall i :: 0 <= i < |a| && !IsPaddingAll(ts, i) ==> a[i] == b[i]
  }

  // ---------------------------------------------------------------- limits

  datatype Limits = Limits(maxFrameSize: int, maxFields: int, maxDepth: int)

  const DEFAULT_LIMITS := Limits(0x10_0000, 4096, 16)

  function Normalize(l: Limits): (r: Limits)
    ensures r.maxFrameSize > 0 && r.maxFields > 0 && r.maxDepth > 0
    ensures l.maxFrameSize > 0 ==> r.maxFrameSize == l.maxFrameSize
    ensures l.maxFields > 0 ==> r.maxFields == l.maxFields
    ensures l.maxDepth > 0 ==> r.maxDepth == l.maxDepth
  {
    Limits(if l.maxFrameSize <= 0 then DEFAULT_LIMITS.maxFrameSize else l.maxFrameSize,
           if l.maxFields <= 0 then DEFAULT_LIMITS.maxFields else l.maxFields,
           if l.maxDepth <= 0 then DEFAULT_LIMITS.maxDepth else l.maxDepth)
  }

  /** The per-item length cap: the parser converts MaxFrameSize to uint32 before comparing. */
  function LengthCap(l: Limits): (cap: nat) {
    l.maxFrameSize % TWO_32
  }

  /** A tree the limits admit. Below 2^32 the second conjunct follows from the first. */
  predicate Within(t: Node, l: Limits) {
    && Size(t) <= l.maxFrameSize
    && t.length <= LengthCap(l)
    && Nodes(t) <= l.maxFields
    && Height(t) <= l.maxDepth
  }

  // ---------------------------------------------------------------- the parser as a function

  datatype Error =
    | EmptyFrame | FrameOverCap | TrailingBytes
    | TooDeep | TruncatedHeader | TooManyFields
    | LengthOverCap | LengthOverFrame | WrongLength | UnsupportedType

  datatype Parse = Ok(node: Node, n: nat, fields: nat) | Err(error: Error, fields: nat)

  datatype ParseList = OkAll(nodes: seq<Node>, fields: nat) | ErrAll(error: Error, fields: nat)

  datatype Frame = Accepted(root: Node) | Rejected(error: Error)

  /** The tag of an item header. */
  function HeaderTag(frame: seq<Byte>): (tag: nat)
    requires |frame| >= 8
    ensures tag < TWO_24
  {
    frame[0] * TWO_16 + frame[1] * TWO_8 + frame[2]
  }

  /** The Length field of an item header. */
  function HeaderLength(frame: seq<Byte>): (length: nat)
    requires |frame| >= 8
    ensures length < TWO_32
  {
    U32(frame[4..8])
  }

  /** Reads one item at the front of the frame; fields is the counter shared by the whole parse. */
  function ParseItem(l: Limits, frame: seq<Byte>, depth: nat, fields: nat): (r: Parse)
    ensures r.Ok? ==> 8 <= r.n <= |frame|
    decreases |frame|, 0
  {
    if depth > l.maxDepth then Err(TooDeep, fields)
    else if |frame| < 8 then Err(TruncatedHeader, fields)
    else if fields + 1 > l.maxFields then Err(TooManyFields, fields + 1)
    else
      var length := HeaderLength(frame);
      if length > LengthCap(l) then Err(LengthOverCap, fields + 1)
      else if ItemSize(length) > |frame| then Err(LengthOverFrame, fields + 1)
      else
        ParseValue(l, HeaderTag(frame), frame[3], frame[8..8 + length], depth, fields + 1)
  }

  /** The type switch of the parser, on the value bytes its header delimits. */
  function ParseValue(l: Limits, tag: nat, typ: Byte, value: seq<Byte>, depth: nat, fields: nat): (r: Parse)
    ensures r.Ok? ==> r.n == ItemSize(|value|)
    decreases |value|, 2
  {
    if typ == STRUCTURE then
      match ParseItems(l, value, depth + 1, fields)
      case OkAll(nodes, f) => Ok(Node(tag, typ, |value|, [], nodes), ItemSize(|value|), f)
      case ErrAll(e, f) => Err(e, f)
    else if PrimitiveLength(typ, |value|) then
      Ok(Node(tag, typ, |value|, value, []), ItemSize(|value|), fields)
    else if IsFourByteType(typ) || IsEightByteType(typ) then Err(WrongLength, fields)
    else Err(UnsupportedType, fields)
  }

  /** The children loop: items until the value is used up. */
  function ParseItems(l: Limits, value: seq<Byte>, depth: nat, fields: nat): (r: ParseList)
    decreases |value|, 1
  {
    if value == [] then OkAll([], fields)
    else
      match ParseItem(l, value, depth, fields)
      case Err(e, f) => ErrAll(e, f)
      case Ok(node, n, f) =>
        match ParseItems(l, value[n..], depth, f)
        case ErrAll(e, f') => ErrAll(e, f')
        case OkAll(nodes, f') => OkAll([node] + nodes, f')
  }

  /** One complete frame: exactly one item and nothing after it. */
  function ParseFrame(frame: seq<Byte>, limits: Limits): (r: Frame) {
    var l := Normalize(limits);
    if frame == [] then Rejected(EmptyFrame)
    else if |frame| > l.maxFrameSize then Rejected(FrameOverCap)
    else
      match ParseItem(l, frame, 1, 0)
      case Err(e, _) => Rejected(e)
      case Ok(root, n, _) => if n != |frame| then Rejected(TrailingBytes) else Accepted(root)
  }

  // ---------------------------------------------------------------- the grammar

  /**
   The bytes are an encoding of t with arbitrary padding, read off the tree rather than the
   bytes: header, then the value or the children side by side.
   */
  predicate Matches(bs: seq<Byte>, t: Node)
    decreases t, 1
  {
    && |bs| == Size(t)
    && bs[..8] == Header(t.tag, t.typ, t.length)
    && if t.typ == STRUCTURE then MatchesAll(bs[8..8 + t.length], t.children)
       else bs[8..8 + t.length] == t.value
  }

  predicate MatchesAll(bs: seq<Byte>, ts: seq<Node>)
    decreases ts, 0
  {
    if ts == [] then bs == []
    else
      && Size(ts[0]) <= |bs|
      && Matches(bs[..Size(ts[0])], ts[0])
      && MatchesAll(bs[Size(ts[0])..], ts[1..])
  }

  // ---------------------------------------------------------------- sizes

  /** So a structure is never padded. */
  lemma {:induction false} SizeAllAligned(ts: seq<Node>)
    ensures SizeAll(ts) % 8 == 0
  {
    if ts != [] { SizeAllAligned(ts[1..]); }
  }

  lemma {:induction false} EncodeSize(t: Node)
    requires WellFormed(t)
    ensures |Encode(t)| == Size(t)
    decreases t, 1
  {
    if t.typ == STRUCTURE { EncodeAllSize(t.children); }
  }

  lemma {:induction false} EncodeAllSize(ts: seq<Node>)
    requires AllWellFormed(ts)
    ensures |EncodeAll(ts)| == SizeAll(ts)
    decreases ts, 0
  {
    if ts != [] {
      EncodeSize(ts[0]);
      EncodeAllSize(ts[1..]);
    }
  }

  lemma HeaderRoundTrip(tag: nat, typ: Byte, length: nat)
    requires tag < TWO_24 && length < TWO_32
    ensures HeaderTag(Header(tag, typ, length)) == tag
    ensures HeaderLength(Header(tag, typ, length)) == length
  {
    var h := Header(tag, typ, length);
    assert h[4..8] == PutU32(length);
    U32AfterPut(length);
  }

  lemma HeaderOfBytes(frame: seq<Byte>)
    requires |frame| >= 8
    ensures frame[..8] == Header(HeaderTag(frame), frame[3], HeaderLength(frame))
  {
    PutAfterU32(frame[4..8]);
    var tag := HeaderTag(frame);
    assert tag / TWO_16 == frame[0] && tag / TWO_8 == frame[0] * TWO_8 + frame[1];
    assert frame[..8] == frame[..4] + frame[4..8];
  }

  /** An encoding opens with the header of its root. */
  lemma EncodeHeader(t: Node)
    requires WellFormed(t)
    ensures |Encode(t)| == Size(t)
    ensures HeaderTag(Encode(t)) == t.tag && Encode(t)[3] == t.typ && HeaderLength(Encode(t)) == t.length
  {
    EncodeSize(t);
    if t.typ == STRUCTURE { EncodeAllSize(t.children); }
    var h := Header(t.tag, t.typ, t.length);
    assert Encode(t)[..8] == h;
    assert Encode(t)[4..8] == h[4..8];
    HeaderRoundTrip(t.tag, t.typ, t.length);
  }

  // ---------------------------------------------------------------- soundness

  /**
   What a successful parse has established, at any depth and with any count behind it: the tree
   is well formed, the bytes consumed encode it, the counter rose by its node count, and neither
   the field nor the depth limit was passed.
   */
  predicate ItemFacts(l: Limits, frame: seq<Byte>, depth: nat, fields: nat, r: Parse)
    requires r.Ok? ==> r.n <= |frame|
  {
    r.Ok? ==>
      && WellFormed(r.node)
      && r.n == Size(r.node)
      && Matches(frame[..r.n], r.node)
      && r.fields == fields + Nodes(r.node) <= l.maxFields
      && depth + Height(r.node) - 1 <= l.maxDepth
      && r.node.length <= LengthCap(l)
  }

  lemma {:induction false} ItemSound(l: Limits, frame: seq<Byte>, depth: nat, fields: nat)
    ensures ItemFacts(l, frame, depth, fields, ParseItem(l, frame, depth, fields))
    decreases |frame|, 0
  {
    var r := ParseItem(l, frame, depth, fields);
    if r.Ok? {
      var length := HeaderLength(frame);
      var bs := frame[..r.n];
      assert bs[..8] == frame[..8] && bs[8..8 + length] == frame[8..8 + length];
      HeaderOfBytes(frame);
      ValueSound(l, HeaderTag(frame), frame[3], frame[8..8 + length], depth, fields + 1);
    }
  }

  lemma {:induction false} ValueSound(l: Limits, tag: nat, typ: Byte, value: seq<Byte>, depth: nat, fields: nat)
    requires tag < TWO_24 && |value| < TWO_32 && fields <= l.maxFields && depth <= l.maxDepth
    ensures var r := ParseValue(l, tag, typ, value, depth, fields);
      r.Ok? ==>
        && WellFormed(r.node)
        && r.node.tag == tag && r.node.typ == typ && r.node.length == |value|
        && (if typ == STRUCTURE then MatchesAll(value, r.node.children) else value == r.node.value)
        && r.fields + 1 == fields + Nodes(r.node) <= l.maxFields + 1
        && depth + Height(r.node) - 1 <= l.maxDepth
    decreases |value|, 2
  {
    if typ == STRUCTURE { ItemsSound(l, value, depth + 1, fields); }
  }

  lemma {:induction false} ItemsSound(l: Limits, value: seq<Byte>, depth: nat, fields: nat)
    requires fields <= l.maxFields && depth - 1 <= l.maxDepth
    ensures var r := ParseItems(l, value, depth, fields);
      r.OkAll? ==>
        && AllWellFormed(r.nodes)
        && SizeAll(r.nodes) == |value|
        && MatchesAll(value, r.nodes)
        && r.fields == fields + NodesAll(r.nodes) <= l.maxFields
        && depth + HeightAll(r.nodes) - 1 <= l.maxDepth
    decreases |value|, 1
  {
    var r := ParseItems(l, value, depth, fields);
    if r.OkAll? && value != [] {
      var first := ParseItem(l, value, depth, fields);
      ItemSound(l, value, depth, fields);
      ItemsSound(l, value[first.n..], depth, first.fields);
      assert r.nodes[1..] == ParseItems(l, value[first.n..], depth, first.fields).nodes;
    }
  }

  // ---------------------------------------------------------------- completeness

  /** There is room for t at this depth after this many fields. */
  predicate Room(l: Limits, t: Node, depth: nat, fields: nat) {
    && t.length <= LengthCap(l)
    && fields + Nodes(t) <= l.maxFields
    && depth + Height(t) - 1 <= l.maxDepth
  }

  predicate RoomAll(l: Limits, ts: seq<Node>, depth: nat, fields: nat) {
    && SizeAll(ts) <= LengthCap(l)
    && fields + NodesAll(ts) <= l.maxFields
    && depth + HeightAll(ts) - 1 <= l.maxDepth
  }

  lemma RoomSplit(l: Limits, ts: seq<Node>, depth: nat, fields: nat)
    requires ts != [] && RoomAll(l, ts, depth, fields)
    ensures Room(l, ts[0], depth, fields)
    ensures RoomAll(l, ts[1..], depth, fields + Nodes(ts[0]))
    ensures NodesAll(ts) == Nodes(ts[0]) + NodesAll(ts[1..])
  {}

  lemma {:induction false} ItemComplete(l: Limits, frame: seq<Byte>, t: Node, depth: nat, fields: nat)
    requires WellFormed(t) && Room(l, t, depth, fields)
    requires Size(t) <= |frame| && Matches(frame[..Size(t)], t)
    ensures ParseItem(l, frame, depth, fields) == Ok(t, Size(t), fields + Nodes(t))
    decreases t, 1
  {
    var bs := frame[..Size(t)];
    assert bs[..8] == frame[..8];
    HeaderRoundTrip(t.tag, t.typ, t.length);
    assert frame[4..8] == frame[..8][4..8];
    assert HeaderLength(frame) == t.length && HeaderTag(frame) == t.tag && frame[3] == t.typ;
    var value := frame[8..8 + t.length];
    assert value == bs[8..8 + t.length];
    if t.typ == STRUCTURE { ItemsComplete(l, value, t.children, depth + 1, fields + 1); }
  }

  lemma {:induction false} ItemsComplete(l: Limits, bs: seq<Byte>, ts: seq<Node>, depth: nat, fields: nat)
    requires AllWellFormed(ts) && MatchesAll(bs, ts) && RoomAll(l, ts, depth, fields)
    ensures ParseItems(l, bs, depth, fields) == OkAll(ts, fields + NodesAll(ts))
    decreases ts, 0
  {
    if ts != [] {
      var n := Size(ts[0]);
      RoomSplit(l, ts, depth, fields);
      ItemComplete(l, bs, ts[0], depth, fields);
      var f := fields + Nodes(ts[0]);
      ItemsComplete(l, bs[n..], ts[1..], depth, f);
      ItemsStep(l, bs, ts, depth, fields, n, f, f + NodesAll(ts[1..]));
    }
  }

  lemma ItemsStep(l: Limits, bs: seq<Byte>, ts: seq<Node>, depth: nat, fields: nat, n: nat, f: nat, g: nat)
    requires bs != [] && ts != [] && n <= |bs|
    requires ParseItem(l, bs, depth, fields) == Ok(ts[0], n, f)
    requires ParseItems(l, bs[n..], depth, f) == OkAll(ts[1..], g)
    ensures ParseItems(l, bs, depth, fields) == OkAll(ts, g)
  {
    assert [ts[0]] + ts[1..] == ts;
  }

  lemma MatchesParse(l: Limits, frame: seq<Byte>, t: Node)
    requires WellFormed(t) && Matches(frame, t) && Room(l, t, 1, 0)
    ensures ParseItem(l, frame, 1, 0) == Ok(t, |frame|, Nodes(t))
  {
    assert frame[..Size(t)] == frame;
    ItemComplete(l, frame, t, 1, 0);
  }

  // ---------------------------------------------------------------- the grammar is "up to padding"

  lemma StructureSplit(a: seq<Byte>, b: seq<Byte>, t: Node)
    requires t.typ == STRUCTURE && |a| == |b| == 8 + t.length
    ensures SameButPadding(a, b, t) <==> a[..8] == b[..8] && SameButPaddingAll(a[8..], b[8..], t.children)
  {
    if SameButPadding(a, b, t) {
      forall i | 0 <= i < t.length && !IsPaddingAll(t.children, i) ensures a[8..][i] == b[8..][i] {
        assert !IsPadding(t, i + 8);
      }
      forall i | 0 <= i < 8 ensures a[i] == b[i] { assert !IsPadding(t, i); }
    } else {
      var i :| 0 <= i < |a| && !IsPadding(t, i) && a[i] != b[i];
      if i < 8 { assert a[..8][i] != b[..8][i]; } else { assert a[8..][i - 8] != b[8..][i - 8]; }
    }
  }

  lemma PrimitiveSplit(a: seq<Byte>, b: seq<Byte>, t: Node)
    requires t.typ != STRUCTURE && |a| == |b| >= 8 + t.length
    ensures SameButPadding(a, b, t) <==> a[..8] == b[..8] && a[8..8 + t.length] == b[8..8 + t.length]
  {
    var n := 8 + t.length;
    assert SameButPadding(a, b, t) <==> a[..n] == b[..n];
    assert a[..n] == a[..8] + a[8..n] && b[..n] == b[..8] + b[8..n];
  }

  lemma ListSplit(a: seq<Byte>, b: seq<Byte>, ts: seq<Node>)
    requires ts != [] && |a| == |b| >= Size(ts[0])
    ensures var n := Size(ts[0]);
      SameButPaddingAll(a, b, ts) <==>
      SameButPadding(a[..n], b[..n], ts[0]) && SameButPaddingAll(a[n..], b[n..], ts[1..])
  {
    var n := Size(ts[0]);
    if SameButPaddingAll(a, b, ts) {
      forall i | 0 <= i < |a| - n && !IsPaddingAll(ts[1..], i) ensures a[n..][i] == b[n..][i] {
        assert !IsPaddingAll(ts, i + n);
      }
      forall i | 0 <= i < n && !IsPadding(ts[0], i) ensures a[i] == b[i] { assert !IsPaddingAll(ts, i); }
    } else {
      var i :| 0 <= i < |a| && !IsPaddingAll(ts, i) && a[i] != b[i];
      if i < n { assert a[..n][i] != b[..n][i]; } else { assert a[n..][i - n] != b[n..][i - n]; }
    }
  }

  lemma StructureIsUpToPadding(bs: seq<Byte>, t: Node)
    requires WellFormed(t) && t.typ == STRUCTURE && |bs| == Size(t)
    requires MatchesAll(bs[8..], t.children) <==>
             |bs[8..]| == |EncodeAll(t.children)| && SameButPaddingAll(bs[8..], EncodeAll(t.children), t.children)
    ensures Matches(bs, t) <==> EncodesUpToPadding(bs, t)
  {
    EncodedStructure(t);
    assert bs[8..8 + t.length] == bs[8..];
    StructureSplit(bs, Encode(t), t);
  }

  lemma EncodedStructure(t: Node)
    requires WellFormed(t) && t.typ == STRUCTURE
    ensures |Encode(t)| == Size(t) == 8 + t.length && t.length == |EncodeAll(t.children)|
    ensures Encode(t)[..8] == Header(t.tag, t.typ, t.length) && Encode(t)[8..] == EncodeAll(t.children)
  {
    EncodeSize(t);
    EncodeAllSize(t.children);
    SizeAllAligned(t.children);
  }

  lemma {:induction false} MatchesIsUpToPadding(bs: seq<Byte>, t: Node)
    requires WellFormed(t)
    ensures Matches(bs, t) <==> EncodesUpToPadding(bs, t)
    decreases t, 1
  {
    EncodeSize(t);
    if |bs| == Size(t) {
      var e := Encode(t);
      if t.typ == STRUCTURE {
        MatchesAllIsUpToPadding(bs[8..], t.children);
        StructureIsUpToPadding(bs, t);
      } else {
        assert e[8..8 + t.length] == t.value;
        PrimitiveSplit(bs, e, t);
      }
    }
  }

  lemma {:induction false} MatchesAllIsUpToPadding(bs: seq<Byte>, ts: seq<Node>)
    requires AllWellFormed(ts)
    ensures MatchesAll(bs, ts) <==> |bs| == |EncodeAll(ts)| && SameButPaddingAll(bs, EncodeAll(ts), ts)
    decreases ts, 0
  {
    EncodeAllSize(ts);
    MatchesAllSize(bs, ts);
    if ts != [] && |bs| == SizeAll(ts) {
      var n := Size(ts[0]);
      EncodeSize(ts[0]);
      EncodeAllSize(ts[1..]);
      MatchesIsUpToPadding(bs[..n], ts[0]);
      MatchesAllIsUpToPadding(bs[n..], ts[1..]);
      assert EncodeAll(ts)[..n] == Encode(ts[0]) && EncodeAll(ts)[n..] == EncodeAll(ts[1..]);
      ListSplit(bs, EncodeAll(ts), ts);
    }
  }

  lemma {:induction false} MatchesAllSize(bs: seq<Byte>, ts: seq<Node>)
    ensures MatchesAll(bs, ts) ==> |bs| == SizeAll(ts)
  {
    if ts != [] && Size(ts[0]) <= |bs| { MatchesAllSize(bs[Size(ts[0])..], ts[1..]); }
  }

  // ---------------------------------------------------------------- main theorems

  /**
   The parser decides the encoding: a frame is accepted with result t exactly when t is a
   well-formed tree within the limits and the frame is its encoding up to padding.
   */
  lemma ParseAcceptsExactlyEncodings(frame: seq<Byte>, limits: Limits, t: Node)
    ensures ParseFrame(frame, limits) == Accepted(t) <==>
            WellFormed(t) && Within(t, Normalize(limits)) && EncodesUpToPadding(frame, t)
  {
    var l := Normalize(limits);
    if ParseFrame(frame, limits) == Accepted(t) {
      ItemSound(l, frame, 1, 0);
      assert frame[..|frame|] == frame;
      MatchesIsUpToPadding(frame, t);
    } else if WellFormed(t) && Within(t, l) && EncodesUpToPadding(frame, t) {
      MatchesIsUpToPadding(frame, t);
      MatchesParse(l, frame, t);
    }
  }

  /** Parsing an encoding gives back exactly the tree when the limits admit it, and fails otherwise. */
  lemma ParseAfterEncode(t: Node, limits: Limits)
    requires WellFormed(t)
    ensures Within(t, Normalize(limits)) ==> ParseFrame(Encode(t), limits) == Accepted(t)
    ensures !Within(t, Normalize(limits)) ==> ParseFrame(Encode(t), limits).Rejected?
  {
    var r := ParseFrame(Encode(t), limits);
    ParseAcceptsExactlyEncodings(Encode(t), limits, t);
    if r.Accepted? {
      ParseAcceptsExactlyEncodings(Encode(t), limits, r.root);
      EncodingDetermines(Encode(t), r.root, t);
    }
  }

  /** A frame is an encoding, up to padding, of at most one well-formed tree. */
  lemma EncodingDetermines(frame: seq<Byte>, t: Node, u: Node)
    requires WellFormed(t) && WellFormed(u)
    requires EncodesUpToPadding(frame, t) && EncodesUpToPadding(frame, u)
    ensures t == u
  {
    MatchesIsUpToPadding(frame, t);
    MatchesIsUpToPadding(frame, u);
    MatchesDetermines(frame, t, u);
  }

  lemma MatchesDetermines(frame: seq<Byte>, t: Node, u: Node)
    requires WellFormed(t) && WellFormed(u)
    requires Matches(frame, t) && Matches(frame, u)
    ensures t == u
  {
    var wide := Limits(TWO_32 - 1, Nodes(t) + Nodes(u), Height(t) + Height(u));
    assert t.length <= LengthCap(wide) && u.length <= LengthCap(wide);
    assert Room(wide, t, 1, 0) && Room(wide, u, 1, 0);
    MatchesParse(wide, frame, t);
    MatchesParse(wide, frame, u);
  }

  /** Re-encoding an accepted frame keeps its length and every byte that is not padding. */
  lemma EncodeAfterParse(frame: seq<Byte>, limits: Limits, t: Node)
    requires ParseFrame(frame, limits) == Accepted(t)
    ensures |Encode(t)| == |frame| && |frame| % 8 == 0
    ensures SameButPadding(frame, Encode(t), t)
    ensures ParseFrame(Encode(t), limits) == Accepted(t)
  {
    ParseAcceptsExactlyEncodings(frame, limits, t);
    AdmittedEncoding(frame, limits, t);
  }

  lemma AdmittedEncoding(frame: seq<Byte>, limits: Limits, t: Node)
    requires WellFormed(t) && Within(t, Normalize(limits)) && EncodesUpToPadding(frame, t)
    ensures |frame| == |Encode(t)| && |frame| % 8 == 0
    ensures SameButPadding(frame, Encode(t), t)
    ensures ParseFrame(Encode(t), limits) == Accepted(t)
  {
    EncodeSize(t);
    ParseAfterEncode(t, limits);
  }

  lemma WithinBelow32Bits(t: Node, l: Limits)
    requires Size(t) <= l.maxFrameSize < TWO_32 && Nodes(t) <= l.maxFields && Height(t) <= l.maxDepth
    ensures Within(t, l) && t.length < TWO_32
  {}

  /**
   The uint32 conversion of MaxFrameSize never rejects a tree the frame limit would admit exactly
   when that conversion loses nothing: MaxFrameSize is below 2^32, or its low 32 bits are all ones.
   */
  lemma LengthCapHarmless(l: Limits)
    requires l.maxFrameSize > 0
    ensures (forall t: Node :: WellFormed(t) && Size(t) <= l.maxFrameSize ==> t.length <= LengthCap(l)) <==>
            l.maxFrameSize < TWO_32 || LengthCap(l) == TWO_32 - 1
  {
    var cap := LengthCap(l);
    if l.maxFrameSize >= TWO_32 && cap != TWO_32 - 1 {
      var t := Node(0, BYTE_STRING, cap + 1, Zeros(cap + 1), []);
      assert WellFormed(t) && Size(t) <= l.maxFrameSize && t.length > cap;
    }
  }
}
