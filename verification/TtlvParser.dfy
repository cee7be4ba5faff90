/** The TTLV parser and item encoder in the form ee/kmip runs them: a shared counter and buffers. */
module TtlvParser {
  import opened Bytes
  import opened Ttlv

  /** A list result with nodes already read put in front of it. */
  function Prepend(nodes: seq<Node>, r: ParseList): (s: ParseList) {
    match r
    case OkAll(more, f) => OkAll(nodes + more, f)
    case ErrAll(e, f) => ErrAll(e, f)
  }

  /** One turn of the loop over a structure's value. */
  lemma OneChild(l: Limits, value: seq<Byte>, off: nat, depth: nat, fields: nat, children: seq<Node>)
    requires off < |value|
    ensures var rest := ParseItems(l, value[off..], depth, fields);
      match ParseItem(l, value[off..], depth, fields)
      case Err(e, f) => rest == ErrAll(e, f)
      case Ok(node, n, f) =>
        && off + n <= |value|
        && Prepend(children, rest) == Prepend(children + [node], ParseItems(l, value[off + n..], depth, f))
  {
    var child := ParseItem(l, value[off..], depth, fields);
    if child.Ok? {
      assert value[off..][child.n..] == value[off + child.n..];
      var more := ParseItems(l, value[off + child.n..], depth, child.fields);
      if more.OkAll? { assert children + ([child.node] + more.nodes) == children + [child.node] + more.nodes; }
    }
  }

  class Parser {
    const limits: Limits
    var fields: nat

    constructor (limits: Limits)
      ensures this.limits == limits && fields == 0
    {
      this.limits := limits;
      fields := 0;
    }

    /** parseItem: one item from the front of the frame, counting into fields. */
    method Item(frame: seq<Byte>, depth: nat) returns (r: Parse)
      modifies this
      ensures r == ParseItem(limits, frame, depth, old(fields))
      ensures fields == r.fields
      decreases |frame|, 0
    {
      if depth > limits.maxDepth { return Err(TooDeep, fields); }
      if |frame| < 8 { return Err(TruncatedHeader, fields); }
      fields := fields + 1;
      if fields > limits.maxFields { return Err(TooManyFields, fields); }

      var tag := HeaderTag(frame);
      var typ := frame[3];
      var length := HeaderLength(frame);
      if length > LengthCap(limits) { return Err(LengthOverCap, fields); }
      var total := 8 + length + Padding(length);
      if total > |frame| { return Err(LengthOverFrame, fields); }

      var value := frame[8..8 + length];
      if typ == STRUCTURE {
        var children := Children(value, depth + 1);
        if children.ErrAll? { return Err(children.error, fields); }
        return Ok(Node(tag, typ, length, [], children.nodes), total, fields);
      } else if IsFourByteType(typ) {
        if length != 4 { return Err(WrongLength, fields); }
        return Ok(Node(tag, typ, length, value, []), total, fields);
      } else if IsEightByteType(typ) {
        if length != 8 { return Err(WrongLength, fields); }
        return Ok(Node(tag, typ, length, value, []), total, fields);
      } else if IsVariableType(typ) {
        return Ok(Node(tag, typ, length, value, []), total, fields);
      } else {
        return Err(UnsupportedType, fields);
      }
    }

    /** The loop of parseItem over a structure's value. */
    method Children(value: seq<Byte>, depth: nat) returns (r: ParseList)
      modifies this
      ensures r == ParseItems(limits, value, depth, old(fields))
      ensures fields == r.fields
      decreases |value|, 1
    {
      var children, off := [], 0;
      while off < |value|
        invariant 0 <= off <= |value|
        invariant ParseItems(limits, value, depth, old(fields)) ==
                  Prepend(children, ParseItems(limits, value[off..], depth, fields))
      {
        ghost var before := fields;
        var child := Item(value[off..], depth);
        OneChild(limits, value, off, depth, before, children);
        if child.Err? { return ErrAll(child.error, fields); }
        off := off + child.n;
        children := children + [child.node];
      }
      return OkAll(children, fields);
    }
  }

  /** ParseTTLVWithLimits. */
  method ParseWithLimits(frame: seq<Byte>, limits: Limits) returns (r: Frame)
    ensures r == ParseFrame(frame, limits)
    ensures r.Accepted? ==>
      WellFormed(r.root) && Within(r.root, Normalize(limits)) && EncodesUpToPadding(frame, r.root)
  {
    var l := Normalize(limits);
    if |frame| == 0 { return Rejected(EmptyFrame); }
    if |frame| > l.maxFrameSize { return Rejected(FrameOverCap); }
    var p := new Parser(l);
    var item := p.Item(frame, 1);
    if item.Err? { return Rejected(item.error); }
    if item.n != |frame| { return Rejected(TrailingBytes); }
    r := Accepted(item.node);
    ParseAcceptsExactlyEncodings(frame, limits, item.node);
  }

  method FillHeader(out: array<Byte>, tag: nat, typ: Byte, length: nat)
    requires out.Length >= 8
    modifies out
    ensures out[..8] == Header(tag, typ, length)
    ensures forall j :: 8 <= j < out.Length ==> out[j] == old(out[j])
  {
    out[0] := tag / TWO_16 % TWO_8;
    out[1] := tag / TWO_8 % TWO_8;
    out[2] := tag % TWO_8;
    out[3] := typ;
    var bytes := PutU32(length);
    for i := 0 to 4
      invariant out[..4] == Header(tag, typ, length)[..4]
      invariant forall j :: 0 <= j < i ==> out[4 + j] == bytes[j]
      invariant forall j :: 8 <= j < out.Length ==> out[j] == old(out[j])
    {
      out[4 + i] := bytes[i];
    }
  }

  /** encodeItem: a zeroed buffer filled in place. */
  method FillItem(tag: nat, typ: Byte, value: seq<Byte>) returns (out: array<Byte>)
    ensures fresh(out) && out[..] == EncodeItem(tag, typ, value)
  {
    out := new Byte[8 + |value| + Padding(|value|)](_ => 0);
    FillHeader(out, tag, typ, |value|);
    for i := 0 to |value|
      invariant out[..8] == Header(tag, typ, |value|)
      invariant forall j :: 0 <= j < i ==> out[8 + j] == value[j]
      invariant forall j :: 8 + |value| <= j < out.Length ==> out[j] == 0
    {
      out[8 + i] := value[i];
    }
    assert out[8..8 + |value|] == value;
    assert out[8 + |value|..] == Zeros(Padding(|value|));
    assert out[..] == out[..8] + out[8..8 + |value|] + out[8 + |value|..];
  }
}
