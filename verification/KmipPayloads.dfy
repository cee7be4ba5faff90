/** What request payloads mean, said without the server's readers, and that the readers find exactly that. */
module KmipPayloads {
  import opened Bytes
  import opened Text
  import opened KmipMessages
  import opened KmipRequests
  import opened KmipServer
  import Ttlv

  // ---------------------------------------------------------------- identifiers

  /** The payload names this object: its first identifier, without the space around it, is not empty. */
  ghost predicate NamesObject(payload: Ttlv.Node, id: Text) {
    && payload.tag == REQUEST_PAYLOAD && payload.typ == Ttlv.STRUCTURE && id != []
    && exists u :: IsFirst(payload.children, UNIQUE_IDENTIFIER, u) && u.typ == Ttlv.TEXT_STRING && Trims(u.value, id)
  }

  lemma IdentifierExactly(payload: Ttlv.Node, id: Text)
    ensures IdentifierOf(payload) == Parsed(id) <==> NamesObject(payload, id)
    ensures IdentifierOf(payload) == Bad(REASON_INVALID_MESSAGE) <==>
            payload.tag != REQUEST_PAYLOAD || payload.typ != Ttlv.STRUCTURE
  {
    var first := FirstChild(payload.children, UNIQUE_IDENTIFIER);
    if first.Some? { TrimSpaceExactly(first.value.value, id); }
    if NamesObject(payload, id) {
      var u :| IsFirst(payload.children, UNIQUE_IDENTIFIER, u) && u.typ == Ttlv.TEXT_STRING && Trims(u.value, id);
      FirstChildExactly(payload.children, UNIQUE_IDENTIFIER, u);
    }
  }

  // ---------------------------------------------------------------- attribute names

  predicate IsLower(b: Byte) { 0x61 <= b <= 0x7a }

  predicate IsKey(key: Text) { forall k :: 0 <= k < |key| ==> IsLower(key[k]) || key[k] == 0x5f }

  /** The name is the key but for upper case, and spaces, dots and hyphens in place of underscores. */
  predicate SpellsKey(name: Text, key: Text) {
    && |name| == |key|
    && forall k :: 0 <= k < |key| ==>
         || name[k] == key[k]
         || (IsLower(key[k]) && name[k] == key[k] - 0x20)
         || (key[k] == 0x5f && name[k] in {0x20, 0x2d, 0x2e})
  }

  lemma NormalizedNameExactly(name: Text, key: Text)
    requires IsKey(key)
    ensures NormalizedName(name) == key <==> SpellsKey(name, key)
  {
    if |name| == |key| {
      forall k | 0 <= k < |key|
        ensures NormalizedByte(name[k]) == key[k] <==>
                || name[k] == key[k] || (IsLower(key[k]) && name[k] == key[k] - 0x20)
                || (key[k] == 0x5f && name[k] in {0x20, 0x2d, 0x2e}) {}
      if NormalizedName(name) == key {
        forall k | 0 <= k < |key| ensures NormalizedByte(name[k]) == key[k] {
          assert NormalizedName(name)[k] == key[k];
        }
      }
    }
  }

  const ALGORITHM_KEY: Text := Ascii("cryptographic_algorithm")
  const LENGTH_KEY: Text := Ascii("cryptographic_length")

  predicate IsKeyword(s: string) { forall k :: 0 <= k < |s| ==> 'a' <= s[k] <= 'z' || s[k] == '_' }

  lemma KeywordIsKey(s: string)
    requires IsKeyword(s)
    ensures IsKey(Ascii(s))
  {
  }

  lemma AlgorithmKeyword()
    ensures IsKeyword("cryptographic_algorithm")
  {
  }

  lemma LengthKeyword()
    ensures IsKeyword("cryptographic_length")
  {
  }

  lemma KeysAreKeys()
    ensures IsKey(ALGORITHM_KEY) && IsKey(LENGTH_KEY) && ALGORITHM_KEY != LENGTH_KEY
  {
    AlgorithmKeyword();
    KeywordIsKey("cryptographic_algorithm");
    LengthKeyword();
    KeywordIsKey("cryptographic_length");
    assert |"cryptographic_algorithm"| != |"cryptographic_length"|;
  }

  /** An attribute whose name spells the key, with its value. */
  ghost predicate Attribute(t: Ttlv.Node, key: Text, value: Ttlv.Node) {
    && t.tag == ATTRIBUTE && t.typ == Ttlv.STRUCTURE
    && IsFirst(t.children, ATTRIBUTE_VALUE, value)
    && exists name :: IsFirst(t.children, ATTRIBUTE_NAME, name) && name.typ == Ttlv.TEXT_STRING
                      && SpellsKey(name.value, key)
  }

  lemma AttributeExactly(t: Ttlv.Node, key: Text, value: Ttlv.Node)
    requires IsKey(key)
    ensures AttributeOf(t) == Some((key, value)) <==> Attribute(t, key, value)
  {
    FirstChildExactly(t.children, ATTRIBUTE_VALUE, value);
    var first := FirstChild(t.children, ATTRIBUTE_NAME);
    if first.Some? { NormalizedNameExactly(first.value.value, key); }
    if Attribute(t, key, value) {
      var name :| IsFirst(t.children, ATTRIBUTE_NAME, name) && name.typ == Ttlv.TEXT_STRING
                  && SpellsKey(name.value, key);
      FirstChildExactly(t.children, ATTRIBUTE_NAME, name);
    }
  }

  // ---------------------------------------------------------------- create

  /** The attribute sets the key, in the given type, to this number; lengths are unsigned, algorithms are not. */
  ghost predicate Sets(t: Ttlv.Node, key: Text, typ: Byte, v: int) {
    exists value :: Attribute(t, key, value) && value.typ == typ && value.value == PutU32(v)
  }

  /** The last attribute to set the key sets it to this. */
  ghost predicate LastSets(ts: seq<Ttlv.Node>, key: Text, typ: Byte, v: int) {
    exists i :: 0 <= i < |ts| && Sets(ts[i], key, typ, v) && forall j, w :: i < j < |ts| ==> !Sets(ts[j], key, typ, w)
  }

  ghost predicate NeverSet(ts: seq<Ttlv.Node>, key: Text, typ: Byte) {
    forall i, w :: 0 <= i < |ts| ==> !Sets(ts[i], key, typ, w)
  }

  /** The algorithm and length these attributes ask for: the last of each, or AES and 256. */
  ghost predicate Describe(ts: seq<Ttlv.Node>, spec: KeySpec) {
    && (LastSets(ts, ALGORITHM_KEY, Ttlv.ENUMERATION, spec.algorithm)
        || (NeverSet(ts, ALGORITHM_KEY, Ttlv.ENUMERATION) && spec.algorithm == ALGORITHM_AES))
    && (LastSets(ts, LENGTH_KEY, Ttlv.INTEGER, spec.length)
        || (NeverSet(ts, LENGTH_KEY, Ttlv.INTEGER) && spec.length == 256))
    && IsInt32(spec.algorithm) && spec.length < TWO_32
  }

  lemma NumberValue(value: Ttlv.Node, v: int)
    requires value.value == PutU32(v)
    ensures |value.value| == 4 && U32(value.value) == v % TWO_32
  {
    U32AfterPut(v);
  }

  /** An attribute that sets neither leaves the specification alone; one that sets it decides. */
  lemma OneAttribute(spec: KeySpec, t: Ttlv.Node)
    ensures var r := WithAttribute(spec, t);
      && r.objectType == spec.objectType
      && (forall v :: IsInt32(v) && Sets(t, ALGORITHM_KEY, Ttlv.ENUMERATION, v) ==> r.algorithm == v)
      && (forall v :: 0 <= v < TWO_32 && Sets(t, LENGTH_KEY, Ttlv.INTEGER, v) ==> r.length == v)
      && (r.algorithm == spec.algorithm || Sets(t, ALGORITHM_KEY, Ttlv.ENUMERATION, r.algorithm))
      && (r.length == spec.length || Sets(t, LENGTH_KEY, Ttlv.INTEGER, r.length))
      && (IsInt32(spec.algorithm) ==> IsInt32(r.algorithm)) && (spec.length < TWO_32 ==> r.length < TWO_32)
  {
    KeysAreKeys();
    var r := WithAttribute(spec, t);
    forall v | IsInt32(v) && Sets(t, ALGORITHM_KEY, Ttlv.ENUMERATION, v) ensures r.algorithm == v {
      var value :| Attribute(t, ALGORITHM_KEY, value) && value.typ == Ttlv.ENUMERATION && value.value == PutU32(v);
      AttributeExactly(t, ALGORITHM_KEY, value);
      NumberBytes(value.value, v);
    }
    forall v | 0 <= v < TWO_32 && Sets(t, LENGTH_KEY, Ttlv.INTEGER, v) ensures r.length == v {
      var value :| Attribute(t, LENGTH_KEY, value) && value.typ == Ttlv.INTEGER && value.value == PutU32(v);
      AttributeExactly(t, LENGTH_KEY, value);
      NumberValue(value, v);
    }
    ChangedIsSet(spec, t);
  }

  lemma ChangedIsSet(spec: KeySpec, t: Ttlv.Node)
    ensures var r := WithAttribute(spec, t);
      && (r.algorithm == spec.algorithm || Sets(t, ALGORITHM_KEY, Ttlv.ENUMERATION, r.algorithm))
      && (r.length == spec.length || Sets(t, LENGTH_KEY, Ttlv.INTEGER, r.length))
  {
    KeysAreKeys();
    var attr := AttributeOf(t);
    if attr.Some? && |attr.value.1.value| == 4 {
      var (key, value) := attr.value;
      PutAfterU32(value.value);
      if key == ALGORITHM_KEY {
        AttributeExactly(t, key, value);
        NumberBytes(value.value, AsI32(U32(value.value)));
      }
      if key == LENGTH_KEY { AttributeExactly(t, key, value); }
    }
  }

  lemma {:induction false} AttributesDescribe(typ: int, ts: seq<Ttlv.Node>)
    ensures var r := WithAttributes(KeySpec(typ, ALGORITHM_AES, 256), ts); r.objectType == typ && Describe(ts, r)
  {
    var base := KeySpec(typ, ALGORITHM_AES, 256);
    if ts != [] {
      var n := |ts| - 1;
      var init, last := ts[..n], ts[n];
      var before, r := WithAttributes(base, init), WithAttributes(base, ts);
      AttributesDescribe(typ, init);
      OneAttribute(before, last);
      OneMoreSet(ts, last, ALGORITHM_KEY, Ttlv.ENUMERATION, before.algorithm, r.algorithm, ALGORITHM_AES, -TWO_31,
                 TWO_31);
      OneMoreSet(ts, last, LENGTH_KEY, Ttlv.INTEGER, before.length, r.length, 256, 0, TWO_32);
    }
  }

  /** Numbers with the same four bytes are the same in either range. */
  lemma SetsOnce(t: Ttlv.Node, key: Text, typ: Byte, v: int)
    requires Sets(t, key, typ, v)
    ensures Sets(t, key, typ, AsI32(v % TWO_32)) && Sets(t, key, typ, v % TWO_32)
  {
    var value :| Attribute(t, key, value) && value.typ == typ && value.value == PutU32(v);
    assert PutU32(AsI32(v % TWO_32)) == PutU32(v) == PutU32(v % TWO_32);
  }

  lemma OneMoreSet(ts: seq<Ttlv.Node>, last: Ttlv.Node, key: Text, typ: Byte, before: int, after: int, default: int,
                   lo: int, hi: int)
    requires ts != [] && last == ts[|ts| - 1] && (lo, hi) in {(-TWO_31, TWO_31), (0, TWO_32)}
    requires var init := ts[..|ts| - 1];
             LastSets(init, key, typ, before) || (NeverSet(init, key, typ) && before == default)
    requires forall v :: lo <= v < hi && Sets(last, key, typ, v) ==> after == v
    requires after == before || Sets(last, key, typ, after)
    ensures LastSets(ts, key, typ, after) || (NeverSet(ts, key, typ) && after == default)
  {
    var n := |ts| - 1;
    if w :| Sets(ts[n], key, typ, w) {
      SetsOnce(ts[n], key, typ, w);
      assert Sets(ts[n], key, typ, after);
      assert LastSets(ts, key, typ, after);
    } else if LastSets(ts[..n], key, typ, before) {
      var i :| 0 <= i < n && Sets(ts[..n][i], key, typ, before)
               && forall j, w :: i < j < n ==> !Sets(ts[..n][j], key, typ, w);
      forall j, w | i < j < |ts| ensures !Sets(ts[j], key, typ, w) {
        if j < n { assert ts[..n][j] == ts[j]; }
      }
      assert Sets(ts[i], key, typ, after);
    } else {
      forall i, w | 0 <= i < |ts| ensures !Sets(ts[i], key, typ, w) {
        if i < n { assert ts[..n][i] == ts[i]; }
      }
    }
  }

  /** The attributes of the first template, if that is a structure. */
  ghost predicate Template(payload: Ttlv.Node, ts: seq<Ttlv.Node>) {
    if exists t :: IsFirst(payload.children, TEMPLATE_ATTRIBUTE, t) && t.typ == Ttlv.STRUCTURE then
      exists t :: IsFirst(payload.children, TEMPLATE_ATTRIBUTE, t) && t.typ == Ttlv.STRUCTURE && t.children == ts
    else ts == []
  }

  lemma TemplateExactly(payload: Ttlv.Node)
    ensures Template(payload, TemplateAttributes(payload))
  {
    var first := FirstChild(payload.children, TEMPLATE_ATTRIBUTE);
    if t :| IsFirst(payload.children, TEMPLATE_ATTRIBUTE, t) && t.typ == Ttlv.STRUCTURE {
      FirstChildExactly(payload.children, TEMPLATE_ATTRIBUTE, t);
    }
  }

  /** A create payload asks for this type of object, with the algorithm and length its template describes. */
  lemma CreateSpecMeaning(payload: Ttlv.Node)
    ensures var r := CreateSpecOf(payload);
      if payload.tag != REQUEST_PAYLOAD || payload.typ != Ttlv.STRUCTURE then r == Bad(REASON_INVALID_MESSAGE)
      else if !exists v :: Carries(payload.children, OBJECT_TYPE, Ttlv.ENUMERATION, v) then
        r == Bad(REASON_INVALID_FIELD)
      else
        && r.Parsed? && Carries(payload.children, OBJECT_TYPE, Ttlv.ENUMERATION, r.value.objectType)
        && exists ts :: Template(payload, ts) && Describe(ts, r.value)
  {
    var typ := EnumChild(payload, OBJECT_TYPE);
    forall v ensures typ == Some(v) <==> Carries(payload.children, OBJECT_TYPE, Ttlv.ENUMERATION, v) {
      Int32ChildExactly(payload, OBJECT_TYPE, Ttlv.ENUMERATION, v);
    }
    if typ.Some? {
      TemplateExactly(payload);
      AttributesDescribe(typ.value, TemplateAttributes(payload));
    }
  }

  // ---------------------------------------------------------------- locate

  ghost predicate HasAttribute(t: Ttlv.Node, key: Text) {
    exists value :: Attribute(t, key, value)
  }

  /** The first attribute of the key is at i. */
  ghost predicate FirstNamed(ts: seq<Ttlv.Node>, key: Text, i: nat) {
    i < |ts| && HasAttribute(ts[i], key) && forall j :: 0 <= j < i ==> !HasAttribute(ts[j], key)
  }

  lemma {:induction false} FilterAt(ts: seq<Ttlv.Node>, i: nat)
    requires FirstNamed(ts, ALGORITHM_KEY, i)
    ensures LocateFilter(ts) == if Sets(ts[i], ALGORITHM_KEY, Ttlv.ENUMERATION, ALGORITHM_AES) then Parsed(Ascii("AES"))
                                else Bad(REASON_INVALID_FIELD)
  {
    FilterHere(ts);
    if i > 0 {
      forall j | 0 <= j < i - 1 ensures !HasAttribute(ts[1..][j], ALGORITHM_KEY) { assert ts[1..][j] == ts[j + 1]; }
      FilterAt(ts[1..], i - 1);
    }
  }

  lemma {:induction false} FilterNothing(ts: seq<Ttlv.Node>)
    requires forall i :: 0 <= i < |ts| ==> !HasAttribute(ts[i], ALGORITHM_KEY)
    ensures LocateFilter(ts) == Parsed([])
  {
    if ts != [] {
      FilterHere(ts);
      FilterNothing(ts[1..]);
    }
  }

  lemma FilterHere(ts: seq<Ttlv.Node>)
    requires ts != []
    ensures !HasAttribute(ts[0], ALGORITHM_KEY) ==> LocateFilter(ts) == LocateFilter(ts[1..])
    ensures HasAttribute(ts[0], ALGORITHM_KEY) ==>
              LocateFilter(ts) ==
                if Sets(ts[0], ALGORITHM_KEY, Ttlv.ENUMERATION, ALGORITHM_AES) then Parsed(Ascii("AES"))
                else Bad(REASON_INVALID_FIELD)
  {
    KeysAreKeys();
    var attr := AttributeOf(ts[0]);
    if attr.Some? && attr.value.0 == ALGORITHM_KEY {
      AttributeExactly(ts[0], ALGORITHM_KEY, attr.value.1);
      if |attr.value.1.value| == 4 { NumberBytes(attr.value.1.value, ALGORITHM_AES); }
    }
    if HasAttribute(ts[0], ALGORITHM_KEY) {
      var value :| Attribute(ts[0], ALGORITHM_KEY, value);
      AttributeExactly(ts[0], ALGORITHM_KEY, value);
    }
    if Sets(ts[0], ALGORITHM_KEY, Ttlv.ENUMERATION, ALGORITHM_AES) {
      var value :| Attribute(ts[0], ALGORITHM_KEY, value) && value.typ == Ttlv.ENUMERATION
                   && value.value == PutU32(ALGORITHM_AES);
      AttributeExactly(ts[0], ALGORITHM_KEY, value);
    }
  }

  /** The template of a locate payload asks for the AES objects, for what is not served, or for every object. */
  ghost predicate Filters(ts: seq<Ttlv.Node>, r: Payload<Text>) {
    || (exists i: nat :: FirstNamed(ts, ALGORITHM_KEY, i)
          && r == if Sets(ts[i], ALGORITHM_KEY, Ttlv.ENUMERATION, ALGORITHM_AES) then Parsed(Ascii("AES"))
                  else Bad(REASON_INVALID_FIELD))
    || ((forall i :: 0 <= i < |ts| ==> !HasAttribute(ts[i], ALGORITHM_KEY)) && r == Parsed([]))
  }

  lemma FilterMeaning(ts: seq<Ttlv.Node>)
    ensures Filters(ts, LocateFilter(ts))
  {
    if k :| 0 <= k < |ts| && HasAttribute(ts[k], ALGORITHM_KEY) {
      var i := EarliestNamed(ts, k);
      FilterAt(ts, i);
    } else {
      FilterNothing(ts);
    }
  }

  lemma {:induction false} EarliestNamed(ts: seq<Ttlv.Node>, k: nat) returns (i: nat)
    requires k < |ts| && HasAttribute(ts[k], ALGORITHM_KEY)
    ensures FirstNamed(ts, ALGORITHM_KEY, i)
  {
    if j :| 0 <= j < k && HasAttribute(ts[j], ALGORITHM_KEY) { i := EarliestNamed(ts, j); } else { i := k; }
  }

  /** No payload asks for every object, a payload for what its template filters. */
  lemma LocateMeaning(payload: Ttlv.Node)
    ensures var r := LocateAlgorithmOf(payload);
      if payload.tag == 0 then r == Parsed([])
      else if payload.tag != REQUEST_PAYLOAD || payload.typ != Ttlv.STRUCTURE then r == Bad(REASON_INVALID_MESSAGE)
      else exists ts :: Template(payload, ts) && Filters(ts, r)
  {
    TemplateExactly(payload);
    FilterMeaning(TemplateAttributes(payload));
  }
}
