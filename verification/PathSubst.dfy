/**
 Filling the placeholders of a route template (internal/api, mcpRESTPath): each {name} is replaced, one name
 after another, by the escaped value given for it.
 */
module PathSubst {
  import opened Bytes
  import opened Text

  const OPEN: Byte := 123
  const CLOSE: Byte := 125
  const SLASH: Byte := 47
  const PERCENT: Byte := 37

  // ---------------------------------------------------------------- escaping

  predicate IsAlnum(b: Byte) { 48 <= b <= 57 || 65 <= b <= 90 || 97 <= b <= 122 }

  /** Kept as they are in a path segment: letters, digits and - _ . ~ $ & + : = @ */
  predicate IsPlain(b: Byte) { IsAlnum(b) || b in {45, 95, 46, 126, 36, 38, 43, 58, 61, 64} }

  function HexDigit(n: int): (b: Byte)
    requires 0 <= n < 16
    ensures IsAlnum(b) && b == "0123456789ABCDEF"[n] as int
  {
    if n < 10 then 48 + n else 55 + n
  }

  function EscapeByte(b: Byte): (t: Text) {
    if IsPlain(b) then [b] else [PERCENT, HexDigit(b / 16), HexDigit(b % 16)]
  }

  /** url.PathEscape: what comes out has no brace and no slash. */
  function PathEscape(t: Text): (r: Text)
    ensures Free(r, OPEN) && Free(r, CLOSE) && Free(r, SLASH)
  {
    if t == [] then [] else EscapeByte(t[0]) + PathEscape(t[1..])
  }

  function HexValue(b: Byte): (n: int)
    ensures 0 <= n < 16
  {
    if 48 <= b <= 57 then b - 48 else if 65 <= b <= 70 then b - 55 else 0
  }

  function Unescape(t: Text): (r: Text) {
    if t == [] then []
    else if t[0] == PERCENT && |t| >= 3 then [HexValue(t[1]) * 16 + HexValue(t[2])] + Unescape(t[3..])
    else [t[0]] + Unescape(t[1..])
  }

  lemma PlainBytes(b: Byte)
    ensures IsPlain(b) <==> IsAlnum(b) || b as char in "-_.~$&+:=@"
  {
    var s := "-_.~$&+:=@";
    assert s == ['-', '_', '.', '~', '$', '&', '+', ':', '=', '@'];
  }

  /** Nothing of a value is lost in escaping it. */
  lemma {:induction false} UnescapeAfterEscape(t: Text)
    ensures Unescape(PathEscape(t)) == t
  {
    if t != [] {
      var e, rest := EscapeByte(t[0]), PathEscape(t[1..]);
      UnescapeAfterEscape(t[1..]);
      assert (e + rest)[|e|..] == rest;
      if !IsPlain(t[0]) {
        assert HexValue(HexDigit(t[0] / 16)) == t[0] / 16 && HexValue(HexDigit(t[0] % 16)) == t[0] % 16;
      }
      assert t == [t[0]] + t[1..];
    }
  }

  // ---------------------------------------------------------------- strings

  predicate Free(t: Text, b: Byte) { forall k :: 0 <= k < |t| ==> t[k] != b }

  function IndexFrom(t: Text, b: Byte, from: nat): (i: int)
    requires from <= |t|
    ensures i == -1 || from <= i < |t|
    ensures if i == -1 then forall k :: from <= k < |t| ==> t[k] != b
            else t[i] == b && forall k :: from <= k < i ==> t[k] != b
    decreases |t| - from
  {
    if from == |t| then -1 else if t[from] == b then from else IndexFrom(t, b, from + 1)
  }

  /** strings.IndexByte: the first place a byte is at, or -1. */
  function IndexByte(t: Text, b: Byte): (i: int)
    ensures i == -1 || 0 <= i < |t|
    ensures if i == -1 then Free(t, b) else t[i] == b && Free(t[..i], b)
  {
    IndexFrom(t, b, 0)
  }

  /** strings.ReplaceAll for a non-empty pattern. */
  function ReplaceAll(s: Text, pattern: Text, value: Text): (r: Text)
    requires pattern != []
    decreases |s|
  {
    if s == [] then []
    else if pattern <= s then value + ReplaceAll(s[|pattern|..], pattern, value)
    else [s[0]] + ReplaceAll(s[1..], pattern, value)
  }

  // ---------------------------------------------------------------- templates

  datatype Piece = Lit(text: Text) | Hole(name: Text)

  /** Literals and placeholders in turn, and at the end perhaps a brace that is never closed. */
  datatype Template = Template(pieces: seq<Piece>, tail: Text)

  function RenderPiece(p: Piece): (t: Text) {
    match p
    case Lit(text) => text
    case Hole(name) => [OPEN] + name + [CLOSE]
  }

  function RenderPieces(ps: seq<Piece>): (t: Text) {
    if ps == [] then [] else RenderPiece(ps[0]) + RenderPieces(ps[1..])
  }

  function Render(t: Template): (r: Text) { RenderPieces(t.pieces) + t.tail }

  predicate PieceOk(p: Piece) {
    match p
    case Lit(text) => Free(text, OPEN)
    case Hole(name) => Free(name, CLOSE)
  }

  predicate PiecesOk(ps: seq<Piece>) { forall i :: 0 <= i < |ps| ==> PieceOk(ps[i]) }

  predicate TemplateOk(t: Template) { PiecesOk(t.pieces) && Free(t.tail, CLOSE) }

  function Parse(text: Text): (t: Template)
    decreases |text|
  {
    var start := IndexByte(text, OPEN);
    if start < 0 then Template([Lit(text)], [])
    else
      var rest := text[start + 1..];
      var end := IndexByte(rest, CLOSE);
      if end < 0 then Template([Lit(text[..start])], text[start..])
      else
        var more := Parse(rest[end + 1..]);
        Template([Lit(text[..start]), Hole(rest[..end])] + more.pieces, more.tail)
  }

  lemma Regroup(a: Text, b: Text, c: Text, d: Text)
    ensures (a + (b + c)) + d == a + b + (c + d)
  {
  }

  lemma RenderTwo(a: Piece, b: Piece, t: Template)
    ensures Render(Template([a, b] + t.pieces, t.tail)) == RenderPiece(a) + RenderPiece(b) + Render(t)
  {
    var all := [a, b] + t.pieces;
    assert all[0] == a && all[1..] == [b] + t.pieces;
    assert ([b] + t.pieces)[1..] == t.pieces;
    assert RenderPieces([b] + t.pieces) == RenderPiece(b) + RenderPieces(t.pieces);
    Regroup(RenderPiece(a), RenderPiece(b), RenderPieces(t.pieces), t.tail);
  }

  lemma RenderOne(a: Piece, tail: Text)
    ensures Render(Template([a], tail)) == RenderPiece(a) + tail
  {
    assert RenderPieces([a][1..]) == [];
  }

  lemma CutAtBraces(text: Text, start: nat, end: nat)
    requires start < |text| && text[start] == OPEN && start + 1 + end < |text| && text[start + 1 + end] == CLOSE
    ensures var rest := text[start + 1..];
            text == text[..start] + ([OPEN] + rest[..end] + [CLOSE]) + rest[end + 1..]
  {
  }

  lemma PiecesOkTwo(a: Piece, b: Piece, ps: seq<Piece>)
    requires PieceOk(a) && PieceOk(b) && PiecesOk(ps)
    ensures PiecesOk([a, b] + ps)
  {
  }

  /** A text with a placeholder is its first literal, that placeholder and the rest. */
  lemma ParseFirst(text: Text, start: nat, end: nat)
    requires start == IndexByte(text, OPEN) && end == IndexByte(text[start + 1..], CLOSE)
    ensures var rest := text[start + 1..];
            var more := Parse(rest[end + 1..]);
            Parse(text) == Template([Lit(text[..start]), Hole(rest[..end])] + more.pieces, more.tail)
  {
  }

  lemma RenderFirst(text: Text, start: nat, end: nat)
    requires start == IndexByte(text, OPEN) && end == IndexByte(text[start + 1..], CLOSE)
    requires var after := text[start + 1..][end + 1..]; Render(Parse(after)) == after && TemplateOk(Parse(after))
    ensures Render(Parse(text)) == text && TemplateOk(Parse(text))
  {
    var rest := text[start + 1..];
    var lit, hole, more := Lit(text[..start]), Hole(rest[..end]), Parse(rest[end + 1..]);
    ParseFirst(text, start, end);
    RenderTwo(lit, hole, more);
    PiecesOkTwo(lit, hole, more.pieces);
    CutAtBraces(text, start, end);
  }

  lemma RenderLast(text: Text)
    requires var start := IndexByte(text, OPEN); start < 0 || IndexByte(text[start + 1..], CLOSE) < 0
    ensures Render(Parse(text)) == text && TemplateOk(Parse(text))
  {
    var start := IndexByte(text, OPEN);
    if start < 0 { RenderOne(Lit(text), []); } else { RenderUnclosed(text, start); }
  }

  lemma RenderUnclosed(text: Text, start: nat)
    requires start == IndexByte(text, OPEN) && IndexByte(text[start + 1..], CLOSE) < 0
    ensures Render(Parse(text)) == text && TemplateOk(Parse(text))
  {
    ParseUnclosed(text, start);
    UnclosedIs(text, start);
  }

  lemma ParseUnclosed(text: Text, start: nat)
    requires start == IndexByte(text, OPEN) && IndexByte(text[start + 1..], CLOSE) < 0
    ensures Parse(text) == Template([Lit(text[..start])], text[start..])
  {
  }

  lemma UnclosedIs(text: Text, start: nat)
    requires start < |text| && text[start] == OPEN && Free(text[..start], OPEN) && Free(text[start + 1..], CLOSE)
    ensures var t := Template([Lit(text[..start])], text[start..]); Render(t) == text && TemplateOk(t)
  {
    RenderOne(Lit(text[..start]), text[start..]);
    assert text[..start] + text[start..] == text;
    assert text[start..] == [OPEN] + text[start + 1..];
  }

  /** Every text is a template, in the way the braces in it say. */
  lemma {:induction false} RenderAfterParse(text: Text)
    ensures Render(Parse(text)) == text && TemplateOk(Parse(text))
    decreases |text|
  {
    var start := IndexByte(text, OPEN);
    if start < 0 || IndexByte(text[start + 1..], CLOSE) < 0 {
      RenderLast(text);
    } else {
      var end := IndexByte(text[start + 1..], CLOSE);
      RenderAfterParse(text[start + 1..][end + 1..]);
      RenderFirst(text, start, end);
    }
  }

  // ---------------------------------------------------------------- names

  /** The placeholders' names in order, without surrounding space; an empty one is no name. */
  function NamesIn(ps: seq<Piece>): (names: seq<Text>) {
    if ps == [] then []
    else
      (match ps[0]
       case Lit(_) => []
       case Hole(name) => if TrimSpace(name) == [] then [] else [TrimSpace(name)])
      + NamesIn(ps[1..])
  }

  lemma NamesInTwo(lit: Piece, hole: Piece, ps: seq<Piece>)
    requires lit.Lit? && hole.Hole?
    ensures NamesIn([lit, hole] + ps) ==
            (if TrimSpace(hole.name) == [] then [] else [TrimSpace(hole.name)]) + NamesIn(ps)
  {
    var all := [lit, hole] + ps;
    assert all[0] == lit && all[1..] == [hole] + ps;
    assert ([hole] + ps)[1..] == ps;
  }

  function Names(text: Text): (names: seq<Text>) { NamesIn(Parse(text).pieces) }

  lemma NoNames(text: Text)
    requires var start := IndexByte(text, OPEN); start < 0 || IndexByte(text[start + 1..], CLOSE) < 0
    ensures Names(text) == []
  {
    assert NamesIn(Parse(text).pieces[1..]) == [];
  }

  lemma NamesFirst(text: Text, start: nat, end: nat)
    requires start == IndexByte(text, OPEN) && end == IndexByte(text[start + 1..], CLOSE)
    ensures var name := TrimSpace(text[start + 1..][..end]);
            Names(text) == (if name == [] then [] else [name]) + Names(text[start + 1..][end + 1..])
  {
    ParseFirst(text, start, end);
    var rest := text[start + 1..];
    NamesInTwo(Lit(text[..start]), Hole(rest[..end]), Parse(rest[end + 1..]).pieces);
  }

  method ParamNames(template: Text) returns (names: seq<Text>)
    ensures names == Names(template)
  {
    names := [];
    var rest := template;
    while true
      invariant Names(template) == names + Names(rest)
      decreases |rest|
    {
      ghost var text := rest;
      var start := IndexByte(rest, OPEN);
      if start < 0 {
        NoNames(text);
        return;
      }
      rest := rest[start + 1..];
      var end := IndexByte(rest, CLOSE);
      if end < 0 {
        NoNames(text);
        return;
      }
      NamesFirst(text, start, end);
      var name := TrimSpace(rest[..end]);
      if name != [] { names := names + [name]; }
      rest := rest[end + 1..];
    }
  }

  // ---------------------------------------------------------------- one replacement

  function Marker(name: Text): (t: Text)
    ensures t != []
  {
    [OPEN] + name + [CLOSE]
  }

  /** Every placeholder with a value in m filled, all at once. */
  function Fill(ps: seq<Piece>, m: map<Text, Text>): (r: seq<Piece>)
    ensures |r| == |ps|
    ensures forall i :: 0 <= i < |ps| ==>
              r[i] == if ps[i].Hole? && ps[i].name in m then Lit(m[ps[i].name]) else ps[i]
  {
    if ps == [] then []
    else [if ps[0].Hole? && ps[0].name in m then Lit(m[ps[0].name]) else ps[0]] + Fill(ps[1..], m)
  }

  /** The text ends in the opening brace and this name. */
  predicate EndsIn(t: Text, name: Text) {
    |name| < |t| && t[|t| - |name| - 1] == OPEN && t[|t| - |name|..] == name
  }

  /** What the replacement of one name's markers makes of a piece: of a longer placeholder it takes the end. */
  function Turn(p: Piece, name: Text, value: Text): (r: Piece) {
    match p
    case Lit(_) => p
    case Hole(other) =>
      if other == name then Lit(value)
      else if EndsIn(other, name) then Lit([OPEN] + other[..|other| - |name| - 1] + value)
      else p
  }

  function Turns(ps: seq<Piece>, name: Text, value: Text): (r: seq<Piece>)
    ensures |r| == |ps| && forall i :: 0 <= i < |ps| ==> r[i] == Turn(ps[i], name, value)
  {
    if ps == [] then [] else [Turn(ps[0], name, value)] + Turns(ps[1..], name, value)
  }

  /** No marker with a name up to this length begins in the text: braces are left open for longer than that. */
  predicate Dull(text: Text, n: nat) {
    forall k :: 0 <= k < |text| && text[k] == OPEN ==> |text| - k > n + 1 && Free(text[k..], CLOSE)
  }

  predicate PieceDull(p: Piece, n: nat) {
    match p
    case Lit(text) => Dull(text, n)
    case Hole(name) => Free(name, CLOSE)
  }

  predicate PiecesDull(ps: seq<Piece>, n: nat) { forall i :: 0 <= i < |ps| ==> PieceDull(ps[i], n) }

  lemma MarkerCloses(name: Text, s: Text)
    requires Marker(name) <= s
    ensures |s| > |name| + 1 && s[0] == OPEN && s[|name| + 1] == CLOSE && s[1..|name| + 1] == name
    ensures Free(name, CLOSE) ==> forall k :: 1 <= k <= |name| ==> s[k] != CLOSE
  {
    assert s[0] == Marker(name)[0] && s[|name| + 1] == Marker(name)[|name| + 1];
    assert forall k :: 0 <= k < |name| ==> s[k + 1] == Marker(name)[k + 1] == name[k];
    assert forall k :: 1 <= k <= |name| ==> s[k] == name[k - 1];
  }

  lemma {:induction false} NothingToClose(tail: Text, name: Text, value: Text)
    requires Free(tail, CLOSE)
    ensures ReplaceAll(tail, Marker(name), value) == tail
    decreases |tail|
  {
    if tail != [] {
      if Marker(name) <= tail { MarkerCloses(name, tail); }
      NothingToClose(tail[1..], name, value);
    }
  }

  /** A marker passes over text in which none can begin. */
  lemma {:induction false} PassesOver(lit: Text, rest: Text, name: Text, value: Text)
    requires Dull(lit, |name|)
    ensures ReplaceAll(lit + rest, Marker(name), value) == lit + ReplaceAll(rest, Marker(name), value)
    decreases |lit|
  {
    var s := lit + rest;
    if lit == [] {
      assert s == rest;
    } else {
      assert !(Marker(name) <= s) by {
        if Marker(name) <= s { DullOpensNothing(lit, rest, name); }
      }
      assert s[1..] == lit[1..] + rest && s[0] == lit[0];
      DullTail(lit, |name|);
      PassesOver(lit[1..], rest, name, value);
      assert [lit[0]] + lit[1..] == lit;
    }
  }

  lemma DullOpensNothing(lit: Text, rest: Text, name: Text)
    requires Dull(lit, |name|) && lit != []
    ensures !(Marker(name) <= lit + rest)
  {
    var s := lit + rest;
    assert lit[0..] == lit && s[0] == lit[0];
    assert s[0] == OPEN ==> s[|name| + 1] == lit[|name| + 1] != CLOSE;
    if Marker(name) <= s { MarkerCloses(name, s); }
  }

  lemma DullTail(lit: Text, n: nat)
    requires Dull(lit, n) && lit != []
    ensures Dull(lit[1..], n)
  {
    forall k | 0 <= k < |lit[1..]| && lit[1..][k] == OPEN ensures |lit[1..]| - k > n + 1 && Free(lit[1..][k..], CLOSE) {
      assert lit[k + 1] == OPEN && lit[1..][k..] == lit[k + 1..];
    }
  }

  /** Of a text up to its closing brace a replacement takes the end, if that is the name's marker, or nothing. */
  lemma {:induction false} Scan(t: Text, rest: Text, name: Text, value: Text)
    requires Free(t, CLOSE) && Free(name, CLOSE)
    ensures ReplaceAll(t + [CLOSE] + rest, Marker(name), value) ==
            Scanned(t, name, value) + ReplaceAll(rest, Marker(name), value)
    decreases |t|
  {
    var s := t + [CLOSE] + rest;
    if Marker(name) <= s {
      ScanHit(t, rest, name);
      assert t[..0] + value == value;
    } else if t == [] {
      assert s[1..] == rest && t + [CLOSE] == [s[0]];
    } else {
      assert s[1..] == t[1..] + [CLOSE] + rest && s[0] == t[0];
      Scan(t[1..], rest, name, value);
      ScanMiss(t, rest, name);
      AfterScan(t, name, value, ReplaceAll(rest, Marker(name), value));
    }
  }

  /** What is left of a closed text once the name has had its turn. */
  function Scanned(t: Text, name: Text, value: Text): (r: Text) {
    if EndsIn(t, name) then t[..|t| - |name| - 1] + value else t + [CLOSE]
  }

  lemma AfterScan(t: Text, name: Text, value: Text, more: Text)
    requires t != [] && (EndsIn(t, name) <==> EndsIn(t[1..], name))
    ensures [t[0]] + (Scanned(t[1..], name, value) + more) == Scanned(t, name, value) + more
  {
    var u := t[1..];
    assert [t[0]] + u == t;
    if EndsIn(t, name) {
      assert [t[0]] + u[..|u| - |name| - 1] == t[..|t| - |name| - 1];
    }
    assert [t[0]] + Scanned(u, name, value) == Scanned(t, name, value);
  }

  lemma ScanHit(t: Text, rest: Text, name: Text)
    requires Free(t, CLOSE) && Free(name, CLOSE) && Marker(name) <= t + [CLOSE] + rest
    ensures |t| == |name| + 1 && EndsIn(t, name) && (t + [CLOSE] + rest)[|Marker(name)|..] == rest
  {
    var s := t + [CLOSE] + rest;
    MarkerCloses(name, s);
    assert s[0] == Marker(name)[0] && s[|t|] == CLOSE;
    assert t[1..] == s[1..|t|];
  }

  lemma ScanMiss(t: Text, rest: Text, name: Text)
    requires t != [] && !(Marker(name) <= t + [CLOSE] + rest)
    ensures EndsIn(t, name) <==> EndsIn(t[1..], name)
  {
    if |t| == |name| + 1 && EndsIn(t, name) { WholeMarker(t, name); }
  }

  lemma WholeMarker(t: Text, name: Text)
    requires |t| == |name| + 1 && EndsIn(t, name)
    ensures t + [CLOSE] == Marker(name)
  {
    assert t == [t[0]] + t[1..];
  }

  lemma RenderCons(p: Piece, ps: seq<Piece>, tail: Text)
    ensures RenderPieces([p] + ps) + tail == RenderPiece(p) + (RenderPieces(ps) + tail)
  {
    assert ([p] + ps)[1..] == ps;
  }

  lemma HoleTurns(other: Text, rest: Text, name: Text, value: Text)
    requires Free(other, CLOSE) && Free(name, CLOSE)
    ensures ReplaceAll(Marker(other) + rest, Marker(name), value) ==
            RenderPiece(Turn(Hole(other), name, value)) + ReplaceAll(rest, Marker(name), value)
  {
    Scan([OPEN] + other, rest, name, value);
    TurnIsScanned(other, name, value);
  }

  lemma TurnIsScanned(other: Text, name: Text, value: Text)
    ensures Scanned([OPEN] + other, name, value) == RenderPiece(Turn(Hole(other), name, value))
  {
    var t := [OPEN] + other;
    assert EndsIn(t, name) <==> other == name || EndsIn(other, name);
    if other == name {
      assert t[..0] == [];
    } else if EndsIn(other, name) {
      assert t[..|t| - |name| - 1] == [OPEN] + other[..|other| - |name| - 1];
    }
  }

  /** Replacing one name's markers in a template's text gives every piece its turn. */
  lemma {:induction false} ReplaceTurns(ps: seq<Piece>, tail: Text, name: Text, value: Text)
    requires PiecesDull(ps, |name|) && Free(tail, CLOSE) && Free(name, CLOSE)
    ensures ReplaceAll(RenderPieces(ps) + tail, Marker(name), value) == RenderPieces(Turns(ps, name, value)) + tail
    decreases |ps|
  {
    if ps == [] {
      assert RenderPieces(ps) + tail == tail;
      NothingToClose(tail, name, value);
    } else {
      var p, more := ps[0], ps[1..];
      var rest := RenderPieces(more) + tail;
      assert ps == [p] + more;
      RenderCons(p, more, tail);
      ReplaceTurns(more, tail, name, value);
      RenderCons(Turn(p, name, value), Turns(more, name, value), tail);
      match p
      case Lit(text) => PassesOver(text, rest, name, value);
      case Hole(other) => HoleTurns(other, rest, name, value);
    }
  }

  /** Replacing one marker fills that placeholder wherever it is and no other, if no other placeholder ends in it. */
  lemma ReplaceFillsOne(ps: seq<Piece>, tail: Text, name: Text, value: Text)
    requires PiecesOk(ps) && Free(tail, CLOSE) && Free(name, CLOSE)
    requires forall i :: 0 <= i < |ps| && ps[i].Hole? ==> !EndsIn(ps[i].name, name)
    ensures ReplaceAll(RenderPieces(ps) + tail, Marker(name), value) ==
            RenderPieces(Fill(ps, map[name := value])) + tail
  {
    ReplaceTurns(ps, tail, name, value);
    assert Turns(ps, name, value) == Fill(ps, map[name := value]);
  }

  // ---------------------------------------------------------------- values

  const DOTS: Text := [46, 46, 46]

  /** A name without a final "...". */
  function BareName(raw: Text): (name: Text) {
    if |raw| >= 3 && raw[|raw| - 3..] == DOTS then raw[..|raw| - 3] else raw
  }

  function Param(params: map<Text, Text>, key: Text): (v: Text) {
    if key in params then TrimSpace(params[key]) else []
  }

  /** A placeholder's value: by its bare name, else by its full name, else, if it is the only one, the subject. */
  function ValueFor(params: map<Text, Text>, subject: Text, only: bool, raw: Text): (v: Text) {
    if Param(params, BareName(raw)) != [] then Param(params, BareName(raw))
    else if Param(params, raw) != [] then Param(params, raw)
    else if only then TrimSpace(subject)
    else []
  }

  /** Where values come from, for a template with these names. */
  function Source(names: seq<Text>, params: map<Text, Text>, subject: Text): (look: Text -> Text) {
    raw => ValueFor(params, subject, |names| == 1, raw)
  }

  datatype Outcome = Ok(path: Text) | Missing(name: Text)

  /** The escaped value of each of the first n names. */
  function Assigned(names: seq<Text>, n: nat, look: Text -> Text): (m: map<Text, Text>)
    requires n <= |names|
    ensures forall k :: k in m <==> k in names[..n]
    ensures forall k :: k in m ==> m[k] == PathEscape(look(k))
  {
    if n == 0 then map[]
    else
      assert names[..n] == names[..n - 1] + [names[n - 1]];
      Assigned(names, n - 1, look)[names[n - 1] := PathEscape(look(names[n - 1]))]
  }

  /** One name's markers replaced by its escaped value. */
  function Replaced(path: Text, raw: Text, value: Text): (r: Text) {
    ReplaceAll(path, Marker(raw), PathEscape(value))
  }

  /** The text after the first n names have had their turn, one after another. */
  function InTurn(path: Text, names: seq<Text>, n: nat, replace: (Text, Text) -> Text): (r: Text)
    requires n <= |names|
  {
    if n == 0 then path else replace(InTurn(path, names, n - 1, replace), names[n - 1])
  }

  /** A name's turn: its markers are replaced by its escaped value. */
  function Replacer(look: Text -> Text): (f: (Text, Text) -> Text) {
    (path, raw) => Replaced(path, raw, look(raw))
  }

  function Successive(template: Text, names: seq<Text>, n: nat, look: Text -> Text): (path: Text)
    requires n <= |names|
  {
    InTurn(template, names, n, Replacer(look))
  }

  predicate HaveValues(names: seq<Text>, n: nat, look: Text -> Text)
    requires n <= |names|
  {
    forall k :: 0 <= k < n ==> look(names[k]) != []
  }

  /** The loop over the names. */
  method ReplaceNames(template: Text, names: seq<Text>, look: Text -> Text) returns (r: Outcome, at: nat)
    ensures at <= |names| && HaveValues(names, at, look) && (r.Ok? <==> at == |names|)
    ensures r.Ok? ==> r.path == Successive(template, names, at, look)
    ensures r.Missing? ==> look(names[at]) == [] && r.name == BareName(names[at])
  {
    at := 0;
    var path := template;
    while at < |names|
      invariant at <= |names| && HaveValues(names, at, look)
      invariant path == Successive(template, names, at, look)
    {
      var value := look(names[at]);
      if value == [] { return Missing(BareName(names[at])), at; }
      path := Replaced(path, names[at], value);
      at := at + 1;
    }
    r := Ok(path);
  }

  /** The first name without a value, or the number of names. */
  function FirstMissing(names: seq<Text>, look: Text -> Text, from: nat): (k: nat)
    requires from <= |names|
    ensures from <= k <= |names| && (k < |names| ==> look(names[k]) == [])
    ensures forall j :: from <= j < k ==> look(names[j]) != []
    decreases |names| - from
  {
    if from == |names| || look(names[from]) == [] then from else FirstMissing(names, look, from + 1)
  }

  /** What mcpRESTPath answers. */
  function Answer(template: Text, params: map<Text, Text>, subject: Text): (r: Outcome) {
    var names := Names(template);
    var look := Source(names, params, subject);
    var k := FirstMissing(names, look, 0);
    if k < |names| then Missing(BareName(names[k])) else Ok(Successive(template, names, |names|, look))
  }

  /** mcpRESTPath. */
  method RestPath(template: Text, params: map<Text, Text>, subject: Text) returns (r: Outcome)
    ensures r == Answer(template, params, subject)
  {
    var names := ParamNames(template);
    var look := Source(names, params, subject);
    var at;
    r, at := ReplaceNames(template, names, look);
    assert at == FirstMissing(names, look, 0);
  }

  // ---------------------------------------------------------------- one after another is all at once

  /** Filling one more name on top of those filled is filling them together; filling a name again does nothing. */
  lemma {:induction false} FillTwice(ps: seq<Piece>, m: map<Text, Text>, name: Text, value: Text)
    requires name in m ==> m[name] == value
    ensures Fill(Fill(ps, m), map[name := value]) == Fill(ps, m[name := value])
  {
    if ps != [] {
      FillTwice(ps[1..], m, name, value);
      assert Fill(ps, m)[1..] == Fill(ps[1..], m);
    }
  }

  lemma FilledStaysOk(ps: seq<Piece>, m: map<Text, Text>)
    requires PiecesOk(ps) && forall k :: k in m ==> Free(m[k], OPEN)
    ensures PiecesOk(Fill(ps, m))
  {
  }

  /** Names are placeholders' contents, so they close nothing. */
  lemma {:induction false} NamesAreClosed(ps: seq<Piece>)
    requires PiecesOk(ps)
    ensures forall raw :: raw in NamesIn(ps) ==> Free(raw, CLOSE)
  {
    if ps != [] {
      NamesAreClosed(ps[1..]);
      if ps[0].Hole? { TrimKeepsFree(ps[0].name, CLOSE); }
    }
  }

  lemma {:induction false} TrimKeepsFree(t: Text, b: Byte)
    requires Free(t, b)
    ensures Free(TrimSpace(t), b)
    decreases |t|
  {
    if t != [] {
      if IsSpace(t[0]) { TrimKeepsFree(t[1..], b); }
      else if IsSpace(t[|t| - 1]) { TrimKeepsFree(t[..|t| - 1], b); }
    }
  }

  function Filled(t: Template, m: map<Text, Text>): (r: Text) { Render(Template(Fill(t.pieces, m), t.tail)) }

  lemma OneNameMore(t: Template, m: map<Text, Text>, raw: Text, value: Text)
    requires TemplateOk(t) && Free(raw, CLOSE)
    requires (forall k :: k in m ==> Free(m[k], OPEN)) && (raw in m ==> m[raw] == PathEscape(value))
    requires forall i :: 0 <= i < |t.pieces| && t.pieces[i].Hole? && EndsIn(t.pieces[i].name, raw) ==>
               t.pieces[i].name in m
    ensures Replaced(Filled(t, m), raw, value) == Filled(t, m[raw := PathEscape(value)])
  {
    FilledStaysOk(t.pieces, m);
    ReplaceFillsOne(Fill(t.pieces, m), t.tail, raw, PathEscape(value));
    FillTwice(t.pieces, m, raw, PathEscape(value));
  }

  lemma FillNothing(t: Template)
    ensures Filled(t, map[]) == Render(t)
  {
    assert Fill(t.pieces, map[]) == t.pieces;
  }

  /** A name has its k-th turn while a placeholder that ends in its marker has not had one. */
  predicate ClashAt(ps: seq<Piece>, names: seq<Text>, i: nat, k: nat) {
    && i < |ps| && ps[i].Hole? && k < |names|
    && EndsIn(ps[i].name, names[k]) && ps[i].name !in names[..k]
  }

  predicate Clash(ps: seq<Piece>, names: seq<Text>) {
    exists i, k :: 0 <= i < |ps| && 0 <= k < |names| && ClashAt(ps, names, i, k)
  }

  /** Without a clash a name's turn fills that name and no other. */
  lemma TurnFills(t: Template, names: seq<Text>, n: nat, m: map<Text, Text>, value: Text)
    requires TemplateOk(t) && n < |names| && !Clash(t.pieces, names) && Free(names[n], CLOSE)
    requires forall k :: k in m <==> k in names[..n]
    requires (forall k :: k in m ==> Free(m[k], OPEN)) && (names[n] in m ==> m[names[n]] == PathEscape(value))
    ensures Replaced(Filled(t, m), names[n], value) == Filled(t, m[names[n] := PathEscape(value)])
  {
    var ps := t.pieces;
    forall i | 0 <= i < |ps| && ps[i].Hole? && EndsIn(ps[i].name, names[n]) ensures ps[i].name in m {
      assert !ClashAt(ps, names, i, n);
    }
    OneNameMore(t, m, names[n], value);
  }

  /** Turns that each extend what is filled by one name end with all of them filled. */
  lemma {:induction false} TurnsAddUp(names: seq<Text>, n: nat, look: Text -> Text,
                                      replace: (Text, Text) -> Text, filled: map<Text, Text> -> Text)
    requires n <= |names|
    requires forall k: nat :: k < n ==> OneTurn(names, k, look, replace, filled)
    ensures InTurn(filled(map[]), names, n, replace) == filled(Assigned(names, n, look))
    decreases n
  {
    if n > 0 {
      TurnsAddUp(names, n - 1, look, replace, filled);
      assert OneTurn(names, n - 1, look, replace, filled);
    }
  }

  ghost predicate OneTurn(names: seq<Text>, k: nat, look: Text -> Text,
                          replace: (Text, Text) -> Text, filled: map<Text, Text> -> Text)
    requires k < |names|
  {
    replace(filled(Assigned(names, k, look)), names[k]) == filled(Assigned(names, k + 1, look))
  }

  lemma TurnIsOne(t: Template, names: seq<Text>, k: nat, look: Text -> Text)
    requires TemplateOk(t) && k < |names| && !Clash(t.pieces, names) && Free(names[k], CLOSE)
    ensures OneTurn(names, k, look, Replacer(look), m => Filled(t, m))
  {
    TurnFills(t, names, k, Assigned(names, k, look), look(names[k]));
  }

  /** So the turns, one after another, leave exactly the names that had one filled. */
  lemma SuccessiveFills(t: Template, names: seq<Text>, look: Text -> Text)
    requires TemplateOk(t) && !Clash(t.pieces, names)
    requires forall raw :: raw in names ==> Free(raw, CLOSE)
    ensures Successive(Render(t), names, |names|, look) == Filled(t, Assigned(names, |names|, look))
  {
    var filled := m => Filled(t, m);
    forall k: nat | k < |names| ensures OneTurn(names, k, look, Replacer(look), filled) {
      TurnIsOne(t, names, k, look);
    }
    FillNothing(t);
    TurnsAddUp(names, |names|, look, Replacer(look), filled);
  }

  /** The path with every name filled at once. */
  function PathFor(template: Text, look: Text -> Text): (path: Text) {
    Filled(Parse(template), Assigned(Names(template), |Names(template)|, look))
  }

  /** Replacing names one after another is one simultaneous substitution, in every template without a clash. */
  lemma SuccessiveIsSimultaneous(template: Text, look: Text -> Text)
    requires !Clash(Parse(template).pieces, Names(template))
    ensures Successive(template, Names(template), |Names(template)|, look) == PathFor(template, look)
  {
    var t, names := Parse(template), Names(template);
    RenderAfterParse(template);
    NamesAreClosed(t.pieces);
    SuccessiveFills(t, names, look);
  }

  // ---------------------------------------------------------------- what is left of the placeholders

  predicate IsTrimmed(name: Text) { name != [] && TrimSpace(name) == name }

  /** A placeholder is one of the names exactly when it has no space around it and is not empty. */
  lemma {:induction false} NamesAreTrimmed(ps: seq<Piece>)
    ensures forall n :: n in NamesIn(ps) ==> IsTrimmed(n)
    ensures forall i :: 0 <= i < |ps| && ps[i].Hole? && IsTrimmed(ps[i].name) ==> ps[i].name in NamesIn(ps)
  {
    if ps != [] {
      NamesAreTrimmed(ps[1..]);
      forall i | 0 <= i < |ps| && ps[i].Hole? && IsTrimmed(ps[i].name) ensures ps[i].name in NamesIn(ps) {
        if i > 0 { assert ps[i] == ps[1..][i - 1]; }
      }
    }
  }

  predicate AllLit(ps: seq<Piece>) { forall i :: 0 <= i < |ps| ==> ps[i].Lit? }

  lemma FreeConcat(a: Text, b: Text, c: Byte)
    ensures Free(a + b, c) <==> Free(a, c) && Free(b, c)
  {
    if Free(a + b, c) {
      forall k | 0 <= k < |a| ensures a[k] != c { assert (a + b)[k] == a[k]; }
      forall k | 0 <= k < |b| ensures b[k] != c { assert (a + b)[|a| + k] == b[k]; }
    }
  }

  lemma {:induction false} BracesAreHoles(ps: seq<Piece>)
    requires PiecesOk(ps)
    ensures Free(RenderPieces(ps), OPEN) <==> AllLit(ps)
  {
    if ps != [] {
      BracesAreHoles(ps[1..]);
      FreeConcat(RenderPiece(ps[0]), RenderPieces(ps[1..]), OPEN);
      if ps[0].Hole? { assert RenderPiece(ps[0])[0] == OPEN; }
      assert AllLit(ps) <==> ps[0].Lit? && AllLit(ps[1..]) by {
        if AllLit(ps) { assert forall i :: 0 <= i < |ps| - 1 ==> ps[1..][i] == ps[i + 1]; }
        if ps[0].Lit? && AllLit(ps[1..]) {
          assert forall i :: 0 < i < |ps| ==> ps[i] == ps[1..][i - 1];
        }
      }
    }
  }

  /** No placeholder is left exactly when none of them was empty or had space around it, and every brace was closed. */
  lemma NoPlaceholderLeft(template: Text, look: Text -> Text)
    ensures var t := Parse(template);
            Free(PathFor(template, look), OPEN) <==>
            Free(t.tail, OPEN) && forall i :: 0 <= i < |t.pieces| && t.pieces[i].Hole? ==> IsTrimmed(t.pieces[i].name)
  {
    var t, names := Parse(template), Names(template);
    RenderAfterParse(template);
    var m := Assigned(names, |names|, look);
    assert names[..|names|] == names;
    FilledStaysOk(t.pieces, m);
    FreeConcat(RenderPieces(Fill(t.pieces, m)), t.tail, OPEN);
    BracesAreHoles(Fill(t.pieces, m));
    NamesAreTrimmed(t.pieces);
    HolesLeft(t.pieces, m);
  }

  lemma HolesLeft(ps: seq<Piece>, m: map<Text, Text>)
    requires forall n :: n in m <==> n in NamesIn(ps)
    ensures AllLit(Fill(ps, m)) <==> forall i :: 0 <= i < |ps| && ps[i].Hole? ==> IsTrimmed(ps[i].name)
  {
    NamesAreTrimmed(ps);
    var filled := Fill(ps, m);
    forall i | 0 <= i < |ps| ensures filled[i].Lit? <==> (ps[i].Hole? ==> IsTrimmed(ps[i].name)) {}
    if AllLit(filled) {
      forall i | 0 <= i < |ps| && ps[i].Hole? ensures IsTrimmed(ps[i].name) { assert filled[i].Lit?; }
    }
  }

  // ---------------------------------------------------------------- slashes

  function Count(t: Text, b: Byte): (n: nat) {
    if t == [] then 0 else (if t[0] == b then 1 else 0) + Count(t[1..], b)
  }

  lemma {:induction false} CountConcat(a: Text, b: Text, c: Byte)
    ensures Count(a + b, c) == Count(a, c) + Count(b, c)
  {
    if a == [] {
      assert a + b == b;
    } else {
      assert (a + b)[1..] == a[1..] + b;
      CountConcat(a[1..], b, c);
    }
  }

  lemma {:induction false} NoneIsZero(t: Text, b: Byte)
    ensures Count(t, b) == 0 <==> Free(t, b)
  {
    if t != [] {
      NoneIsZero(t[1..], b);
      FreeConcat([t[0]], t[1..], b);
      assert t == [t[0]] + t[1..];
    }
  }

  /** The slashes in the names of the placeholders that are filled. */
  function FilledSlashes(ps: seq<Piece>, m: map<Text, Text>): (n: nat) {
    if ps == [] then 0
    else (if ps[0].Hole? && ps[0].name in m then Count(ps[0].name, SLASH) else 0) + FilledSlashes(ps[1..], m)
  }

  lemma {:induction false} FilledSlashesZero(ps: seq<Piece>, m: map<Text, Text>)
    ensures FilledSlashes(ps, m) == 0 <==>
            forall i :: 0 <= i < |ps| && ps[i].Hole? && ps[i].name in m ==> Free(ps[i].name, SLASH)
  {
    if ps != [] {
      FilledSlashesZero(ps[1..], m);
      if ps[0].Hole? { NoneIsZero(ps[0].name, SLASH); }
      assert forall i :: 0 <= i < |ps| - 1 ==> ps[1..][i] == ps[i + 1];
      assert forall i :: 0 < i < |ps| ==> ps[i] == ps[1..][i - 1];
    }
  }

  lemma MarkerSlashes(name: Text)
    ensures Count(Marker(name), SLASH) == Count(name, SLASH)
  {
    CountConcat([OPEN] + name, [CLOSE], SLASH);
    CountConcat([OPEN], name, SLASH);
    assert Count([OPEN], SLASH) == 0 && Count([CLOSE], SLASH) == 0 by {
      NoneIsZero([OPEN], SLASH);
      NoneIsZero([CLOSE], SLASH);
    }
  }

  lemma {:induction false} FillSlashes(ps: seq<Piece>, m: map<Text, Text>)
    requires forall k :: k in m ==> Free(m[k], SLASH)
    ensures Count(RenderPieces(Fill(ps, m)), SLASH) + FilledSlashes(ps, m) == Count(RenderPieces(ps), SLASH)
  {
    if ps != [] {
      var filled := Fill(ps, m);
      FillSlashes(ps[1..], m);
      assert filled[1..] == Fill(ps[1..], m);
      CountConcat(RenderPiece(ps[0]), RenderPieces(ps[1..]), SLASH);
      CountConcat(RenderPiece(filled[0]), RenderPieces(filled[1..]), SLASH);
      if ps[0].Hole? && ps[0].name in m {
        MarkerSlashes(ps[0].name);
        NoneIsZero(m[ps[0].name], SLASH);
      }
    }
  }

  lemma FilledTemplateSlashes(t: Template, m: map<Text, Text>)
    requires forall k :: k in m ==> Free(m[k], SLASH)
    ensures Count(Render(Template(Fill(t.pieces, m), t.tail)), SLASH) + FilledSlashes(t.pieces, m) ==
            Count(Render(t), SLASH)
  {
    FillSlashes(t.pieces, m);
    CountConcat(RenderPieces(t.pieces), t.tail, SLASH);
    CountConcat(RenderPieces(Fill(t.pieces, m)), t.tail, SLASH);
  }

  /** The path has as many slashes as the template exactly when no filled placeholder has one in its name. */
  lemma SlashesKept(template: Text, look: Text -> Text)
    ensures var t, names := Parse(template), Names(template);
            Count(PathFor(template, look), SLASH) == Count(template, SLASH) <==>
            forall i :: 0 <= i < |t.pieces| && t.pieces[i].Hole? && t.pieces[i].name in names
                        ==> Free(t.pieces[i].name, SLASH)
  {
    var t, names := Parse(template), Names(template);
    var m := Assigned(names, |names|, look);
    assert names[..|names|] == names;
    RenderAfterParse(template);
    FilledTemplateSlashes(t, m);
    FilledSlashesZero(t.pieces, m);
    assert forall n :: n in names <==> n in m;
  }
}
