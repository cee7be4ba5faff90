/**
 When replacing names one after another is not one simultaneous substitution: a name has its turn while a longer
 placeholder ending in its marker has not had one, and takes the end off it.
 */
module PathClash {
  import opened Bytes
  import opened Text
  import opened PathSubst

  // ---------------------------------------------------------------- one piece

  /** A piece after the first k names have had their turn, each with the value v. */
  function Fate(p: Piece, names: seq<Text>, k: nat, v: Text): (q: Piece)
    requires k <= |names|
  {
    if k == 0 then p else Turn(Fate(p, names, k - 1, v), names[k - 1], v)
  }

  predicate Bare(v: Text) { Free(v, OPEN) && Free(v, CLOSE) }

  /** A placeholder that has lost its end: still open, and closed nowhere. */
  predicate IsScar(p: Piece, v: Text) {
    && p.Lit? && |p.text| > |v| && p.text[0] == OPEN && Free(p.text, CLOSE)
    && p.text[|p.text| - |v|..] == v
  }

  lemma TurnOfHole(h: Text, name: Text, v: Text)
    requires Free(h, CLOSE) && Bare(v)
    ensures var q := Turn(Hole(h), name, v);
            if h == name then q == Lit(v) else if EndsIn(h, name) then IsScar(q, v) else q == Hole(h)
  {
    if EndsIn(h, name) {
      var x := [OPEN] + h[..|h| - |name| - 1];
      assert (x + v)[|x|..] == v;
    }
  }

  lemma {:induction false} FateOfHole(h: Text, names: seq<Text>, k: nat, v: Text)
    requires k <= |names| && Free(h, CLOSE) && Bare(v)
    ensures var q := Fate(Hole(h), names, k, v);
            (q == Hole(h) && h !in names[..k]) || (q == Lit(v) && h in names[..k]) || IsScar(q, v)
    decreases k
  {
    if k > 0 {
      FateOfHole(h, names, k - 1, v);
      assert names[..k] == names[..k - 1] + [names[k - 1]];
      TurnOfHole(h, names[k - 1], v);
    }
  }

  lemma {:induction false} ClashLeavesScar(h: Text, names: seq<Text>, j: nat, k: nat, v: Text)
    requires j < k <= |names| && Free(h, CLOSE) && Bare(v) && EndsIn(h, names[j]) && h !in names[..j]
    ensures IsScar(Fate(Hole(h), names, k, v), v)
    decreases k
  {
    if j < k - 1 {
      ClashLeavesScar(h, names, j, k - 1, v);
    } else {
      FateOfHole(h, names, j, v);
      TurnOfHole(h, names[j], v);
    }
  }

  lemma {:induction false} FateOfLit(text: Text, names: seq<Text>, k: nat, v: Text)
    requires k <= |names|
    ensures Fate(Lit(text), names, k, v) == Lit(text)
    decreases k
  {
    if k > 0 { FateOfLit(text, names, k - 1, v); }
  }

  lemma ScarIsDull(p: Piece, v: Text, n: nat)
    requires IsScar(p, v) && Free(v, OPEN) && |v| > n
    ensures PieceDull(p, n)
  {
    var text := p.text;
    assert forall j :: 0 <= j < |v| ==> text[|text| - |v|..][j] == v[j] != OPEN;
    assert forall k :: |text| - |v| <= k < |text| ==> text[k] == text[|text| - |v|..][k - (|text| - |v|)];
  }

  /** With a value longer than a name, no marker of that name ever begins where a placeholder was cut. */
  lemma FateIsDull(p: Piece, names: seq<Text>, k: nat, v: Text, n: nat)
    requires k <= |names| && PieceOk(p) && Bare(v) && |v| > n
    ensures PieceDull(Fate(p, names, k, v), n)
  {
    match p
    case Lit(text) => FateOfLit(text, names, k, v);
    case Hole(h) =>
      FateOfHole(h, names, k, v);
      if IsScar(Fate(p, names, k, v), v) { ScarIsDull(Fate(p, names, k, v), v, n); }
  }

  // ---------------------------------------------------------------- the whole text

  function Fates(ps: seq<Piece>, names: seq<Text>, k: nat, v: Text): (qs: seq<Piece>)
    requires k <= |names|
    ensures |qs| == |ps| && forall i :: 0 <= i < |ps| ==> qs[i] == Fate(ps[i], names, k, v)
  {
    seq(|ps|, i requires 0 <= i < |ps| => Fate(ps[i], names, k, v))
  }

  function TextAt(t: Template, names: seq<Text>, k: int, v: Text): (r: Text) {
    if 0 <= k <= |names| then RenderPieces(Fates(t.pieces, names, k, v)) + t.tail else []
  }

  lemma NextTextAt(t: Template, names: seq<Text>, k: nat, v: Text)
    requires TemplateOk(t) && k < |names| && Bare(v) && |v| > |names[k]| && Free(names[k], CLOSE)
    ensures ReplaceAll(TextAt(t, names, k, v), Marker(names[k]), v) == TextAt(t, names, k + 1, v)
  {
    var qs := Fates(t.pieces, names, k, v);
    forall i | 0 <= i < |qs| ensures PieceDull(qs[i], |names[k]|) {
      FateIsDull(t.pieces[i], names, k, v, |names[k]|);
    }
    ReplaceTurns(qs, t.tail, names[k], v);
    assert Turns(qs, names[k], v) == Fates(t.pieces, names, k + 1, v);
  }

  ghost predicate Leads(names: seq<Text>, k: nat, replace: (Text, Text) -> Text, text: int -> Text)
    requires k < |names|
  {
    replace(text(k), names[k]) == text(k + 1)
  }

  lemma {:induction false} Chain(names: seq<Text>, n: nat, replace: (Text, Text) -> Text, text: int -> Text)
    requires n <= |names| && forall k: nat :: k < n ==> Leads(names, k, replace, text)
    ensures InTurn(text(0), names, n, replace) == text(n)
    decreases n
  {
    if n > 0 {
      Chain(names, n - 1, replace, text);
      assert Leads(names, n - 1, replace, text);
    }
  }

  lemma TurnLeads(t: Template, names: seq<Text>, k: nat, look: Text -> Text, v: Text)
    requires TemplateOk(t) && k < |names| && Bare(v) && |v| > |names[k]| && Free(names[k], CLOSE)
    requires PathEscape(look(names[k])) == v
    ensures Leads(names, k, Replacer(look), i => TextAt(t, names, i, v))
  {
    NextTextAt(t, names, k, v);
  }

  /** Every name has this value, which is longer than any of them. */
  ghost predicate AllLong(names: seq<Text>, look: Text -> Text, v: Text) {
    forall raw :: raw in names ==> Free(raw, CLOSE) && |raw| < |v| && look(raw) == v && PathEscape(look(raw)) == v
  }

  /** With one long value for all names, what the turns leave is every piece's fate. */
  lemma SuccessiveFates(t: Template, names: seq<Text>, look: Text -> Text, v: Text)
    requires TemplateOk(t) && Bare(v)
    requires AllLong(names, look, v)
    ensures Successive(Render(t), names, |names|, look) == RenderPieces(Fates(t.pieces, names, |names|, v)) + t.tail
  {
    var text := i => TextAt(t, names, i, v);
    forall k: nat | k < |names| ensures Leads(names, k, Replacer(look), text) { TurnLeads(t, names, k, look, v); }
    Chain(names, |names|, Replacer(look), text);
    assert Fates(t.pieces, names, 0, v) == t.pieces;
  }

  // ---------------------------------------------------------------- counting braces

  /** Alike, or cut where the other is filled or left alone. */
  predicate Cut(q: Piece, f: Piece, v: Text) {
    IsScar(q, v) && (f == Lit(v) || (f.Hole? && Free(f.name, CLOSE)))
  }

  predicate Alike(qs: seq<Piece>, fs: seq<Piece>, v: Text) {
    |qs| == |fs| && forall i :: 0 <= i < |qs| ==> qs[i] == fs[i] || Cut(qs[i], fs[i], v)
  }

  function Closes(t: Text): (n: nat) { Count(t, CLOSE) }

  function Opens(t: Text): (n: nat) { Count(t, OPEN) }

  /** Fewer closing braces, or as many and more opening ones. */
  predicate Differs(a: Text, b: Text) {
    Closes(a) < Closes(b) || (Closes(a) == Closes(b) && Opens(a) > Opens(b))
  }

  lemma CutDiffers(q: Piece, f: Piece, v: Text)
    requires Cut(q, f, v) && Bare(v)
    ensures Differs(RenderPiece(q), RenderPiece(f))
  {
    NoneIsZero(q.text, CLOSE);
    NoneIsZero(q.text, OPEN);
    if f == Lit(v) {
      NoneIsZero(v, CLOSE);
      NoneIsZero(v, OPEN);
    } else {
      CountConcat([OPEN] + f.name, [CLOSE], CLOSE);
      assert Count([CLOSE], CLOSE) == 1 by { assert [CLOSE][1..] == []; }
    }
  }

  lemma DiffersConcat(a: Text, b: Text, c: Text, d: Text)
    requires (a == b || Differs(a, b)) && (c == d || Differs(c, d))
    ensures a + c == b + d || Differs(a + c, b + d)
    ensures Differs(a, b) || Differs(c, d) ==> Differs(a + c, b + d)
  {
    CountConcat(a, c, CLOSE);
    CountConcat(b, d, CLOSE);
    CountConcat(a, c, OPEN);
    CountConcat(b, d, OPEN);
  }

  lemma {:induction false} CutsShow(qs: seq<Piece>, fs: seq<Piece>, v: Text)
    requires Alike(qs, fs, v) && Bare(v)
    ensures RenderPieces(qs) == RenderPieces(fs) || Differs(RenderPieces(qs), RenderPieces(fs))
    ensures (exists i :: 0 <= i < |qs| && Cut(qs[i], fs[i], v)) ==> Differs(RenderPieces(qs), RenderPieces(fs))
  {
    if qs != [] {
      var q, f := RenderPiece(qs[0]), RenderPiece(fs[0]);
      assert Alike(qs[1..], fs[1..], v);
      CutsShow(qs[1..], fs[1..], v);
      if Cut(qs[0], fs[0], v) { CutDiffers(qs[0], fs[0], v); }
      DiffersConcat(q, f, RenderPieces(qs[1..]), RenderPieces(fs[1..]));
      if i :| 0 < i < |qs| && Cut(qs[i], fs[i], v) { assert Cut(qs[1..][i - 1], fs[1..][i - 1], v); }
    }
  }

  // ---------------------------------------------------------------- the exact condition

  lemma FatesAlike(ps: seq<Piece>, names: seq<Text>, v: Text, m: map<Text, Text>)
    requires PiecesOk(ps) && Bare(v) && (forall k :: k in m <==> k in names) && forall k :: k in m ==> m[k] == v
    ensures Alike(Fates(ps, names, |names|, v), Fill(ps, m), v)
  {
    assert names[..|names|] == names;
    var qs, fs := Fates(ps, names, |names|, v), Fill(ps, m);
    forall i | 0 <= i < |ps| ensures qs[i] == fs[i] || Cut(qs[i], fs[i], v) {
      match ps[i]
      case Lit(text) => FateOfLit(text, names, |names|, v);
      case Hole(h) => FateOfHole(h, names, |names|, v);
    }
  }

  lemma ClashCuts(ps: seq<Piece>, names: seq<Text>, v: Text, m: map<Text, Text>, i: nat, k: nat)
    requires PiecesOk(ps) && Bare(v) && (forall k :: k in m <==> k in names) && forall k :: k in m ==> m[k] == v
    requires ClashAt(ps, names, i, k)
    ensures Cut(Fates(ps, names, |names|, v)[i], Fill(ps, m)[i], v)
  {
    ClashLeavesScar(ps[i].name, names, k, |names|, v);
  }

  lemma ClashShows(t: Template, names: seq<Text>, look: Text -> Text, v: Text)
    requires TemplateOk(t) && Bare(v) && Clash(t.pieces, names)
    requires AllLong(names, look, v)
    ensures Successive(Render(t), names, |names|, look) != Filled(t, Assigned(names, |names|, look))
  {
    SuccessiveFates(t, names, look, v);
    assert names[..|names|] == names;
    var m := Assigned(names, |names|, look);
    var qs, fs := Fates(t.pieces, names, |names|, v), Fill(t.pieces, m);
    FatesAlike(t.pieces, names, v, m);
    var i, k :| 0 <= i < |t.pieces| && 0 <= k < |names| && ClashAt(t.pieces, names, i, k);
    ClashCuts(t.pieces, names, v, m, i, k);
    CutsShow(qs, fs, v);
    DiffersConcat(RenderPieces(qs), RenderPieces(fs), t.tail, t.tail);
  }

  /** A value of letters, longer than the template. */
  function LongValue(n: nat): (v: Text)
    ensures |v| == n + 1 && Bare(v)
  {
    seq(n + 1, _ => 122)
  }

  lemma {:induction false} LettersStay(v: Text)
    requires forall i :: 0 <= i < |v| ==> v[i] == 122
    ensures PathEscape(v) == v && TrimSpace(v) == v
  {
    if v != [] {
      LettersStay(v[1..]);
      assert v == [v[0]] + v[1..];
    }
  }

  lemma {:induction false} TrimShortens(t: Text)
    ensures |TrimSpace(t)| <= |t|
    decreases |t|
  {
    if t != [] {
      if IsSpace(t[0]) { TrimShortens(t[1..]); }
      else if IsSpace(t[|t| - 1]) { TrimShortens(t[..|t| - 1]); }
    }
  }

  lemma {:induction false} NamesAreShort(ps: seq<Piece>)
    ensures forall raw :: raw in NamesIn(ps) ==> |raw| <= |RenderPieces(ps)|
  {
    if ps != [] {
      NamesAreShort(ps[1..]);
      if ps[0].Hole? { TrimShortens(ps[0].name); }
    }
  }

  /** The same value for every name. */
  function SameForAll(names: seq<Text>, v: Text): (params: map<Text, Text>) {
    map raw | raw in names :: BareName(raw) := v
  }

  lemma SameForAllGives(names: seq<Text>, v: Text, raw: Text)
    requires raw in names && TrimSpace(v) == v != []
    ensures Source(names, SameForAll(names, v), [])(raw) == v
  {
    assert BareName(raw) in SameForAll(names, v);
  }

  lemma LongValuesFor(ps: seq<Piece>, names: seq<Text>, v: Text)
    requires PiecesOk(ps) && names == NamesIn(ps)
    requires |v| > |RenderPieces(ps)| && TrimSpace(v) == PathEscape(v) == v
    ensures var look := Source(names, SameForAll(names, v), []);
            AllLong(names, look, v) && HaveValues(names, |names|, look)
  {
    NamesAreClosed(ps);
    NamesAreShort(ps);
    forall raw | raw in names ensures Source(names, SameForAll(names, v), [])(raw) == v {
      SameForAllGives(names, v, raw);
    }
    assert v != [];
  }

  lemma ClashIn(t: Template, names: seq<Text>, v: Text)
    requires TemplateOk(t) && names == NamesIn(t.pieces) && Clash(t.pieces, names)
    requires |v| > |RenderPieces(t.pieces)| && TrimSpace(v) == PathEscape(v) == v
    ensures var look := Source(names, SameForAll(names, v), []);
            && HaveValues(names, |names|, look)
            && Successive(Render(t), names, |names|, look) != Filled(t, Assigned(names, |names|, look))
  {
    var look := Source(names, SameForAll(names, v), []);
    LongValuesFor(t.pieces, names, v);
    ClashShows(t, names, look, v);
  }

  lemma ClashHasValues(template: Text, v: Text)
    requires Clash(Parse(template).pieces, Names(template)) && v == LongValue(|template|)
    ensures var names := Names(template); var look := Source(names, SameForAll(names, v), []);
            && HaveValues(names, |names|, look)
            && Successive(template, names, |names|, look) != PathFor(template, look)
  {
    LettersStay(v);
    RenderAfterParse(template);
    ClashIn(Parse(template), Names(template), v);
  }

  /**
   Whatever values are given, filling the names one after another is filling them all at once, exactly when no
   name has its turn before a placeholder that ends in its marker.
   */
  lemma SimultaneousExactlyWithoutClash(template: Text)
    ensures var names := Names(template);
            (forall params: map<Text, Text>, subject: Text ::
               var look := Source(names, params, subject);
               HaveValues(names, |names|, look) ==>
                 Successive(template, names, |names|, look) == PathFor(template, look)) <==>
            !Clash(Parse(template).pieces, names)
  {
    if Clash(Parse(template).pieces, Names(template)) {
      var names, v := Names(template), LongValue(|template|);
      ClashHasValues(template, v);
      assert HaveValues(names, |names|, Source(names, SameForAll(names, v), []));
    } else {
      forall params: map<Text, Text>, subject: Text
        ensures var look := Source(Names(template), params, subject);
                Successive(template, Names(template), |Names(template)|, look) == PathFor(template, look)
      {
        SuccessiveIsSimultaneous(template, Source(Names(template), params, subject));
      }
    }
  }
}
