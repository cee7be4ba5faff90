/** Which value ends up in a placeholder, and when a path cannot be built: what the caller of mcpRESTPath relies on. */
module PathValues {
  import opened Bytes
  import opened Text
  import opened PathSubst

  // ---------------------------------------------------------------- what a caller has given

  /** The caller gave this value under this key: not blank, and without the space around it. */
  ghost predicate Gave(params: map<Text, Text>, key: Text, v: Text) {
    key in params && v != [] && Trims(params[key], v)
  }

  ghost predicate GaveNothing(params: map<Text, Text>, key: Text) {
    key !in params || Trims(params[key], [])
  }

  /** The name without a final "...". */
  predicate Bares(raw: Text, bare: Text) {
    if |raw| >= 3 && raw[|raw| - 3] == raw[|raw| - 2] == raw[|raw| - 1] == 46 then raw == bare + [46, 46, 46]
    else raw == bare
  }

  /** What the caller means by the placeholder: its bare name first, then its full name. */
  ghost predicate Means(params: map<Text, Text>, raw: Text, v: Text) {
    exists bare :: Bares(raw, bare)
      && (Gave(params, bare, v) || (GaveNothing(params, bare) && Gave(params, raw, v)))
  }

  ghost predicate MeansNothing(params: map<Text, Text>, raw: Text) {
    GaveNothing(params, raw) && forall bare :: Bares(raw, bare) ==> GaveNothing(params, bare)
  }

  lemma BareNameExactly(raw: Text, bare: Text)
    ensures BareName(raw) == bare <==> Bares(raw, bare)
  {
    if |raw| >= 3 {
      assert raw[|raw| - 3..] == [raw[|raw| - 3], raw[|raw| - 2], raw[|raw| - 1]];
      assert raw == raw[..|raw| - 3] + raw[|raw| - 3..];
      if raw == bare + DOTS { assert raw[..|raw| - 3] == bare; }
    }
  }

  lemma ParamExactly(params: map<Text, Text>, key: Text, v: Text)
    ensures v != [] ==> (Param(params, key) == v <==> Gave(params, key, v))
    ensures Param(params, key) == [] <==> GaveNothing(params, key)
  {
    if key in params {
      TrimSpaceExactly(params[key], v);
      TrimSpaceExactly(params[key], []);
    }
  }

  /** The parameters decide whenever they give anything. */
  lemma ParametersDecide(params: map<Text, Text>, subject: Text, only: bool, raw: Text, v: Text)
    requires v != []
    ensures Means(params, raw, v) ==> ValueFor(params, subject, only, raw) == v
    ensures ValueFor(params, subject, only, raw) == v && !MeansNothing(params, raw) ==> Means(params, raw, v)
  {
    var bare := BareName(raw);
    BareNameExactly(raw, bare);
    ParamExactly(params, bare, v);
    ParamExactly(params, raw, v);
    if Means(params, raw, v) {
      var b :| Bares(raw, b) && (Gave(params, b, v) || (GaveNothing(params, b) && Gave(params, raw, v)));
      BareNameExactly(raw, b);
    }
    OnlyOneBare(params, raw);
  }

  lemma OnlyOneBare(params: map<Text, Text>, raw: Text)
    ensures MeansNothing(params, raw) <==> Param(params, BareName(raw)) == [] && Param(params, raw) == []
  {
    BareNameExactly(raw, BareName(raw));
    ParamExactly(params, BareName(raw), []);
    ParamExactly(params, raw, []);
    forall bare | Bares(raw, bare) ensures bare == BareName(raw) { BareNameExactly(raw, bare); }
  }

  /** Otherwise the subject does, for the only name, and nothing for any other. */
  lemma SubjectFillsIn(params: map<Text, Text>, subject: Text, only: bool, raw: Text)
    requires MeansNothing(params, raw)
    ensures only ==> Trims(subject, ValueFor(params, subject, only, raw))
    ensures !only ==> ValueFor(params, subject, only, raw) == []
  {
    OnlyOneBare(params, raw);
    TrimSpaceExactly(subject, TrimSpace(subject));
  }

  // ---------------------------------------------------------------- the result of a call

  /** The call fails exactly when some name was given nothing, unless it is the only one and there is a subject. */
  lemma MissingExactly(template: Text, params: map<Text, Text>, subject: Text)
    ensures var names := Names(template);
      Answer(template, params, subject).Missing? <==>
      exists k :: 0 <= k < |names| && MeansNothing(params, names[k]) && (|names| == 1 ==> Trims(subject, []))
  {
    var names := Names(template);
    var look := Source(names, params, subject);
    forall k | 0 <= k < |names|
      ensures look(names[k]) == [] <==> MeansNothing(params, names[k]) && (|names| == 1 ==> Trims(subject, []))
    {
      EmptyExactly(params, subject, |names| == 1, names[k]);
    }
    var k := FirstMissing(names, look, 0);
    if k < |names| { assert look(names[k]) == []; }
  }

  lemma EmptyExactly(params: map<Text, Text>, subject: Text, only: bool, raw: Text)
    ensures ValueFor(params, subject, only, raw) == [] <==> MeansNothing(params, raw) && (only ==> Trims(subject, []))
  {
    OnlyOneBare(params, raw);
    TrimSpaceExactly(subject, []);
  }

  /** Sources that agree on the names give the same result. */
  lemma {:induction false} SameTurns(template: Text, names: seq<Text>, n: nat, a: Text -> Text, b: Text -> Text)
    requires n <= |names| && forall k :: 0 <= k < |names| ==> a(names[k]) == b(names[k])
    ensures Successive(template, names, n, a) == Successive(template, names, n, b)
    decreases n
  {
    if n > 0 { SameTurns(template, names, n - 1, a, b); }
  }

  lemma {:induction false} SameMissing(names: seq<Text>, from: nat, a: Text -> Text, b: Text -> Text)
    requires from <= |names| && forall k :: 0 <= k < |names| ==> a(names[k]) == b(names[k])
    ensures FirstMissing(names, a, from) == FirstMissing(names, b, from)
    decreases |names| - from
  {
    if from < |names| && a(names[from]) != [] { SameMissing(names, from + 1, a, b); }
  }

  /** The subject never matters when every name was given something, nor when there is not exactly one name. */
  lemma SubjectNeverOverrides(template: Text, params: map<Text, Text>, subject: Text, other: Text)
    requires var names := Names(template);
      |names| != 1 || forall k :: 0 <= k < |names| ==> !MeansNothing(params, names[k])
    ensures Answer(template, params, subject) == Answer(template, params, other)
  {
    var names := Names(template);
    var a, b := Source(names, params, subject), Source(names, params, other);
    forall k | 0 <= k < |names| ensures a(names[k]) == b(names[k]) { OnlyOneBare(params, names[k]); }
    SameMissing(names, 0, a, b);
    SameTurns(template, names, |names|, a, b);
  }

  // ---------------------------------------------------------------- what is in the path

  /** The placeholder's text in the path, read back, is what the caller meant, or the subject. */
  ghost predicate Holds(text: Text, params: map<Text, Text>, subject: Text, only: bool, raw: Text) {
    && Free(text, OPEN) && Free(text, CLOSE) && Free(text, SLASH)
    && if MeansNothing(params, raw) then only && Trims(subject, Unescape(text)) && Unescape(text) != []
       else Means(params, raw, Unescape(text))
  }

  /** The template's pieces in the path: all as they were, but for the names, which hold their values. */
  ghost predicate FilledIn(ps: seq<Piece>, qs: seq<Piece>, names: seq<Text>, params: map<Text, Text>, subject: Text) {
    && |qs| == |ps|
    && forall i :: 0 <= i < |ps| ==>
         if ps[i].Hole? && ps[i].name in names then
           qs[i].Lit? && Holds(qs[i].text, params, subject, |names| == 1, ps[i].name)
         else qs[i] == ps[i]
  }

  lemma ValueHolds(params: map<Text, Text>, subject: Text, only: bool, raw: Text, text: Text)
    requires ValueFor(params, subject, only, raw) != [] && text == PathEscape(ValueFor(params, subject, only, raw))
    ensures Holds(text, params, subject, only, raw)
  {
    var v := ValueFor(params, subject, only, raw);
    UnescapeAfterEscape(v);
    if MeansNothing(params, raw) {
      SubjectFillsIn(params, subject, only, raw);
    } else {
      ParametersDecide(params, subject, only, raw, v);
    }
  }

  lemma FilledByNames(ps: seq<Piece>, names: seq<Text>, params: map<Text, Text>, subject: Text, m: map<Text, Text>)
    requires forall raw :: raw in m <==> raw in names
    requires forall raw :: raw in names ==> ValueFor(params, subject, |names| == 1, raw) != []
    requires forall raw :: raw in m ==> m[raw] == PathEscape(ValueFor(params, subject, |names| == 1, raw))
    ensures FilledIn(ps, Fill(ps, m), names, params, subject)
  {
    forall i | 0 <= i < |ps| && ps[i].Hole? && ps[i].name in names
      ensures Holds(m[ps[i].name], params, subject, |names| == 1, ps[i].name)
    {
      ValueHolds(params, subject, |names| == 1, ps[i].name, m[ps[i].name]);
    }
  }

  lemma NamesHaveValues(names: seq<Text>, look: Text -> Text, raw: Text)
    requires FirstMissing(names, look, 0) == |names| && raw in names
    ensures look(raw) != []
  {
    var k :| 0 <= k < |names| && names[k] == raw;
  }

  /** A path that is answered is the template with every name filled by what the caller gave for it. */
  lemma PathHoldsValues(template: Text, params: map<Text, Text>, subject: Text)
    requires Answer(template, params, subject).Ok? && !Clash(Parse(template).pieces, Names(template))
    ensures var t, names := Parse(template), Names(template);
      exists qs :: FilledIn(t.pieces, qs, names, params, subject)
                   && Answer(template, params, subject) == Ok(Render(Template(qs, t.tail)))
  {
    var t, names := Parse(template), Names(template);
    var look := Source(names, params, subject);
    var m := Assigned(names, |names|, look);
    assert FilledIn(t.pieces, Fill(t.pieces, m), names, params, subject) by {
      AnsweredIsFilled(template, params, subject);
    }
    assert Answer(template, params, subject) == Ok(Filled(t, m)) by { SuccessiveIsSimultaneous(template, look); }
  }

  lemma AnsweredIsFilled(template: Text, params: map<Text, Text>, subject: Text)
    requires Answer(template, params, subject).Ok?
    ensures var t, names := Parse(template), Names(template);
      var m := Assigned(names, |names|, Source(names, params, subject));
      FilledIn(t.pieces, Fill(t.pieces, m), names, params, subject)
  {
    var t, names := Parse(template), Names(template);
    var look := Source(names, params, subject);
    assert names[..|names|] == names;
    forall raw | raw in names ensures look(raw) != [] { NamesHaveValues(names, look, raw); }
    FilledByNames(t.pieces, names, params, subject, Assigned(names, |names|, look));
  }

  /** Text goes into a path as it is exactly when it is made of these characters. */
  lemma {:induction false} PlainTextStays(t: Text)
    ensures PathEscape(t) == t <==> forall k :: 0 <= k < |t| ==> IsAlnum(t[k]) || t[k] as char in "-_.~$&+:=@"
    ensures |PathEscape(t)| >= |t|
  {
    if t != [] {
      PlainTextStays(t[1..]);
      PlainBytes(t[0]);
      assert t == [t[0]] + t[1..];
      if IsPlain(t[0]) { assert PathEscape(t)[1..] == PathEscape(t[1..]); }
    }
  }
}
