/** Go strings, which are byte sequences, and decimal numerals in them. */
module Text {
  import opened Bytes

  type Text = seq<Byte>

  function Ascii(s: string): (t: Text)
    ensures |t| == |s|
  {
    seq(|s|, i requires 0 <= i < |s| => s[i] as int % TWO_8)
  }

  predicate IsSpace(b: Byte) { b == 32 || 9 <= b <= 13 }

  /** strings.TrimSpace on ASCII text. */
  function TrimSpace(t: Text): (r: Text)
    ensures r == [] || (!IsSpace(r[0]) && !IsSpace(r[|r| - 1]))
    decreases |t|
  {
    if t == [] then []
    else if IsSpace(t[0]) then TrimSpace(t[1..])
    else if IsSpace(t[|t| - 1]) then TrimSpace(t[..|t| - 1])
    else t
  }

  predicate SpaceBetween(t: Text, i: nat, j: nat)
    requires j <= |t|
  {
    forall k :: i <= k < j ==> IsSpace(t[k])
  }

  /** What is outside i and j is space; what is inside begins and ends in something else, or is nothing. */
  predicate CutsSpace(t: Text, i: nat, j: nat) {
    && i <= j <= |t| && SpaceBetween(t, 0, i) && SpaceBetween(t, j, |t|)
    && (i == j || (!IsSpace(t[i]) && !IsSpace(t[j - 1])))
  }

  /** r is t without the space around it. */
  ghost predicate Trims(t: Text, r: Text) {
    exists i, j :: 0 <= i <= j && CutsSpace(t, i, j) && r == t[i..j]
  }

  lemma {:induction false} TrimSpaceCuts(t: Text) returns (i: nat, j: nat)
    ensures CutsSpace(t, i, j) && TrimSpace(t) == t[i..j]
    decreases |t|
  {
    if t == [] {
      i, j := 0, 0;
    } else if IsSpace(t[0]) {
      var k, l := TrimSpaceCuts(t[1..]);
      i, j := k + 1, l + 1;
      CutAfterFirst(t, k, l);
    } else if IsSpace(t[|t| - 1]) {
      i, j := TrimSpaceCuts(t[..|t| - 1]);
      CutBeforeLast(t, i, j);
    } else {
      i, j := 0, |t|;
      assert t[0..|t|] == t;
    }
  }

  lemma CutAfterFirst(t: Text, k: nat, l: nat)
    requires t != [] && IsSpace(t[0]) && CutsSpace(t[1..], k, l)
    ensures CutsSpace(t, k + 1, l + 1) && t[1..][k..l] == t[k + 1..l + 1]
  {
    assert forall m :: 0 < m < |t| ==> t[m] == t[1..][m - 1];
  }

  lemma CutBeforeLast(t: Text, i: nat, j: nat)
    requires t != [] && IsSpace(t[|t| - 1]) && CutsSpace(t[..|t| - 1], i, j)
    ensures CutsSpace(t, i, j) && t[..|t| - 1][i..j] == t[i..j]
  {
    assert forall m :: 0 <= m < |t| - 1 ==> t[m] == t[..|t| - 1][m];
  }

  /** What trimming gives is the one text that is all of t but the space around it. */
  lemma TrimSpaceExactly(t: Text, r: Text)
    ensures TrimSpace(t) == r <==> Trims(t, r)
  {
    var i, j := TrimSpaceCuts(t);
    if Trims(t, r) {
      var k, l :| 0 <= k <= l && CutsSpace(t, k, l) && r == t[k..l];
      OneCut(t, i, j, k, l);
    }
  }

  lemma OneCut(t: Text, i: nat, j: nat, k: nat, l: nat)
    requires CutsSpace(t, i, j) && CutsSpace(t, k, l)
    ensures t[i..j] == t[k..l]
  {
    assert i < j ==> k <= i && j <= l;
    assert k < l ==> i <= k && l <= j;
  }

  /** fmt's %d of a non-negative number. */
  function Decimal(n: nat): (t: Text)
    ensures t != []
  {
    if n < 10 then [48 + n] else Decimal(n / 10) + [48 + n % 10]
  }

  lemma {:induction false} DecimalInjective(m: nat, n: nat)
    ensures Decimal(m) == Decimal(n) ==> m == n
  {
    var a, b := Decimal(m), Decimal(n);
    if a == b {
      assert a[|a| - 1] == 48 + m % 10 && b[|b| - 1] == 48 + n % 10;
      if m >= 10 && n >= 10 {
        assert a[..|a| - 1] == Decimal(m / 10) && b[..|b| - 1] == Decimal(n / 10);
        DecimalInjective(m / 10, n / 10);
      }
    }
  }
}
