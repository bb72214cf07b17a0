/** What an Accept-Encoding header says, from its text: the weights it spells out, and the coding chosen for it
    (sections 12.4.2 and 12.5.3 of RFC 9110). */
module NegotiationLaws {
  import opened Text
  import Q = QuotedList
  import opened Negotiation

  // ----- one weight -----

  /** Digits after the dot, the first worth `unit` thousandths. */
  function Thousandths(digits: string, unit: nat): int {
    if digits == "" then 0 else (digits[0] as int - '0' as int) * unit + Thousandths(digits[1..], unit / 10)
  }

  predicate UpToThreeDigits(s: string) {
    |s| <= 3 && forall i :: 0 <= i < |s| ==> IsDigit(s[i])
  }

  predicate UpToThreeZeros(s: string) {
    |s| <= 3 && forall i :: 0 <= i < |s| ==> s[i] == '0'
  }

  /** The grammar of a weight: zero with up to three decimals, or one with up to three zeros. */
  predicate IsWeight(s: string) {
    s == "0" || s == "1" || ("0." <= s && UpToThreeDigits(s[2..])) || ("1." <= s && UpToThreeZeros(s[2..]))
  }

  /** Its value in thousandths. */
  function WeightOf(s: string): int
    requires IsWeight(s)
  {
    if s[0] == '1' then 1000 else if |s| == 1 then 0 else Thousandths(s[2..], 100)
  }

  lemma ThreeDigits(s: string)
    requires UpToThreeDigits(s)
    ensures Thousandths(s, 100) ==
      (if |s| > 0 then (s[0] as int - '0' as int) * 100 else 0) +
        (if |s| > 1 then (s[1] as int - '0' as int) * 10 else 0)
      + if |s| > 2 then s[2] as int - '0' as int else 0
  {
    if |s| > 0 {
      var t := s[1..];
      assert Thousandths(s, 100) == (s[0] as int - '0' as int) * 100 + Thousandths(t, 10);
      if |s| > 1 {
        var u := t[1..];
        assert t[0] == s[1] && Thousandths(t, 10) == (s[1] as int - '0' as int) * 10 + Thousandths(u, 1);
        if |s| > 2 {
          assert u[0] == s[2] && u[1..] == "" && Thousandths("", 0) == 0;
          assert Thousandths(u, 1) == (s[2] as int - '0' as int) * 1 + Thousandths(u[1..], 0);
        }
      }
    }
  }

  /** Exactly the texts of the grammar are read, and as their values. */
  lemma WeightsAreRead(s: string)
    ensures WeightText(s).Some? <==> IsWeight(s)
    ensures IsWeight(s) ==> WeightText(s) == Some(WeightOf(s))
  {
    if |s| >= 2 {
      var rest := s[2..];
      assert forall i :: 0 <= i < |rest| ==> rest[i] == s[i + 2];
      assert forall i :: 2 <= i < |s| ==> s[i] == rest[i - 2];
      if UpToThreeDigits(rest) {
        ThreeDigits(rest);
      }
    }
  }

  // ----- one preference -----

  /** A preference as clients write it, after some blanks: a coding, and perhaps its weight. */
  datatype Pref = Pref(blanks: string, token: string, weight: Option<string>)

  function Spell(p: Pref): string {
    p.blanks + (p.token + if p.weight.None? then "" else ";q=" + p.weight.value)
  }

  predicate WellSpelled(p: Pref) {
    (forall c :: c in p.blanks ==> c == ' ') && IsToken(p.token) && (p.weight.Some? ==> IsWeight(p.weight.value))
  }

  /** What it means, in thousandths; no weight means full weight. */
  function Meaning(p: Pref): int
    requires WellSpelled(p)
  {
    if p.weight.None? then 1000 else WeightOf(p.weight.value)
  }

  lemma TokenText(s: string)
    requires IsToken(s)
    ensures Lower(s) == s && Q.Tight(s) && ';' !in s && ',' !in s
  {
    forall i | 0 <= i < |s| ensures LowerChar(s[i]) == s[i] && !IsSpace(s[i]) && s[i] != ';' && s[i] != ',' {
      TokenChar(s[i]);
    }
    assert Lower(s) == s;
  }

  lemma TokenChar(c: char)
    requires IsTokenChar(c)
    ensures LowerChar(c) == c && !IsSpace(c) && c != ';' && c != ','
  {
  }

  lemma WeightChars(s: string)
    requires IsWeight(s)
    ensures Q.Tight(s) && ';' !in s && ',' !in s && SkipBlanks(s) == s
  {
    if |s| >= 2 {
      var rest := s[2..];
      assert s == s[..2] + rest;
      assert forall i :: 2 <= i < |s| ==> s[i] == rest[i - 2];
    }
  }

  lemma NoBlanks(s: string)
    requires s != "" && s[0] != ' ' && s[0] != '\t'
    ensures SkipBlanks(s) == s
  {
  }

  lemma ParameterRead(w: string)
    requires IsWeight(w)
    ensures ParseQ(["q=" + w]) == WeightOf(w)
  {
    hide Trim, WeightText, IsWeight, SkipBlanks, WeightOf;
    WeightChars(w);
    WeightsAreRead(w);
    var s := "q=" + w;
    assert s[1..] == "=" + w && ("=" + w)[1..] == w;
    NoBlanks("=" + w);
    assert s[0] == 'q' && s[|s| - 1] == w[|w| - 1];
    Q.BlanksTrim("", s);
    assert "" + s == s;
    assert MatchQ(s) == WeightText(w);
  }

  lemma TokenRead(part: string, token: string)
    requires IsToken(token) && Trim(part) == token
    ensures Declared(part) == Some((token, 1000))
  {
    hide Trim, Lower, Split, IsToken;
    TokenText(token);
    SplitNone(token, ';');
    Q.BlanksTrim("", token);
    assert "" + token == token && [token][1..] == [];
  }

  lemma WeightedRead(part: string, token: string, w: string)
    requires IsToken(token) && IsWeight(w) && Trim(part) == token + ([';'] + ("q=" + w))
    ensures Declared(part) == Some((token, WeightOf(w)))
  {
    hide Trim, Lower, Split, IsToken, IsWeight, ParseQ, WeightOf;
    TokenText(token);
    WeightChars(w);
    SplitConcat(token, "q=" + w, ';');
    SplitNone(token, ';');
    SplitNone("q=" + w, ';');
    ParameterRead(w);
    Q.BlanksTrim("", token);
    assert "" + token == token;
    var pieces := [token] + ["q=" + w];
    assert pieces[0] == token && pieces[1..] == ["q=" + w];
  }

  /** A well-spelled preference declares its coding with its weight. */
  lemma PreferenceRead(p: Pref)
    requires WellSpelled(p)
    ensures Declared(Spell(p)) == Some((p.token, Meaning(p)))
  {
    hide Trim, Declared, IsToken, IsWeight, WeightOf;
    TokenText(p.token);
    if p.weight.None? {
      assert p.token + "" == p.token;
      Q.BlanksTrim(p.blanks, p.token);
      TokenRead(Spell(p), p.token);
    } else {
      var w := p.weight.value;
      WeightChars(w);
      var text := p.token + (";q=" + w);
      assert text[0] == p.token[0] && text[|text| - 1] == w[|w| - 1];
      Q.BlanksTrim(p.blanks, text);
      assert text == p.token + ([';'] + ("q=" + w));
      WeightedRead(Spell(p), p.token, w);
    }
  }

  // ----- a header -----

  function SpellAll(ps: seq<Pref>): (r: seq<string>)
    ensures |r| == |ps| && forall i :: 0 <= i < |ps| ==> r[i] == Spell(ps[i])
  {
    seq(|ps|, i requires 0 <= i < |ps| => Spell(ps[i]))
  }

  lemma NoComma(p: Pref)
    requires WellSpelled(p)
    ensures ',' !in Spell(p)
  {
    hide IsToken, IsWeight;
    TokenText(p.token);
    if p.weight.Some? {
      WeightChars(p.weight.value);
    }
  }

  /** The header row is taken apart into its preferences again. */
  lemma HeaderParts(ps: seq<Pref>)
    requires ps != [] && forall p :: p in ps ==> WellSpelled(p)
    ensures PartsOf([Join(SpellAll(ps), ",")]) == SpellAll(ps)
  {
    hide Spell, WellSpelled;
    var row := Join(SpellAll(ps), ",");
    forall part | part in SpellAll(ps) ensures ',' !in part {
      var i :| 0 <= i < |ps| && SpellAll(ps)[i] == part;
      NoComma(ps[i]);
    }
    SplitOfJoin(SpellAll(ps), ',');
    JoinCons(row, [], ",");
    assert [row] + [] == [row];
  }

  /** The least weight the preferences give the coding. */
  ghost predicate LeastOf(ps: seq<Pref>, token: string, w: nat)
    requires forall p :: p in ps ==> WellSpelled(p)
  {
    (exists p :: p in ps && p.token == token && Meaning(p) == w)
    && forall p :: p in ps && p.token == token ==> w <= Meaning(p)
  }

  /** The weight negotiation works with is the least one the header spells out for the coding, if it does at all. */
  lemma HeaderWeight(ps: seq<Pref>, token: string)
    requires ps != [] && forall p :: p in ps ==> WellSpelled(p)
    ensures var w := Weight(PartsOf([Join(SpellAll(ps), ",")]), token);
      && (w.Some? ==> LeastOf(ps, token, w.value))
      && (w.None? <==> forall p :: p in ps ==> p.token != token)
  {
    hide Spell, Declared, WellSpelled, Meaning, PartsOf;
    HeaderParts(ps);
    var parts := SpellAll(ps);
    WeightIsLeast(parts, token);
    forall i | 0 <= i < |ps| ensures Declared(parts[i]) == Some((ps[i].token, Meaning(ps[i]))) && parts[i] in parts {
      PreferenceRead(ps[i]);
    }
    forall p | p in ps ensures exists i :: 0 <= i < |ps| && ps[i] == p && Declares(parts[i], p.token, Meaning(p)) {
      var i :| 0 <= i < |ps| && ps[i] == p;
      assert Declares(parts[i], p.token, Meaning(p));
    }
    var w := Weight(parts, token);
    if w.Some? {
      var part :| part in parts && Declares(part, token, w.value);
      var i :| 0 <= i < |parts| && parts[i] == part;
      assert ps[i] in ps;
    }
  }

  /** The weight a coding ends up with: its own, else the wildcard's, else none. */
  ghost predicate Weighs(ps: seq<Pref>, token: string, w: nat)
    requires forall p :: p in ps ==> WellSpelled(p)
  {
    if exists p :: p in ps && p.token == token then LeastOf(ps, token, w)
    else if exists p :: p in ps && p.token == "*" then LeastOf(ps, "*", w)
    else w == 0
  }

  lemma OneLeast(ps: seq<Pref>, token: string, m: nat, n: nat)
    requires forall p :: p in ps ==> WellSpelled(p)
    ensures LeastOf(ps, token, m) && LeastOf(ps, token, n) ==> m == n
  {
    hide WellSpelled, Meaning;
  }

  /** The weight the choice looks up for a coding. */
  lemma Weighed(ps: seq<Pref>, token: string, w: nat)
    requires ps != [] && (forall p :: p in ps ==> WellSpelled(p)) && Weighs(ps, token, w)
    ensures Effective(PartsOf([Join(SpellAll(ps), ",")]), token) == w
  {
    hide WellSpelled, Meaning, PartsOf, Weight, Join, LeastOf;
    HeaderWeight(ps, token);
    HeaderWeight(ps, "*");
    forall t, n ensures LeastOf(ps, t, w) && LeastOf(ps, t, n) ==> w == n {
      OneLeast(ps, t, w, n);
    }
  }

  /** The coding chosen for a header as spelled: the heavier of the two if its weight is positive and identity is not
      explicitly heavier, Brotli when they are equal. */
  lemma HeaderChooses(ps: seq<Pref>, br: nat, gzip: nat, identity: nat)
    requires ps != [] && forall p :: p in ps ==> WellSpelled(p)
    requires Weighs(ps, "br", br) && Weighs(ps, "gzip", gzip)
    requires if exists p :: p in ps && p.token == "identity" then LeastOf(ps, "identity", identity) else identity == 0
    ensures var best, chosen := if br >= gzip then br else gzip, Select(PartsOf([Join(SpellAll(ps), ",")]));
      chosen == if best > 0 && identity <= best then Some(if br >= gzip then Brotli else Gzip) else None
  {
    hide WellSpelled, PartsOf, Weight, Join, LeastOf;
    Weighed(ps, "br", br);
    Weighed(ps, "gzip", gzip);
    HeaderWeight(ps, "identity");
    forall m, n ensures LeastOf(ps, "identity", m) && LeastOf(ps, "identity", n) ==> m == n {
      OneLeast(ps, "identity", m, n);
    }
  }
}
