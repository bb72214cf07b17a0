/** Accept-Encoding negotiation (section 12.5.3 of RFC 9110). Weights are counted in
    thousandths, which is exact: a weight has at most three decimals. */
module Negotiation {
  import opened Text

  datatype Coding = Brotli | Gzip

  function NameOf(c: Coding): string {
    match c
    case Brotli => "br"
    case Gzip => "gzip"
  }

  predicate IsDigit(c: char) {
    '0' <= c <= '9'
  }

  function SkipBlanks(s: string): string {
    if s != "" && (s[0] == ' ' || s[0] == '\t') then SkipBlanks(s[1..]) else s
  }

  /** 0 or 1, a dot, up to three decimals; after 1 only zeros. */
  function WeightText(s: string): (r: Option<nat>)
    ensures r.Some? ==> r.value <= 1000
  {
    if s == "0" then Some(0)
    else if s == "1" then Some(1000)
    else if |s| < 2 || |s| > 5 || s[1] != '.' || exists i :: 2 <= i < |s| && !IsDigit(s[i]) then None
    else if s[0] == '0' then
      Some((if |s| > 2 then (s[2] as int - '0' as int) * 100 else 0)
         + (if |s| > 3 then (s[3] as int - '0' as int) * 10 else 0)
         + (if |s| > 4 then s[4] as int - '0' as int else 0))
    else if s[0] == '1' && forall i :: 2 <= i < |s| ==> s[i] == '0' then Some(1000)
    else None
  }

  /** q = weight, with blanks around the equals sign. */
  function MatchQ(s: string): (r: Option<nat>)
    ensures r.Some? ==> r.value <= 1000
  {
    if s == "" || (s[0] != 'q' && s[0] != 'Q') then None
    else
      var rest := SkipBlanks(s[1..]);
      if rest == "" || rest[0] != '=' then None else WeightText(SkipBlanks(rest[1..]))
  }

  /** No parameter means weight one; anything but a single well-formed weight refuses. */
  function ParseQ(params: seq<string>): (q: nat)
    ensures q <= 1000
  {
    if params == [] then 1000
    else if |params| != 1 then 0
    else
      match MatchQ(Trim(params[0]))
      case None => 0
      case Some(q) => q
  }

  predicate IsTokenChar(c: char) {
    IsDigit(c) || 'a' <= c <= 'z' || c in "!#$%&'*+-.^_`|~"
  }

  predicate IsToken(s: string) {
    s != "" && forall i :: 0 <= i < |s| ==> IsTokenChar(s[i])
  }

  /** What one comma-separated part declares, if it names a token at all. */
  function Declared(part: string): (r: Option<(string, nat)>)
    ensures r.Some? ==> r.value.1 <= 1000
  {
    var pieces := Split(Trim(part), ';');
    var token := Lower(Trim(pieces[0]));
    if IsToken(token) then Some((token, ParseQ(pieces[1..]))) else None
  }

  predicate Declares(part: string, token: string, q: nat) {
    Declared(part) == Some((token, q))
  }

  function Min(a: nat, b: nat): nat {
    if a <= b then a else b
  }

  /** The least weight the parts declare for the token. */
  function Weight(parts: seq<string>, token: string): (w: Option<nat>)
    ensures w.Some? ==> w.value <= 1000
  {
    if parts == [] then None
    else
      var rest := Weight(parts[..|parts| - 1], token);
      match Declared(parts[|parts| - 1])
      case None => rest
      case Some(d) =>
        if d.0 != token then rest else Some(Min(if rest.Some? then rest.value else 1000, d.1))
  }

  /** Declared by some part, and below or equal to whatever any part declares. */
  ghost predicate IsLeast(parts: seq<string>, token: string, w: nat) {
    && (exists p :: p in parts && Declares(p, token, w))
    && forall p, q: nat :: p in parts && Declares(p, token, q) ==> w <= q
  }

  lemma {:induction false} WeightIsLeast(parts: seq<string>, token: string)
    ensures Weight(parts, token).Some? ==> IsLeast(parts, token, Weight(parts, token).value)
    ensures Weight(parts, token).None? ==> forall p, q: nat :: p in parts ==> !Declares(p, token, q)
  {
    hide Declared;
    if parts != [] {
      var init, last := parts[..|parts| - 1], parts[|parts| - 1];
      WeightIsLeast(init, token);
      assert forall p :: p in parts <==> p in init || p == last;
      if Declared(last).Some? && Declared(last).value.0 == token {
        assert Declares(last, token, Declared(last).value.1);
      }
    }
  }

  /** Order and repetition of the parts do not matter. */
  lemma WeightByElements(a: seq<string>, b: seq<string>, token: string)
    requires forall p :: p in a <==> p in b
    ensures Weight(a, token) == Weight(b, token)
  {
    WeightIsLeast(a, token);
    WeightIsLeast(b, token);
  }

  method EncodingPreferences(rows: seq<string>) returns (preferences: map<string, nat>)
    ensures Represents(preferences, PartsOf(rows))
  {
    hide Declared, PartsOf;
    var parts := PartsOf(rows);
    preferences := map[];
    for i := 0 to |parts|
      invariant Represents(preferences, parts[..i])
    {
      assert parts[..i + 1][..i] == parts[..i];
      var declared := Declared(parts[i]);
      if declared.Some? {
        var (token, q) := declared.value;
        preferences := preferences[token := Min(if token in preferences then preferences[token] else 1000, q)];
      }
    }
    assert parts[..|parts|] == parts;
  }

  /** The parts of all header rows, joined the way the program joins them. */
  function PartsOf(rows: seq<string>): seq<string> {
    Split(Join(rows, ","), ',')
  }

  /** The weight negotiation uses: the coding's own, else the wildcard's, else none. */
  function Effective(parts: seq<string>, token: string): nat {
    match (Weight(parts, token), Weight(parts, "*"))
    case (Some(w), _) => w
    case (None, Some(w)) => w
    case _ => 0
  }

  function Explicit(parts: seq<string>, token: string): nat {
    match Weight(parts, token)
    case Some(w) => w
    case None => 0
  }

  /** Higher weight wins, Brotli on ties; a strictly higher explicit identity weight wins over both. */
  function Choose(br: nat, gzip: nat, identity: nat): Option<Coding> {
    var best := if br >= gzip then br else gzip;
    if best == 0 || identity > best then None
    else if br >= gzip then Some(Brotli) else Some(Gzip)
  }

  function Select(parts: seq<string>): Option<Coding> {
    Choose(Effective(parts, "br"), Effective(parts, "gzip"), Explicit(parts, "identity"))
  }

  /** The map holds exactly the declared weights. */
  ghost predicate Represents(preferences: map<string, nat>, parts: seq<string>) {
    forall token :: (token in preferences <==> Weight(parts, token).Some?)
      && (token in preferences ==> preferences[token] == Weight(parts, token).value)
  }

  function Lookup(preferences: map<string, nat>, token: string): nat {
    if token in preferences then preferences[token] else if "*" in preferences then preferences["*"] else 0
  }

  lemma LookupIsEffective(preferences: map<string, nat>, parts: seq<string>, token: string)
    requires Represents(preferences, parts)
    ensures Lookup(preferences, token) == Effective(parts, token)
    ensures (if token in preferences then preferences[token] else 0) == Explicit(parts, token)
  {
  }

  method SelectContentEncoding(rows: seq<string>) returns (r: Option<Coding>)
    ensures r == Select(PartsOf(rows))
  {
    var preferences := EncodingPreferences(rows);
    LookupIsEffective(preferences, PartsOf(rows), "br");
    LookupIsEffective(preferences, PartsOf(rows), "gzip");
    LookupIsEffective(preferences, PartsOf(rows), "identity");
    var identity := if "identity" in preferences then preferences["identity"] else 0;
    return Choose(Lookup(preferences, "br"), Lookup(preferences, "gzip"), identity);
  }

  // ----- what the choice means -----

  /** A choice is acceptable to every part that speaks about it: positive, at least the other
      coding's weight, at least any declared identity weight the negotiation honours. */
  lemma SelectedIsBest(parts: seq<string>)
    ensures Select(parts).Some? ==>
      var chosen := NameOf(Select(parts).value);
      && Effective(parts, chosen) > 0
      && (forall c :: Effective(parts, chosen) >= Effective(parts, NameOf(c)))
      && (forall p, q: nat :: p in parts && Declares(p, chosen, q) ==> q >= Effective(parts, chosen))
      && (Weight(parts, "identity").Some? ==> Effective(parts, chosen) >= Weight(parts, "identity").value)
    ensures Select(parts).None? <==>
      forall c :: Effective(parts, NameOf(c)) == 0 || Effective(parts, NameOf(c)) < Explicit(parts, "identity")
  {
    WeightIsLeast(parts, "br");
    WeightIsLeast(parts, "gzip");
    assert NameOf(Brotli) == "br" && NameOf(Gzip) == "gzip";
    if Select(parts).None? {
      forall c ensures Effective(parts, NameOf(c)) == 0 || Effective(parts, NameOf(c)) < Explicit(parts, "identity") {
        match c case Brotli => case Gzip =>
      }
    }
  }

  /** A part that refuses a coding settles it, whatever other parts or a wildcard say. */
  lemma RefusalStands(parts: seq<string>, part: string, c: Coding)
    requires part in parts && Declares(part, NameOf(c), 0)
    ensures Effective(parts, NameOf(c)) == 0 && Select(parts) != Some(c)
  {
    WeightIsLeast(parts, NameOf(c));
  }

  function Flatten(lists: seq<seq<string>>): seq<string> {
    if lists == [] then [] else lists[0] + Flatten(lists[1..])
  }

  function SplitAll(rows: seq<string>): seq<seq<string>> {
    if rows == [] then [] else [Split(rows[0], ',')] + SplitAll(rows[1..])
  }

  /** Joining rows and splitting again yields the parts row by row. */
  lemma {:induction false} RowsSplit(rows: seq<string>)
    requires rows != []
    ensures PartsOf(rows) == Flatten(SplitAll(rows))
  {
    if |rows| == 1 {
      assert SplitAll(rows)[1..] == [];
    } else {
      RowsSplit(rows[1..]);
      SplitConcat(rows[0], Join(rows[1..], ","), ',');
      assert SplitAll(rows)[1..] == SplitAll(rows[1..]);
    }
  }

  ghost predicate InSomeRow(rows: seq<string>, p: string) {
    exists i :: 0 <= i < |rows| && p in Split(rows[i], ',')
  }

  lemma {:induction false} FlattenElements(rows: seq<string>, p: string)
    ensures p in Flatten(SplitAll(rows)) <==> InSomeRow(rows, p)
  {
    if rows != [] {
      FlattenElements(rows[1..], p);
      assert SplitAll(rows)[1..] == SplitAll(rows[1..]);
      if InSomeRow(rows[1..], p) {
        var i :| 0 <= i < |rows[1..]| && p in Split(rows[1..][i], ',');
        assert p in Split(rows[i + 1], ',');
      }
      if InSomeRow(rows, p) && p !in Split(rows[0], ',') {
        var i :| 0 <= i < |rows| && p in Split(rows[i], ',');
        assert rows[1..][i - 1] == rows[i];
      }
    }
  }

  lemma PartsInRows(rows: seq<string>, p: string)
    requires rows != []
    ensures p in PartsOf(rows) <==> InSomeRow(rows, p)
  {
    RowsSplit(rows);
    FlattenElements(rows, p);
  }

  lemma SelectByElements(a: seq<string>, b: seq<string>)
    requires forall p :: p in a <==> p in b
    ensures Select(a) == Select(b)
  {
    WeightByElements(a, b, "br");
    WeightByElements(a, b, "gzip");
    WeightByElements(a, b, "*");
    WeightByElements(a, b, "identity");
  }

  /** Reordering or repeating header rows, and reordering parts within them, never changes the outcome. */
  lemma OrderIrrelevant(a: seq<string>, b: seq<string>)
    requires a != [] && b != [] && forall p :: InSomeRow(a, p) <==> InSomeRow(b, p)
    ensures Select(PartsOf(a)) == Select(PartsOf(b))
  {
    forall p ensures p in PartsOf(a) <==> p in PartsOf(b) {
      PartsInRows(a, p);
      PartsInRows(b, p);
    }
    SelectByElements(PartsOf(a), PartsOf(b));
  }

  lemma RowOrderIrrelevant(a: seq<string>, b: seq<string>)
    requires multiset(a) == multiset(b)
    ensures Select(PartsOf(a)) == Select(PartsOf(b))
  {
    assert |multiset(a)| == |multiset(b)|;
    if a == [] || b == [] {
      assert a == b;
    } else {
      forall p ensures InSomeRow(a, p) <==> InSomeRow(b, p) {
        if InSomeRow(a, p) { RowsPermuted(a, b, p); }
        if InSomeRow(b, p) { RowsPermuted(b, a, p); }
      }
      OrderIrrelevant(a, b);
    }
  }

  lemma RowsPermuted(a: seq<string>, b: seq<string>, p: string)
    requires multiset(a) == multiset(b) && InSomeRow(a, p)
    ensures InSomeRow(b, p)
  {
    var i :| 0 <= i < |a| && p in Split(a[i], ',');
    assert a[i] in multiset(b);
    var j :| 0 <= j < |b| && b[j] == a[i];
  }
}
