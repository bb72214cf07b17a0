/** Two responses the proxy stores, and the hits on them that show where its freshness and its Age fall short. */
module ProxyCacheCases {
  import opened Text
  import Json
  import Q = QuotedList
  import opened ProxyHeaders
  import opened Freshness
  import opened StaticCache
  import opened ProxyCache

  // ----- reading short lists of headers -----

  lemma {:induction false} HeaderMissing(headers: Json.Headers, name: string)
    requires forall i :: 0 <= i < |headers| ==> Lower(headers[i].0) != name
    ensures HeaderValues(headers, name) == [] && !HasHeader(headers, name)
  {
    if headers != [] {
      HeaderMissing(headers[1..], name);
    }
  }

  lemma {:induction false} HeaderOnce(headers: Json.Headers, k: nat, name: string, text: string)
    requires k < |headers| && headers[k].1 == Json.Single(text) && Lower(headers[k].0) == name
    requires forall i :: 0 <= i < |headers| && i != k ==> Lower(headers[i].0) != name
    ensures HeaderValues(headers, name) == [text]
  {
    if k == 0 {
      HeaderMissing(headers[1..], name);
    } else {
      HeaderOnce(headers[1..], k - 1, name, text);
    }
  }

  lemma {:induction false} FieldAt(headers: Json.Headers, k: nat, name: string)
    requires k < |headers| && headers[k].0 == name && !headers[k].1.Absent?
    requires forall i :: 0 <= i < k ==> headers[i].0 != name
    ensures Field(headers, name) == headers[k].1
  {
    if k > 0 {
      FieldAt(headers[1..], k - 1, name);
    }
  }

  lemma {:induction false} FieldMissing(headers: Json.Headers, name: string)
    requires forall i :: 0 <= i < |headers| ==> headers[i].0 != name
    ensures Field(headers, name).Absent?
  {
    if headers != [] {
      FieldMissing(headers[1..], name);
    }
  }

  /** The names are in lower case as they stand. */
  lemma LowerNames()
    ensures Lower("date") == "date" && Lower("connection") == "connection" && Lower("cache-control") == "cache-control"
    ensures Lower("content-type") == "content-type" && Lower("max-age") == "max-age" && Lower("text/css") == "text/css"
  {
    assert Lower("date") == "date";
    assert Lower("connection") == "connection";
    assert Lower("cache-control") == "cache-control";
    assert Lower("content-type") == "content-type";
    assert Lower("max-age") == "max-age";
    assert Lower("text/css") == "text/css";
  }

  lemma BareType(text: string)
    requires ';' !in text && Trim(text) == text == Lower(text)
    ensures MediaType(text) == text
  {
    hide Trim, Lower;
    assert text + [] == text;
    BeforeConcat(text, [], ';');
  }

  lemma StyleSheetType()
    ensures MediaType("text/css") == "text/css"
  {
    assert Trim("text/css") == "text/css";
    LowerNames();
    hide MediaType, Trim, Lower;
    BareType("text/css");
  }

  /** What admission asks of a style sheet without Vary. */
  lemma StyleSheetIsCacheable(headers: Json.Headers)
    requires HeaderValues(headers, "content-type") == ["text/css"] && HeaderValues(headers, "vary") == []
    requires !HasHeader(headers, "set-cookie") && !HasHeader(headers, "content-range") && !ForbidsCaching(headers, true)
    ensures Cacheable(headers, 200)
  {
    hide HeaderValues, HasHeader, ForbidsCaching, MediaType, Lower, Trim, Split;
    StyleSheetType();
  }

  /** A response that is fresh and fits is stored. */
  lemma FittingStores(limits: Limits, dates: Dates, r: Request, a: Arrival)
    requires limits.Valid() && limits.maxEntries > 0 && limits.ttlMs > 0 && StoreTtl(a, dates) > 0
    requires 0 <= a.headersAt <= a.putClock && a.headersAt <= a.ttlClock && a.headersAt <= MAX_SAFE_INTEGER
    requires EntrySize(KeyOf(r), StoredResponse(a, dates), r.sessionId) <= Min(limits.maxEntryBytes, limits.maxBytes)
    ensures Judge(limits, a.putClock, KeyOf(r), StoredResponse(a, dates), r.sessionId, Some(StoreTtl(a, dates))).Stores?
  {
    hide KeyOf, EntrySize, TtlMs, Copy;
  }

  // ----- a Date the copy does not keep -----

  function DroppedDate(dates: Dates, edits: seq<Edit>, body: seq<bv8>): Arrival {
    Arrival(DroppedDateUpstream(dates.render(1001000)), edits, body, 1000999, 1000999, 1000999)
  }

  function DroppedDateUpstream(date: string): Json.Headers {
    [("content-type", Json.Single("text/css")), ("date", Json.Single(date)), ("connection", Json.Single("date")),
     ("cache-control", Json.Single("max-age=60"))]
  }

  /** A Date a millisecond ahead of the receipt, nominated by Connection: the copy is given one 999 ms older, and at
      its last moment in the cache it is served with an Age of 61 against a max-age of 60. */
  lemma DroppedDateOverstates(limits: Limits, events: seq<Event>, dates: Dates, r: Request, edits: seq<Edit>,
                              body: seq<bv8>)
    requires limits.Valid() && limits.ttlMs >= DEFAULT_TTL_MS && Lawful(dates)
    requires limits.maxEntries > 0
    requires EntrySize(KeyOf(r), StoredResponse(DroppedDate(dates, edits, body), dates), r.sessionId)
             <= Min(limits.maxEntryBytes, limits.maxBytes)
    ensures var a := DroppedDate(dates, edits, body);
      var served := Served(limits, events + [Store(r, a)], dates, r, 1060998);
      && Cacheable(a.upstream, 200) && HeaderValues(a.upstream, "content-type") == ["text/css"]
      && DeclaresMaxAge(a.upstream, 60) && HeaderValues(a.upstream, "date") != []
      && Slack(a, 1060998, 1060998) == 0
      && served == Some(StoredResponse(a, dates)) && AgeOf(served.value, 1060998, dates) == 61
  {
    hide TtlMs, AgeOf, DeclaresMaxAge, KeyOf, EntrySize, HeaderValues, Served, Copy, Lawful, Cacheable;
    var a := DroppedDate(dates, edits, body);
    DroppedDateTtl(dates, edits, body);
    DroppedDateCopy(dates, edits, body);
    assert StoreTtl(a, dates) == 60000;
    FittingStores(limits, dates, r, a);
    ServedUntil(limits, events, dates, r, a, 1060998);
  }

  lemma DroppedDateTtl(dates: Dates, edits: seq<Edit>, body: seq<bv8>)
    requires Lawful(dates)
    ensures var upstream := DroppedDate(dates, edits, body).upstream;
      && TtlMs(upstream, 1000999, dates.strict) == 60000 && DeclaresMaxAge(upstream, 60)
      && Cacheable(upstream, 200) && HeaderValues(upstream, "content-type") == ["text/css"]
      && HeaderValues(upstream, "date") != []
  {
    hide HeaderValues, Q.DirectivesOf, Lawful, Lifetime, CurrentAge, ForbidsCaching, DeclaresMaxAge, Cacheable;
    var upstream := DroppedDate(dates, edits, body).upstream;
    var date := dates.render(1001000);
    DroppedDateHeaders(date);
    RenderedDate(dates, 1001000);
    MaxAge60Applies(upstream, dates.strict, 1000999);
    DroppedDateAge(upstream, dates.strict, 1000999, date);
    StyleSheetIsCacheable(upstream);
  }

  lemma RenderedDate(dates: Dates, t: int)
    requires Lawful(dates) && 0 <= t <= MAX_TIME && t % 1000 == 0
    ensures dates.strict(dates.render(t)) == Some(t)
  {
    hide Lawful;
    CutDate(dates, t);
    StrictReads(dates, dates.render(t));
  }

  lemma CutDate(dates: Dates, t: int)
    requires Lawful(dates) && 0 <= t <= MAX_TIME
    ensures dates.parse(dates.render(t)) == Some(t - t % 1000)
  {
  }

  lemma StrictReads(dates: Dates, s: string)
    requires Lawful(dates)
    ensures dates.strict(s) == Strict(dates, s)
  {
    hide Strict;
  }

  lemma MaxAge60Applies(upstream: Json.Headers, strict: HttpDate, now: int)
    requires HeaderValues(upstream, "cache-control") == ["max-age=60"]
    requires HeaderValues(upstream, "expires") == [] && !HasHeader(upstream, "expires")
    requires OriginDate(upstream, now, strict).Some?
    ensures DeclaresMaxAge(upstream, 60) && !ForbidsCaching(upstream, true) &&
      Lifetime(upstream, now, strict) == Some(60000)
  {
    MaxAge60();
    hide HeaderValues, Q.DirectivesOf, OriginDate, AllDigits, DigitsValue;
    var d := Q.Directive("max-age", Some("60"));
    assert IsMaxAge(d, 60) && d in [d];
    assert [d][1..] == [] && MaxAges([]) == [] && MaxAges([d]) == [Some(60000)];
  }

  lemma MaxAge60()
    ensures Q.DirectivesOf(["max-age=60"]) == Some([Q.Directive("max-age", Some("60"))])
    ensures AllDigits("60") && DigitsValue("60") == 60
  {
    hide Q.DirectivesOf, Lower, AllDigits, DigitsValue;
    LowerNames();
    Sixty();
    var name, value := "max-age", "60";
    assert name + (['='] + value) == "max-age=60";
    Q.PlainDirective(name, value);
  }

  lemma Sixty()
    ensures AllDigits("60") && DigitsValue("60") == 60
  {
    var digits := "60";
    assert digits[..1] == "6" && digits[..1][..0] == "";
    assert DigitsValue(digits[..1][..0]) == 0;
    assert DigitsValue(digits[..1]) == 6;
  }

  lemma DroppedDateAge(upstream: Json.Headers, strict: HttpDate, now: int, date: string)
    requires HeaderValues(upstream, "age") == [] && !HasHeader(upstream, "age")
    requires HeaderValues(upstream, "date") == [date] && strict(date).Some? && strict(date).value >= now
    ensures OriginDate(upstream, now, strict) == strict(date) && CurrentAge(upstream, now, strict) == Some(0)
  {
    hide HeaderValues;
  }

  /** What admission and the freshness calculation find in those headers. */
  lemma DroppedDateHeaders(date: string)
    ensures var upstream := DroppedDateUpstream(date);
      && HeaderValues(upstream, "content-type") == ["text/css"] && HeaderValues(upstream, "date") == [date]
      && HeaderValues(upstream, "cache-control") == ["max-age=60"]
      && forall name :: name in {"age", "expires", "vary", "set-cookie", "content-range"} ==>
        HeaderValues(upstream, name) == [] && !HasHeader(upstream, name)
  {
    LowerNames();
    hide Lower, HeaderValues, HasHeader;
    var upstream := DroppedDateUpstream(date);
    HeaderOnce(upstream, 0, "content-type", "text/css");
    HeaderOnce(upstream, 1, "date", date);
    HeaderOnce(upstream, 3, "cache-control", "max-age=60");
    HeaderMissing(upstream, "age");
    HeaderMissing(upstream, "expires");
    HeaderMissing(upstream, "vary");
    HeaderMissing(upstream, "set-cookie");
    HeaderMissing(upstream, "content-range");
  }

  lemma DroppedDateCopy(dates: Dates, edits: seq<Edit>, body: seq<bv8>)
    requires Lawful(dates)
    ensures var a := DroppedDate(dates, edits, body);
      AgeOf(StoredResponse(a, dates), 1060998, dates) == 61
  {
    hide StoredHeaders, ConnectionTokens, Lawful;
    var a := DroppedDate(dates, edits, body);
    StoredAgeAndDate(a.upstream, edits, dates.render(a.headersAt));
    DateIsNominated(dates.render(1001000));
    CutDate(dates, 1000999);
  }

  lemma DateIsNominated(date: string)
    ensures "date" in ConnectionTokens(DroppedDateUpstream(date)) && Field(DroppedDateUpstream(date), "age").Absent?
  {
    FieldAt(DroppedDateUpstream(date), 2, "connection");
    FieldMissing(DroppedDateUpstream(date), "age");
    assert Trim("date") == "date" && Lower("date") == "date";
    OneNominated("date");
    hide Field, Nominated;
  }

  lemma OneNominated(name: string)
    requires ',' !in name && Trim(name) == name == Lower(name) && name != ""
    ensures name in Nominated([name])
  {
    hide Trim, Lower, Split;
    SplitNone(name, ',');
    assert name in [name] && name in Split(name, ',');
  }

  // ----- a clock that advances during the store -----

  function LateRequest(): Request {
    Request("d", "/assets/app-01234567.css", [])
  }

  function LateArrival(edits: seq<Edit>, body: seq<bv8>, at: int): Arrival {
    Arrival([("content-type", Json.Single("text/css"))], edits, body, at, at, at + 1)
  }

  /** A style sheet without further headers, whose put reads the clock a millisecond after its lifetime was computed,
      is served at the very moment its freshness is over: whatever the proxy did before, at any time, and with any
      rewriting and body that let the entry fit. */
  lemma LateHit(limits: Limits, events: seq<Event>, dates: Dates, edits: seq<Edit>, body: seq<bv8>, at: int)
    requires limits.Valid() && limits.ttlMs >= DEFAULT_TTL_MS && limits.maxEntries > 0 && 0 <= at <= MAX_TIME
    requires EntrySize(KeyOf(LateRequest()), StoredResponse(LateArrival(edits, body, at), dates),
                       LateRequest().sessionId)
             <= Min(limits.maxEntryBytes, limits.maxBytes)
    ensures var r, a := LateRequest(), LateArrival(edits, body, at);
      && Cacheable(a.upstream, 200) && HeaderValues(a.upstream, "content-type") == ["text/css"]
      && TtlMs(a.upstream, a.headersAt, dates.strict) == 300000
      && Served(limits, events + [Store(r, a)], dates, r, at + 300000) == Some(StoredResponse(a, dates))
      && (at + 300000) - a.headersAt >= TtlMs(a.upstream, a.headersAt, dates.strict)
  {
    var r, a := LateRequest(), LateArrival(edits, body, at);
    hide Judge, TtlMs, KeyOf, EntrySize, StoredResponse, Served, HeaderValues, Cacheable, LateRequest;
    LateTtl(at, dates.strict);
    assert StoreTtl(a, dates) == 300000;
    FittingStores(limits, dates, r, a);
    ServedUntil(limits, events, dates, r, a, at + 300000);
  }

  lemma LateTtl(at: int, strict: HttpDate)
    requires 0 <= at <= MAX_TIME
    ensures var upstream := [("content-type", Json.Single("text/css"))];
      && Cacheable(upstream, 200) && HeaderValues(upstream, "content-type") == ["text/css"]
      && TtlMs(upstream, at, strict) == DEFAULT_TTL_MS
  {
    LateHeaders();
    Q.NoDirectives();
    hide Q.DirectivesOf, HeaderValues, Cacheable;
    assert MaxAges([]) == [];
    StyleSheetIsCacheable([("content-type", Json.Single("text/css"))]);
  }

  lemma LateHeaders()
    ensures var upstream := [("content-type", Json.Single("text/css"))];
      && HeaderValues(upstream, "content-type") == ["text/css"]
      && forall name ::
        name in {"cache-control", "age", "date", "expires", "vary", "set-cookie", "content-range"} ==>
        HeaderValues(upstream, name) == [] && !HasHeader(upstream, name)
  {
    LowerNames();
    hide Lower, HeaderValues, HasHeader;
    var upstream := [("content-type", Json.Single("text/css"))];
    HeaderOnce(upstream, 0, "content-type", "text/css");
    HeaderMissing(upstream, "cache-control");
    HeaderMissing(upstream, "age");
    HeaderMissing(upstream, "date");
    HeaderMissing(upstream, "expires");
    HeaderMissing(upstream, "vary");
    HeaderMissing(upstream, "set-cookie");
    HeaderMissing(upstream, "content-range");
  }
}
