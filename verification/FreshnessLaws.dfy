/** What the freshness of a response is, read off its headers case by case, and what a hit and its Age may therefore
    claim: the explicit lifetime, the default, the age at receipt, and the directives that forbid caching. */
module FreshnessLaws {
  import opened Text
  import Json
  import Q = QuotedList
  import opened ProxyHeaders
  import opened Freshness
  import opened StaticCache
  import opened ProxyCache

  // ----- numbers -----

  lemma DigitOf(n: nat)
    requires n < 10
    ensures '0' <= Json.HexDigit(n) <= '9' && Json.HexDigit(n) as int - '0' as int == n
  {
  }

  lemma DigitsAppend(front: string, c: char)
    requires (front == "" || AllDigits(front)) && '0' <= c <= '9'
    ensures AllDigits(front + [c]) && DigitsValue(front + [c]) == DigitsValue(front) * 10 + (c as int - '0' as int)
  {
    assert (front + [c])[..|front|] == front;
  }

  /** A decimal numeral is read as its number. */
  lemma {:induction false} DigitsReadBack(n: nat)
    ensures AllDigits(Json.Decimal(n)) && DigitsValue(Json.Decimal(n)) == n
    decreases n
  {
    hide AllDigits, DigitsValue, Json.HexDigit;
    DigitOf(n % 10);
    if n < 10 {
      DigitsAppend("", Json.HexDigit(n));
      NoDigits();
    } else {
      DigitsReadBack(n / 10);
      DigitsAppend(Json.Decimal(n / 10), Json.HexDigit(n % 10));
    }
  }

  lemma NoDigits()
    ensures DigitsValue("") == 0
  {
  }

  // ----- what the headers say -----

  predicate Lacks(headers: Json.Headers, name: string) {
    HeaderValues(headers, name) == [] && !HasHeader(headers, name)
  }

  /** The response's Date is readable and is d, or it has none and d is the time of receipt. */
  predicate DatedAt(headers: Json.Headers, now: int, httpDate: HttpDate, d: int) {
    var rows := HeaderValues(headers, "date");
    (Lacks(headers, "date") && d == now) || (|rows| == 1 && httpDate(rows[0]) == Some(d))
  }

  /** It declares an age of this many seconds, or none. */
  predicate Aged(headers: Json.Headers, seconds: nat) {
    var rows := HeaderValues(headers, "age");
    (Lacks(headers, "age") && seconds == 0)
    || (|rows| == 1 && AllDigits(rows[0]) && DigitsValue(rows[0]) == seconds && seconds * 1000 <= MAX_SAFE_INTEGER)
  }

  predicate ExpiresAt(headers: Json.Headers, httpDate: HttpDate, e: int) {
    var rows := HeaderValues(headers, "expires");
    |rows| == 1 && httpDate(rows[0]) == Some(e)
  }

  /** A directive that keeps the response out of the cache: no-store, no-cache, must-revalidate, or a max-age that is
      zero or no number. */
  predicate Bars(d: Q.Directive) {
    d.name in {"no-store", "no-cache", "must-revalidate"}
    || (d.name == "max-age" && !(d.value.Some? && AllDigits(d.value.value) && DigitsValue(d.value.value) > 0))
  }

  /** Cache-Control is readable, and bars nothing. */
  ghost predicate Allowed(headers: Json.Headers) {
    var parsed := Q.DirectivesOf(HeaderValues(headers, "cache-control"));
    parsed.Some? && forall d :: d in parsed.value ==> !Bars(d)
  }

  ghost predicate NamesMaxAge(headers: Json.Headers) {
    var parsed := Q.DirectivesOf(HeaderValues(headers, "cache-control"));
    parsed.Some? && exists d :: d in parsed.value && d.name == "max-age"
  }

  /** Every max-age says so many seconds, and there is one. */
  ghost predicate SaysMaxAge(headers: Json.Headers, m: nat) {
    NamesMaxAge(headers)
    && forall d :: d in Q.DirectivesOf(HeaderValues(headers, "cache-control")).value && d.name == "max-age" ==>
         d.value.Some? && AllDigits(d.value.value) && DigitsValue(d.value.value) == m
  }

  /** The lifetime the response states: max-age before Expires before the default of five minutes. */
  ghost predicate LivesFor(headers: Json.Headers, httpDate: HttpDate, d: int, life: int) {
    if NamesMaxAge(headers) then
      exists m: nat :: SaysMaxAge(headers, m) && m * 1000 <= MAX_SAFE_INTEGER && life == m * 1000
    else if Lacks(headers, "expires") then life == 300000
    else exists e :: ExpiresAt(headers, httpDate, e) && life == e - d
  }

  /** Everything about the response that bears on its freshness is readable, and comes to this. */
  ghost predicate Readable(headers: Json.Headers, now: int, httpDate: HttpDate, life: int, d: int, seconds: nat) {
    && 0 <= now <= MAX_SAFE_INTEGER && Allowed(headers) && DatedAt(headers, now, httpDate, d) && Aged(headers, seconds)
    && (Lacks(headers, "expires") || exists e :: ExpiresAt(headers, httpDate, e))
    && LivesFor(headers, httpDate, d, life)
  }

  /** Its age at receipt: what it declares, or what its Date shows, whichever is more. */
  function AgeAt(now: int, d: int, seconds: nat): int {
    Freshness.Max(seconds * 1000, now - d)
  }

  lemma AllowedIff(headers: Json.Headers)
    ensures Allowed(headers) <==> !ForbidsCaching(headers, true)
  {
    hide HeaderValues, Q.DirectivesOf, AllDigits, DigitsValue;
    var parsed := Q.DirectivesOf(HeaderValues(headers, "cache-control"));
    if parsed.Some? {
      forall d | d in parsed.value ensures Bars(d) <==> Forbids(d, true) {
      }
    }
  }

  lemma DatedIff(headers: Json.Headers, now: int, httpDate: HttpDate, d: int)
    ensures DatedAt(headers, now, httpDate, d) <==> OriginDate(headers, now, httpDate) == Some(d)
  {
    hide HeaderValues;
    ValuesNeedHeader(headers, "date");
  }

  lemma AgedIff(headers: Json.Headers, seconds: nat)
    ensures Aged(headers, seconds)
       <==> SingleHeader(headers, "age", s => DeltaMilliseconds(Some(s)), Some(0)) == Some(Some(seconds * 1000))
  {
    hide HeaderValues, AllDigits, DigitsValue;
    ValuesNeedHeader(headers, "age");
  }

  lemma {:induction false} MaxAgesAre(ds: seq<Q.Directive>, x: Option<int>)
    ensures x in MaxAges(ds) <==> exists d :: d in ds && d.name == "max-age" && DeltaMilliseconds(d.value) == x
  {
    hide DeltaMilliseconds;
    if ds != [] {
      MaxAgesAre(ds[1..], x);
      assert forall d :: d in ds <==> d == ds[0] || d in ds[1..];
    }
  }

  /** Zero is not a max-age that Allowed lets pass, but an oversized one is; that one gives no lifetime. */
  lemma MaxAgeIff(headers: Json.Headers, ms: int)
    requires Allowed(headers)
    ensures var maxAges := MaxAges(Q.DirectivesOf(HeaderValues(headers, "cache-control")).value);
      (maxAges != [] && forall i :: 0 <= i < |maxAges| ==> maxAges[i] == Some(ms))
      <==> exists m: nat :: SaysMaxAge(headers, m) && m * 1000 <= MAX_SAFE_INTEGER && ms == m * 1000
  {
    var maxAges := MaxAges(Q.DirectivesOf(HeaderValues(headers, "cache-control")).value);
    if maxAges != [] && forall i :: 0 <= i < |maxAges| ==> maxAges[i] == Some(ms) {
      hide HeaderValues, Q.DirectivesOf, MaxAges, Allowed, SaysMaxAge;
      var _ := SameMaxAges(headers, ms);
    }
    if m: nat :| SaysMaxAge(headers, m) && m * 1000 <= MAX_SAFE_INTEGER && ms == m * 1000 {
      hide HeaderValues, Q.DirectivesOf, MaxAges, Allowed, SaysMaxAge;
      OneMaxAge(headers, m);
    }
  }

  lemma SameMaxAges(headers: Json.Headers, ms: int) returns (m: nat)
    requires Allowed(headers)
    requires var maxAges := MaxAges(Q.DirectivesOf(HeaderValues(headers, "cache-control")).value);
      maxAges != [] && forall i :: 0 <= i < |maxAges| ==> maxAges[i] == Some(ms)
    ensures SaysMaxAge(headers, m) && m * 1000 <= MAX_SAFE_INTEGER && ms == m * 1000
  {
    hide HeaderValues, Q.DirectivesOf, DigitsValue, MaxAges;
    var ds := Q.DirectivesOf(HeaderValues(headers, "cache-control")).value;
    var maxAges := MaxAges(ds);
    MaxAgesAre(ds, maxAges[0]);
    var d :| d in ds && d.name == "max-age" && DeltaMilliseconds(d.value) == maxAges[0];
    m := DigitsValue(d.value.value);
    forall e | e in ds && e.name == "max-age"
      ensures e.value.Some? && AllDigits(e.value.value) && DigitsValue(e.value.value) == m
    {
      MaxAgesAre(ds, DeltaMilliseconds(e.value));
    }
  }

  lemma OneMaxAge(headers: Json.Headers, m: nat)
    requires Allowed(headers) && SaysMaxAge(headers, m) && m * 1000 <= MAX_SAFE_INTEGER
    ensures var maxAges := MaxAges(Q.DirectivesOf(HeaderValues(headers, "cache-control")).value);
      maxAges != [] && forall i :: 0 <= i < |maxAges| ==> maxAges[i] == Some(m * 1000)
  {
    hide HeaderValues, Q.DirectivesOf, AllDigits, DigitsValue, MaxAges;
    var ds := Q.DirectivesOf(HeaderValues(headers, "cache-control")).value;
    var maxAges := MaxAges(ds);
    var d :| d in ds && d.name == "max-age";
    MaxAgesAre(ds, DeltaMilliseconds(d.value));
    forall i | 0 <= i < |maxAges| ensures maxAges[i] == Some(m * 1000) {
      MaxAgesAre(ds, maxAges[i]);
    }
  }

  lemma NoMaxAgeIff(headers: Json.Headers)
    requires Allowed(headers)
    ensures MaxAges(Q.DirectivesOf(HeaderValues(headers, "cache-control")).value) == [] <==> !NamesMaxAge(headers)
  {
    var ds := Q.DirectivesOf(HeaderValues(headers, "cache-control")).value;
    hide HeaderValues, Q.DirectivesOf, DeltaMilliseconds;
    var maxAges := MaxAges(ds);
    if maxAges != [] {
      MaxAgesAre(ds, maxAges[0]);
    }
    if d :| d in ds && d.name == "max-age" {
      MaxAgesAre(ds, DeltaMilliseconds(d.value));
    }
  }

  lemma LifetimeIff(headers: Json.Headers, now: int, httpDate: HttpDate, d: int, life: int)
    requires Allowed(headers) && !ForbidsCaching(headers, true) && OriginDate(headers, now, httpDate) == Some(d)
    ensures Lifetime(headers, now, httpDate) == Some(life)
       <==> (Lacks(headers, "expires") || exists e :: ExpiresAt(headers, httpDate, e))
            && LivesFor(headers, httpDate, d, life)
  {
    MaxAgeIff(headers, life);
    NoMaxAgeIff(headers);
    ValuesNeedHeader(headers, "expires");
    var maxAges := MaxAges(Q.DirectivesOf(HeaderValues(headers, "cache-control")).value);
    var rows := HeaderValues(headers, "expires");
    hide HeaderValues, MaxAges, Q.DirectivesOf, OriginDate, Allowed, ForbidsCaching, NamesMaxAge, SaysMaxAge, HasHeader;
    assert (maxAges != [] && forall i :: 0 <= i < |maxAges| ==> maxAges[i] == Some(life))
      <==> maxAges != [] && maxAges[0] == Some(life)
           && !(exists i :: 0 <= i < |maxAges| && (maxAges[i].None? || maxAges[i] != maxAges[0]));
    if |rows| == 1 && httpDate(rows[0]).Some? {
      assert ExpiresAt(headers, httpDate, httpDate(rows[0]).value);
    }
  }

  // ----- the freshness -----

  /** A readable response is fresh for its stated lifetime less its age at receipt, five minutes at most. */
  lemma FreshnessIs(headers: Json.Headers, now: int, httpDate: HttpDate, life: int, d: int, seconds: nat)
    requires Readable(headers, now, httpDate, life, d, seconds)
    ensures TtlMs(headers, now, httpDate) == Freshness.Max(0, Min(300000, life - AgeAt(now, d, seconds)))
  {
    AllowedIff(headers);
    DatedIff(headers, now, httpDate, d);
    AgedIff(headers, seconds);
    LifetimeIff(headers, now, httpDate, d, life);
    hide HeaderValues, Q.DirectivesOf, Lifetime, OriginDate, ForbidsCaching, Allowed, DatedAt, Aged, LivesFor, Lacks,
      SingleHeader;
  }

  /** And no other response is fresh at all. */
  lemma FreshIsReadable(headers: Json.Headers, now: int, httpDate: HttpDate) returns (life: int, d: int, seconds: nat)
    requires TtlMs(headers, now, httpDate) > 0
    ensures Readable(headers, now, httpDate, life, d, seconds)
  {
    AllowedIff(headers);
    life, d := Lifetime(headers, now, httpDate).value, OriginDate(headers, now, httpDate).value;
    DatedIff(headers, now, httpDate, d);
    seconds := AgeRead(headers);
    LifetimeIff(headers, now, httpDate, d, life);
    hide HeaderValues, Q.DirectivesOf, Lifetime, OriginDate, ForbidsCaching, Allowed, DatedAt, Aged, LivesFor, Lacks;
  }

  lemma AgeRead(headers: Json.Headers) returns (seconds: nat)
    requires var age := SingleHeader(headers, "age", s => DeltaMilliseconds(Some(s)), Some(0));
      age.Some? && age.value.Some?
    ensures Aged(headers, seconds)
  {
    var rows := HeaderValues(headers, "age");
    ValuesNeedHeader(headers, "age");
    seconds := if rows == [] then 0 else DigitsValue(rows[0]);
    hide HeaderValues;
  }

  /** The freshness by Expires: with one readable Expires, and no max-age to go before it. */
  lemma FreshByExpires(headers: Json.Headers, now: int, httpDate: HttpDate, e: int, d: int, seconds: nat)
    requires 0 <= now <= MAX_SAFE_INTEGER && Allowed(headers) && !NamesMaxAge(headers)
    requires ExpiresAt(headers, httpDate, e) && DatedAt(headers, now, httpDate, d) && Aged(headers, seconds)
    ensures TtlMs(headers, now, httpDate) == Freshness.Max(0, Min(300000, (e - d) - AgeAt(now, d, seconds)))
  {
    assert LivesFor(headers, httpDate, d, e - d);
    FreshnessIs(headers, now, httpDate, e - d, d, seconds);
  }

  /** By default: with neither. */
  lemma FreshByDefault(headers: Json.Headers, now: int, httpDate: HttpDate, d: int, seconds: nat)
    requires 0 <= now <= MAX_SAFE_INTEGER && Allowed(headers) && !NamesMaxAge(headers)
    requires Lacks(headers, "expires") && DatedAt(headers, now, httpDate, d) && Aged(headers, seconds)
    ensures TtlMs(headers, now, httpDate) == Freshness.Max(0, 300000 - AgeAt(now, d, seconds))
  {
    FreshnessIs(headers, now, httpDate, 300000, d, seconds);
  }

  /** By max-age: all of them saying the same, whatever a readable Expires says. */
  lemma FreshByMaxAge(headers: Json.Headers, now: int, httpDate: HttpDate, m: nat, d: int, seconds: nat)
    requires 0 <= now <= MAX_SAFE_INTEGER && Allowed(headers) && SaysMaxAge(headers, m) && m * 1000 <= MAX_SAFE_INTEGER
    requires Lacks(headers, "expires") || exists e :: ExpiresAt(headers, httpDate, e)
    requires DatedAt(headers, now, httpDate, d) && Aged(headers, seconds)
    ensures TtlMs(headers, now, httpDate) == Freshness.Max(0, Min(300000, m * 1000 - AgeAt(now, d, seconds)))
  {
    assert LivesFor(headers, httpDate, d, m * 1000);
    FreshnessIs(headers, now, httpDate, m * 1000, d, seconds);
  }

  // ----- hits -----

  /** Whatever is served was stored for the same request, and - the clock not having gone back between receipt and
      store - out of a response whose headers were readable and allowed caching; at that moment it is younger than the
      lifetime they state, but for the drift of the store's two clock reads. */
  lemma HitIsFresh(limits: Limits, events: seq<Event>, dates: Dates, r: Request, clock: int)
    returns (i: nat, life: int, d: int, seconds: nat)
    requires limits.Valid() && Served(limits, events, dates, r, clock).Some?
    ensures i < |events| && events[i].Store? && events[i].request == r
    ensures Served(limits, events, dates, r, clock) == Some(StoredResponse(events[i].arrival, dates))
    ensures var a := events[i].arrival; a.headersAt <= a.ttlClock ==>
      && Readable(a.upstream, a.headersAt, dates.strict, life, d, seconds)
      && clock < a.headersAt + Min(300000, life - AgeAt(a.headersAt, d, seconds)) + (a.putClock - a.ttlClock)
  {
    hide Served, StoreTtl, TtlMs, Readable;
    i := HitWithinStoreTtl(limits, events, dates, r, clock);
    life, d, seconds := 0, 0, 0;
    var a := events[i].arrival;
    if a.headersAt <= a.ttlClock {
      StoreTtlIs(a, dates);
      life, d, seconds := FreshIsReadable(a.upstream, a.headersAt, dates.strict);
      FreshnessIs(a.upstream, a.headersAt, dates.strict, life, d, seconds);
    }
  }

  lemma StoreTtlIs(a: Arrival, dates: Dates)
    requires StoreTtl(a, dates) > 0
    ensures StoreTtl(a, dates) == TtlMs(a.upstream, a.headersAt, dates.strict) - (a.ttlClock - a.headersAt)
  {
    hide TtlMs;
  }

  /** A response that bars caching, or that cannot be read, is fresh for no time: storing it serves nobody. */
  lemma UnreadableIsNotServed(limits: Limits, events: seq<Event>, dates: Dates, r: Request, a: Arrival, clock: int)
    requires limits.Valid() && a.headersAt <= a.ttlClock && a.putClock <= clock
    requires forall life, d, seconds: nat :: !Readable(a.upstream, a.headersAt, dates.strict, life, d, seconds)
    ensures Served(limits, events + [Store(r, a)], dates, r, clock)
         in {None, Served(limits, events, dates, r, clock)}
  {
    hide Readable, KeyOf, Copy, Answer, TtlMs, EntrySize, Fit, Judge, AfterPut;
    if TtlMs(a.upstream, a.headersAt, dates.strict) > 0 {
      var life, d, seconds := FreshIsReadable(a.upstream, a.headersAt, dates.strict);
    }
    var ops := ToOps(events + [Store(r, a)], dates);
    assert ops[..|ops| - 1] == ToOps(events, dates);
    assert StoreTtl(a, dates) == 0;
    NoLifetime(limits, a.putClock, KeyOf(r), StoredResponse(a, dates), r.sessionId);
    PutAnswers(limits, CacheAfter(limits, events, dates), a.putClock, KeyOf(r), StoredResponse(a, dates), r.sessionId,
               Some(0), clock, KeyOf(r));
  }

  lemma NoLifetime(limits: Limits, time: int, key: string, response: Response, sessionId: string)
    requires limits.Valid()
    ensures !Judge(limits, time, key, response, sessionId, Some(0)).Stores?
  {
    hide EntrySize;
  }

  // ----- the Age of a hit -----

  /** The upstream's header reaches the copy: it came once under its key, and Connection does not nominate it. */
  predicate Reaches(upstream: Json.Headers, name: string, text: string) {
    Field(upstream, name) == Json.Single(text) && name !in ConnectionTokens(upstream)
  }

  /** The Age sent is never less than the time the copy has been here, nor than what the upstream declared with that
      time added, nor than the time since the upstream's Date; the last two as far as they reached the copy. */
  lemma AgeNotUnderstated(a: Arrival, dates: Dates, now: int)
    ensures var sent := ServedAge(Copy(a.upstream, a.edits, a.headersAt, dates), a.headersAt, now, dates);
      && sent >= 0 && sent * 1000 >= now - a.headersAt
      && (forall text | Reaches(a.upstream, "age", text) && AllDigits(text) ::
            sent * 1000 >= DigitsValue(text) * 1000 + (now - a.headersAt))
      && (forall text | Reaches(a.upstream, "date", text) && dates.parse(text).Some? ::
            sent * 1000 >= now - dates.parse(text).value)
  {
    hide Field, StoredHeaders, ConnectionTokens, AllDigits, DigitsValue;
    var copy := Copy(a.upstream, a.edits, a.headersAt, dates);
    StoredAgeAndDate(a.upstream, a.edits, dates.render(a.headersAt));
    CeilDivCovers(InitialAgeMs(CopyAge(copy), CopyDate(copy, dates), a.headersAt) + (now - a.headersAt), 1000);
  }
}
