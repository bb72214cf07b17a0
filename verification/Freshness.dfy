/** How long an upstream response may be served from the cache, and the Age it is served with.
    The freshness is computed from the upstream headers, the Age from those of the stored copy. */
module Freshness {
  import opened Text
  import opened QuotedList
  import opened ProxyHeaders
  import Json
  import StaticCache

  /** Text to milliseconds, defined on IMF-fixdate only. */
  type HttpDate = string -> Option<int>

  /** The program's ways with dates: Date.parse, toUTCString, and the strict reader made of both. */
  datatype Dates = Dates(parse: string -> Option<int>, render: int -> string, strict: HttpDate)

  /** The last moment an ECMAScript time value can name. */
  const MAX_TIME: int := 8_640_000_000_000_000

  function Strict(d: Dates, s: string): Option<int> {
    if d.parse(s).Some? && d.render(d.parse(s).value) == s then d.parse(s) else None
  }

  /** A rendered date reads back cut to its second; the strict reader takes rendered dates only. */
  ghost predicate Lawful(d: Dates) {
    && (forall t :: 0 <= t <= MAX_TIME ==> d.parse(d.render(t)) == Some(t - t % 1000))
    && (forall s :: d.strict(s) == Strict(d, s))
  }

  function Max(a: int, b: int): int {
    if a >= b then a else b
  }

  /** One mark a second. */
  function Marks(t: int): string {
    if t < 0 then "" else seq(t / 1000, i => '|')
  }

  function MarkDates(): Dates {
    Dates(s => Some(|s| * 1000), Marks, s => if Marks(|s| * 1000) == s then Some(|s| * 1000) else None)
  }

  /** Such readers and renderers exist: write a date as one mark a second. */
  lemma LawfulDatesExist()
    ensures Lawful(MarkDates())
  {
    var d := MarkDates();
    forall t | 0 <= t <= MAX_TIME ensures d.parse(d.render(t)) == Some(t - t % 1000) {
      assert |Marks(t)| == t / 1000;
    }
  }

  function HeaderValues(headers: Json.Headers, name: string): seq<string> {
    if headers == [] then []
    else (if Lower(headers[0].0) == name then Texts(headers[0].1) else []) + HeaderValues(headers[1..], name)
  }

  predicate HasHeader(headers: Json.Headers, name: string) {
    exists i :: 0 <= i < |headers| && Lower(headers[i].0) == name
  }

  predicate AllDigits(s: string) {
    s != [] && forall i :: 0 <= i < |s| ==> '0' <= s[i] <= '9'
  }

  function DigitsValue(s: string): nat
    requires forall i :: 0 <= i < |s| ==> '0' <= s[i] <= '9'
  {
    if s == [] then 0 else DigitsValue(s[..|s| - 1]) * 10 + (s[|s| - 1] as int - '0' as int)
  }

  /** Strict delta-seconds, in milliseconds. */
  function DeltaMilliseconds(value: Option<string>): (r: Option<int>)
    ensures r.Some? ==> r.value >= 0
  {
    if value.None? || !AllDigits(value.value) then None
    else
      var ms := DigitsValue(value.value) * 1000;
      if ms <= StaticCache.MAX_SAFE_INTEGER then Some(ms) else None
  }

  predicate Forbids(d: Directive, response: bool) {
    || d.name == "no-store" || d.name == "no-cache"
    || (response && d.name == "must-revalidate")
    || (d.name == "max-age" && (d.value.None? || !AllDigits(d.value.value) || DigitsValue(d.value.value) == 0))
  }

  predicate ForbidsCaching(headers: Json.Headers, response: bool) {
    var parsed := DirectivesOf(HeaderValues(headers, "cache-control"));
    parsed.None? || exists i :: 0 <= i < |parsed.value| && Forbids(parsed.value[i], response)
  }

  const STATIC_MEDIA_TYPES: set<string> := {
    "text/css", "text/javascript", "application/javascript", "application/x-javascript", "image/svg+xml", "image/png",
    "image/jpeg", "image/webp", "image/x-icon", "image/vnd.microsoft.icon", "image/gif", "image/avif", "image/bmp",
    "font/woff", "font/woff2", "font/ttf", "font/otf", "application/font-woff", "application/x-font-woff",
    "application/x-font-ttf", "application/x-font-opentype", "application/vnd.ms-fontobject", "application/wasm",
    "application/octet-stream"
  }

  function MediaType(contentType: string): string {
    Lower(Trim(Before(contentType, ';')))
  }

  /** The responses that are stored at all, by the upstream's own headers. */
  predicate Cacheable(headers: Json.Headers, status: int) {
    && status == 200 && !HasHeader(headers, "set-cookie") && !ForbidsCaching(headers, true)
    && !HasHeader(headers, "content-range")
    && (forall row, part :: row in HeaderValues(headers, "vary") && part in Split(row, ',') ==>
      Trim(part) == "" || Lower(Trim(part)) == "accept-encoding")
    && |HeaderValues(headers, "content-type")| == 1
    && MediaType(HeaderValues(headers, "content-type")[0]) in STATIC_MEDIA_TYPES
  }

  /** The lifetimes of the max-age directives. */
  function MaxAges(ds: seq<Directive>): seq<Option<int>> {
    if ds == [] then []
    else (if ds[0].name == "max-age" then [DeltaMilliseconds(ds[0].value)] else []) + MaxAges(ds[1..])
  }

  /** A header that must be single when present: None for an ambiguous or unreadable one. */
  function SingleHeader(headers: Json.Headers, name: string, read: string -> Option<int>,
                        absent: Option<int>): Option<Option<int>> {
    var values := HeaderValues(headers, name);
    if HasHeader(headers, name) && |values| != 1 then None
    else if values == [] then Some(absent)
    else if read(values[0]).None? then None
    else Some(read(values[0]))
  }

  /** The Date header, the receipt time when there is none, None when unusable. */
  function OriginDate(headers: Json.Headers, now: int, httpDate: HttpDate): Option<int> {
    match SingleHeader(headers, "date", httpDate, Some(now))
    case None => None
    case Some(date) => date
  }

  /** The larger of the declared and the apparent age at receipt; None when unusable. */
  function CurrentAge(headers: Json.Headers, now: int, httpDate: HttpDate): Option<int> {
    match (SingleHeader(headers, "age", s => DeltaMilliseconds(Some(s)), Some(0)), OriginDate(headers, now, httpDate))
    case (Some(Some(age)), Some(date)) => Some(Max(Max(age, now - date), 0))
    case _ => None
  }

  /** max-age before Expires before the local default; None when ambiguous or unreadable. */
  function Lifetime(headers: Json.Headers, now: int, httpDate: HttpDate): Option<int>
    requires !ForbidsCaching(headers, true)
  {
    var maxAges := MaxAges(DirectivesOf(HeaderValues(headers, "cache-control")).value);
    if exists i :: 0 <= i < |maxAges| && (maxAges[i].None? || maxAges[i] != maxAges[0]) then None
    else
      match (SingleHeader(headers, "expires", httpDate, None), OriginDate(headers, now, httpDate))
      case (Some(expires), Some(date)) =>
        if maxAges != [] then maxAges[0]
        else if expires.None? then Some(StaticCache.DEFAULT_TTL_MS) else Some(expires.value - date)
      case _ => None
  }

  /** Remaining freshness at `now`; zero on anything malformed or ambiguous. */
  function TtlMs(headers: Json.Headers, now: int, httpDate: HttpDate): (ttl: int)
    ensures 0 <= ttl <= StaticCache.DEFAULT_TTL_MS
  {
    if !(0 <= now <= StaticCache.MAX_SAFE_INTEGER) || ForbidsCaching(headers, true) then 0
    else
      match (Lifetime(headers, now, httpDate), CurrentAge(headers, now, httpDate))
      case (Some(lifetime), Some(age)) => Max(0, StaticCache.Min(StaticCache.DEFAULT_TTL_MS, lifetime - age))
      case _ => 0
  }

  function CeilDiv(a: int, b: int): int
    requires b > 0
  {
    -(-a / b)
  }

  /** Age at receipt: the stored Age header against the distance to the stored Date. */
  function InitialAgeMs(ageSeconds: int, originDate: Option<int>, receivedAt: int): int {
    Max(Max(ageSeconds * 1000, if originDate.Some? then receivedAt - originDate.value else 0), 0)
  }

  /** The Age header of a 200 or 304 from the cache, in whole seconds rounded up. */
  function EmittedAge(ageSeconds: int, originDate: Option<int>, receivedAt: int, now: int): int {
    Max(0, CeilDiv(InitialAgeMs(ageSeconds, originDate, receivedAt) + (now - receivedAt), 1000))
  }

  /** The Age the copy carries, zero when there is none. A copy whose Age is no delta-seconds is never stored. */
  function CopyAge(copy: Json.Headers): int {
    var texts := Texts(Field(copy, "age"));
    if |texts| == 1 && AllDigits(texts[0]) then DigitsValue(texts[0]) else 0
  }

  /** The Date the copy carries, as Date.parse reads it. A copy with several is never stored. */
  function CopyDate(copy: Json.Headers, d: Dates): Option<int> {
    var texts := Texts(Field(copy, "date"));
    if |texts| == 1 then d.parse(texts[0]) else None
  }

  /** The Age sent with a stored copy. */
  function ServedAge(copy: Json.Headers, receivedAt: int, now: int, d: Dates): int {
    EmittedAge(CopyAge(copy), CopyDate(copy, d), receivedAt, now)
  }

  /** What is stored of an upstream response received at that moment. */
  function Copy(upstream: Json.Headers, edits: seq<Edit>, receivedAt: int, d: Dates): Json.Headers {
    StoredHeaders(upstream, edits, d.render(receivedAt))
  }

  /** The response declares max-age=M. */
  ghost predicate DeclaresMaxAge(headers: Json.Headers, m: nat) {
    var parsed := DirectivesOf(HeaderValues(headers, "cache-control"));
    parsed.Some? && exists d :: d in parsed.value && IsMaxAge(d, m)
  }

  predicate IsMaxAge(d: Directive, m: nat) {
    d.name == "max-age" && d.value.Some? && AllDigits(d.value.value) && DigitsValue(d.value.value) == m
  }

  lemma {:induction false} MaxAgesFinds(ds: seq<Directive>, d: Directive)
    requires d in ds && d.name == "max-age"
    ensures DeltaMilliseconds(d.value) in MaxAges(ds)
  {
    if d != ds[0] {
      assert d in ds[1..];
      MaxAgesFinds(ds[1..], d);
    }
  }

  lemma {:induction false} ValuesNeedHeader(headers: Json.Headers, name: string)
    ensures HeaderValues(headers, name) != [] ==> HasHeader(headers, name)
  {
    if headers != [] {
      ValuesNeedHeader(headers[1..], name);
      if Lower(headers[0].0) != name && HeaderValues(headers[1..], name) != [] {
        var i :| 0 <= i < |headers[1..]| && Lower(headers[1..][i].0) == name;
        assert Lower(headers[i + 1].0) == name;
      }
    }
  }

  /** A declared max-age is the lifetime when the response is fresh at all. */
  lemma DeclaredLifetime(headers: Json.Headers, now: int, httpDate: HttpDate, m: nat)
    requires DeclaresMaxAge(headers, m) && !ForbidsCaching(headers, true) && Lifetime(headers, now, httpDate).Some?
    ensures Lifetime(headers, now, httpDate) == Some(m * 1000)
  {
    var ds := DirectivesOf(HeaderValues(headers, "cache-control")).value;
    var d :| d in ds && IsMaxAge(d, m);
    MaxAgesFinds(ds, d);
    var maxAges := MaxAges(ds);
    var i :| 0 <= i < |maxAges| && maxAges[i] == DeltaMilliseconds(d.value);
  }

  /** A header that is single under any spelling is what its exact key holds, if that holds anything. */
  lemma {:induction false} FieldIsHeader(headers: Json.Headers, name: string)
    requires Lower(name) == name
    ensures |Texts(Field(headers, name))| <= |HeaderValues(headers, name)|
    ensures |Texts(Field(headers, name))| == |HeaderValues(headers, name)| == 1 ==>
      Texts(Field(headers, name)) == HeaderValues(headers, name)
  {
    if headers != [] {
      FieldIsHeader(headers[1..], name);
      if headers[0].0 == name && !headers[0].1.Absent? {
        var texts := Texts(headers[0].1);
        assert HeaderValues(headers, name) == texts + HeaderValues(headers[1..], name);
      }
    }
  }

  /** The copy's Age is the one the freshness was computed with, or none. */
  lemma CopyAgeLower(upstream: Json.Headers, edits: seq<Edit>, dateText: string)
    requires SingleHeader(upstream, "age", s => DeltaMilliseconds(Some(s)), Some(0)).Some?
    ensures var single := SingleHeader(upstream, "age", s => DeltaMilliseconds(Some(s)), Some(0)).value;
      single.Some? && CopyAge(StoredHeaders(upstream, edits, dateText)) * 1000 <= single.value
  {
    StoredAgeAndDate(upstream, edits, dateText);
    AgeAndDateApart("age");
    FieldIsHeader(upstream, "age");
    ValuesNeedHeader(upstream, "age");
  }

  /** The copy's Date is no older than the one the freshness was computed with, but for the second a Date made up
      by the proxy is cut to. */
  lemma CopyDateLater(upstream: Json.Headers, edits: seq<Edit>, receivedAt: int, d: Dates)
    requires Lawful(d) && 0 <= receivedAt <= MAX_TIME && OriginDate(upstream, receivedAt, d.strict).Some?
    ensures var date := CopyDate(Copy(upstream, edits, receivedAt, d), d);
      if DateSurvives(upstream) then date.Some? ==> date == OriginDate(upstream, receivedAt, d.strict)
      else date == Some(receivedAt - receivedAt % 1000)
  {
    StoredAgeAndDate(upstream, edits, d.render(receivedAt));
    AgeAndDateApart("date");
    FieldIsHeader(upstream, "date");
    ValuesNeedHeader(upstream, "date");
  }

  /** The age the proxy announces at receipt is at most the one the freshness was reduced by, plus less than a
      second when the proxy had to make up the Date. */
  lemma AnnouncedAge(upstream: Json.Headers, edits: seq<Edit>, receivedAt: int, d: Dates)
    requires Lawful(d) && 0 <= receivedAt <= MAX_TIME && CurrentAge(upstream, receivedAt, d.strict).Some?
    ensures var copy := Copy(upstream, edits, receivedAt, d);
      InitialAgeMs(CopyAge(copy), CopyDate(copy, d), receivedAt)
      <= CurrentAge(upstream, receivedAt, d.strict).value + if DateSurvives(upstream) then 0 else 999
  {
    hide CopyAge, CopyDate, StoredHeaders, DateSurvives, OriginDate, SingleHeader;
    CopyAgeLower(upstream, edits, d.render(receivedAt));
    CopyDateLater(upstream, edits, receivedAt, d);
  }

  lemma TimesMono(d: nat, m: int, b: int)
    ensures m * b + d * b == (m + d) * b && (b >= 0 ==> m * b <= (m + d) * b)
  {
  }

  lemma QuotientAtLeast(x: int, b: int, m: int)
    requires b > 0 && m * b <= x
    ensures m <= x / b
  {
    var n := x / b;
    assert x == n * b + x % b;
    if n < m {
      TimesMono(m - n - 1, n + 1, b);
    }
  }

  lemma CeilDivBound(a: int, b: int, q: int)
    requires b > 0 && a <= q * b
    ensures CeilDiv(a, b) <= q
  {
    assert (-q) * b == -(q * b);
    QuotientAtLeast(-a, b, -q);
  }

  lemma CeilDivCovers(a: int, b: int)
    requires b > 0
    ensures a <= CeilDiv(a, b) * b
  {
    var n := -a / b;
    assert -a == n * b + (-a) % b;
    assert -n * b == -(n * b);
  }

  lemma CeilDivSum(a: int, s: int, b: int)
    requires b > 0
    ensures CeilDiv(a + s, b) <= CeilDiv(a, b) + CeilDiv(s, b)
  {
    var q, r := CeilDiv(a, b), CeilDiv(s, b);
    CeilDivCovers(a, b);
    CeilDivCovers(s, b);
    assert (q + r) * b == q * b + r * b;
    CeilDivBound(a + s, b, q + r);
  }

  /** Read later by `slack`, the emitted Age is at most the slack's seconds higher. */
  lemma LaterAge(ageSeconds: int, originDate: Option<int>, receivedAt: int, now: int, slack: nat)
    ensures EmittedAge(ageSeconds, originDate, receivedAt, now + slack)
         <= EmittedAge(ageSeconds, originDate, receivedAt, now) + CeilDiv(slack, 1000)
  {
    var total := InitialAgeMs(ageSeconds, originDate, receivedAt) + (now - receivedAt);
    CeilDivSum(total, slack, 1000);
    CeilDivCovers(slack, 1000);
  }

  /** While the age of the copy is at most its freshness, the emitted Age keeps to max-age; when the upstream's Date
      did not reach the copy, the rounding of the one made up may cost a second. */
  lemma AgeWithinMaxAge(upstream: Json.Headers, edits: seq<Edit>, receivedAt: int, d: Dates, m: nat, now: int)
    requires Lawful(d) && receivedAt <= MAX_TIME
    requires DeclaresMaxAge(upstream, m) && TtlMs(upstream, receivedAt, d.strict) > 0
    requires now - receivedAt <= TtlMs(upstream, receivedAt, d.strict)
    ensures ServedAge(Copy(upstream, edits, receivedAt, d), receivedAt, now, d)
         <= if DateSurvives(upstream) then m else m + 1
  {
    hide CopyAge, CopyDate, Copy, DateSurvives, OriginDate, SingleHeader, DeclaresMaxAge, Lawful, InitialAgeMs, CeilDiv;
    DeclaredLifetime(upstream, receivedAt, d.strict, m);
    AnnouncedAge(upstream, edits, receivedAt, d);
    var copy := Copy(upstream, edits, receivedAt, d);
    var total := InitialAgeMs(CopyAge(copy), CopyDate(copy, d), receivedAt) + (now - receivedAt);
    CeilDivBound(total, 1000, if DateSurvives(upstream) then m else m + 1);
  }
}
