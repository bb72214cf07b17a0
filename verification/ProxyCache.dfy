/** The proxy's use of the response cache: which key, which owner, which lifetime, and what
    a hit may therefore claim. A history lists what the proxy did to its cache, in order. */
module ProxyCache {
  import opened Text
  import Json
  import OM = OrderedMap
  import opened ProxyHeaders
  import opened Freshness
  import opened StaticCache

  /** One request's identity, as the cache sees it. */
  datatype Request = Request(sessionId: string, url: string, encodings: seq<string>)

  /** A response to be stored: upstream headers as received, the proxy's rewriting of the relayed ones, and three
      clock reads: header receipt, the read that computes the lifetime, the read inside put. */
  datatype Arrival = Arrival(upstream: Json.Headers, edits: seq<Edit>, body: seq<bv8>,
                             headersAt: int, ttlClock: int, putClock: int)

  datatype Event =
    | Store(request: Request, arrival: Arrival)
    | Lookup(request: Request, clock: int)
    | Revoke(sessionId: string)
    | Rotate
    | Report(clock: int)

  function KeyOf(r: Request): string {
    Json.RequestKey(r.sessionId, r.url, r.encodings)
  }

  /** Freshness at header receipt, less the time spent on the body. */
  function StoreTtl(a: Arrival, dates: Dates): int {
    Freshness.Max(0, TtlMs(a.upstream, a.headersAt, dates.strict) - (a.ttlClock - a.headersAt))
  }

  function StoredResponse(a: Arrival, dates: Dates): Response {
    Response(200, Copy(a.upstream, a.edits, a.headersAt, dates), a.body, Some(a.headersAt))
  }

  function ToOp(e: Event, dates: Dates): Op {
    match e
    case Store(r, a) =>
      Op.Put(a.putClock, KeyOf(r), StoredResponse(a, dates), r.sessionId, Some(StoreTtl(a, dates)))
    case Lookup(r, clock) => Get(clock, KeyOf(r))
    case Revoke(sessionId) => DeleteSession(sessionId)
    case Rotate => Clear
    case Report(clock) => Stats(clock)
  }

  function ToOps(events: seq<Event>, dates: Dates): (ops: seq<Op>)
    ensures |ops| == |events| && forall i :: 0 <= i < |events| ==> ops[i] == ToOp(events[i], dates)
  {
    seq(|events|, i requires 0 <= i < |events| => ToOp(events[i], dates))
  }

  function CacheAfter(limits: Limits, events: seq<Event>, dates: Dates): Cache
    requires limits.Valid()
  {
    Run(limits, ToOps(events, dates))
  }

  function Served(limits: Limits, events: seq<Event>, dates: Dates, r: Request, clock: int): Option<Response>
    requires limits.Valid()
  {
    Answer(CacheAfter(limits, events, dates), clock, KeyOf(r))
  }

  lemma KeyOfInjective(a: Request, b: Request)
    requires KeyOf(a) == KeyOf(b)
    ensures a == b
  {
    Json.KeyInjective(a.sessionId, a.url, a.encodings, b.sessionId, b.url, b.encodings);
  }

  lemma OnlyStoresPut(e: Event, r: Request, dates: Dates)
    requires ToOp(e, dates).Put? && ToOp(e, dates).key == KeyOf(r)
    ensures e.Store? && e.request == r
  {
    KeyOfInjective(e.request, r);
  }

  /** A hit returns a response stored for the same device, URL and encodings, younger than its
      freshness plus whatever the clock advanced between the two reads at the end of the store. */
  lemma HitIsOwnAndFresh(limits: Limits, events: seq<Event>, dates: Dates, r: Request, clock: int) returns (i: nat)
    requires limits.Valid() && Served(limits, events, dates, r, clock).Some?
    ensures i < |events| && events[i].Store? && events[i].request == r
    ensures Served(limits, events, dates, r, clock) == Some(StoredResponse(events[i].arrival, dates))
    ensures var a := events[i].arrival;
      clock - a.headersAt < TtlMs(a.upstream, a.headersAt, dates.strict) + (a.putClock - a.ttlClock)
  {
    var entry;
    i, entry := HitIsStored(limits, events, dates, r, clock);
    StoredEntry(limits, ToOp(events[i], dates), entry);
  }

  lemma HitIsStored(limits: Limits, events: seq<Event>, dates: Dates, r: Request, clock: int)
    returns (i: nat, entry: Entry)
    requires limits.Valid() && Served(limits, events, dates, r, clock).Some?
    ensures i < |events| && events[i].Store? && events[i].request == r
    ensures VerdictOf(limits, ToOp(events[i], dates)) == Stores(entry)
    ensures Served(limits, events, dates, r, clock) == Some(entry.response) && clock < entry.expiresAt
  {
    var ops := ToOps(events, dates);
    i, entry := ServedByPut(limits, ops, clock, KeyOf(r));
    assert ops[i] == ToOp(events[i], dates);
    OnlyStoresPut(events[i], r, dates);
  }

  /** What the verdict on a stored response fixes. */
  lemma StoredEntry(limits: Limits, op: Op, entry: Entry)
    requires limits.Valid() && op.Put? && op.ttl.Some? && VerdictOf(limits, op) == Stores(entry)
    ensures entry.response == op.response && op.ttl.value > 0
    ensures entry.expiresAt == op.time + Min(limits.ttlMs, op.ttl.value)
  {
  }

  lemma HitWithinStoreTtl(limits: Limits, events: seq<Event>, dates: Dates, r: Request, clock: int) returns (i: nat)
    requires limits.Valid() && Served(limits, events, dates, r, clock).Some?
    ensures i < |events| && events[i].Store? && events[i].request == r
    ensures Served(limits, events, dates, r, clock) == Some(StoredResponse(events[i].arrival, dates))
    ensures var a := events[i].arrival; StoreTtl(a, dates) > 0 && clock < a.putClock + StoreTtl(a, dates)
  {
    hide Served, Judge, StoreTtl;
    var entry;
    i, entry := HitIsStored(limits, events, dates, r, clock);
    StoredEntry(limits, ToOp(events[i], dates), entry);
  }

  /** How much later than the freshness allows the Age may be computed: what the clock advanced between the two
      reads at the end of the store, and between the lookup and the Age. */
  function Slack(a: Arrival, clock: int, ageClock: int): nat {
    Freshness.Max(0, (a.putClock - a.ttlClock) + (ageClock - clock - 1))
  }

  /** The Age of a hit, computed from the copy that is served. */
  function AgeOf(served: Response, ageClock: int, dates: Dates): int {
    ServedAge(served.headers, if served.receivedAt.Some? then served.receivedAt.value else ageClock, ageClock, dates)
  }

  /** The Age sent with a hit keeps to the max-age the response declared when the upstream's Date has reached the
      copy, and to one second more when the proxy had to make one up, whose fraction is cut; the slack of the clock
      reads comes on top. */
  lemma HitKeepsMaxAge(limits: Limits, events: seq<Event>, dates: Dates, r: Request, clock: int, ageClock: int, m: nat)
    returns (i: nat)
    requires limits.Valid() && Lawful(dates) && Served(limits, events, dates, r, clock).Some?
    ensures i < |events| && events[i].Store? && events[i].request == r
    ensures Served(limits, events, dates, r, clock) == Some(StoredResponse(events[i].arrival, dates))
    ensures var a := events[i].arrival;
      DeclaresMaxAge(a.upstream, m) && a.headersAt <= a.ttlClock && a.headersAt <= MAX_TIME ==>
        AgeOf(Served(limits, events, dates, r, clock).value, ageClock, dates)
        <= (if DateSurvives(a.upstream) then m else m + 1) + CeilDiv(Slack(a, clock, ageClock), 1000)
  {
    hide Served, ServedAge, Copy, Slack, CeilDiv, DeclaresMaxAge, DateSurvives, StoreTtl, ToOp, Lawful;
    i := HitWithinStoreTtl(limits, events, dates, r, clock);
    var a := events[i].arrival;
    if DeclaresMaxAge(a.upstream, m) && a.headersAt <= a.ttlClock && a.headersAt <= MAX_TIME {
      AgeWithSlack(a, dates, m, clock, ageClock);
    }
  }

  lemma AgeWithSlack(a: Arrival, dates: Dates, m: nat, clock: int, ageClock: int)
    requires Lawful(dates) && DeclaresMaxAge(a.upstream, m) && a.headersAt <= a.ttlClock && a.headersAt <= MAX_TIME
    requires StoreTtl(a, dates) > 0 && clock < a.putClock + StoreTtl(a, dates)
    ensures ServedAge(Copy(a.upstream, a.edits, a.headersAt, dates), a.headersAt, ageClock, dates)
         <= (if DateSurvives(a.upstream) then m else m + 1) + CeilDiv(Slack(a, clock, ageClock), 1000)
  {
    hide TtlMs, EmittedAge, Copy, CopyAge, CopyDate, CeilDiv, DeclaresMaxAge, DateSurvives, Lawful;
    var slack := Slack(a, clock, ageClock);
    var copy := Copy(a.upstream, a.edits, a.headersAt, dates);
    AgeWithinMaxAge(a.upstream, a.edits, a.headersAt, dates, m, ageClock - slack);
    LaterAge(CopyAge(copy), CopyDate(copy, dates), a.headersAt, ageClock - slack, slack);
  }

  /** The age at receipt that the copy's own headers announce, in milliseconds. */
  function AnnouncedAtReceipt(a: Arrival, dates: Dates): int {
    var copy := Copy(a.upstream, a.edits, a.headersAt, dates);
    InitialAgeMs(CopyAge(copy), CopyDate(copy, dates), a.headersAt)
  }

  /** When does every hit on a stored copy keep to max-age? Exactly when the age its headers announce at receipt,
      and the time until its last moment in the cache, are together no more. */
  lemma MaxAgeKeptIff(limits: Limits, events: seq<Event>, dates: Dates, r: Request, a: Arrival, m: nat)
    requires limits.Valid() && limits.ttlMs >= DEFAULT_TTL_MS && a.headersAt <= a.ttlClock
    requires Judge(limits, a.putClock, KeyOf(r), StoredResponse(a, dates), r.sessionId,
                   Some(StoreTtl(a, dates))).Stores?
    ensures (forall clock :: Served(limits, events + [Store(r, a)], dates, r, clock).Some?
              ==> AgeOf(Served(limits, events + [Store(r, a)], dates, r, clock).value, clock, dates) <= m)
            <==> AnnouncedAtReceipt(a, dates) + (a.putClock + StoreTtl(a, dates) - 1 - a.headersAt) <= m * 1000
  {
    hide Served, Judge, StoreTtl, CopyAge, CopyDate, Copy, InitialAgeMs, CeilDiv;
    var all := events + [Store(r, a)];
    var last := a.putClock + StoreTtl(a, dates) - 1;
    forall clock ensures Served(limits, all, dates, r, clock).Some? <==> clock <= last {
      ServedUntil(limits, events, dates, r, a, clock);
    }
    forall clock | Served(limits, all, dates, r, clock).Some?
      ensures Served(limits, all, dates, r, clock).value == StoredResponse(a, dates)
      ensures AgeOf(Served(limits, all, dates, r, clock).value, clock, dates) <= m
              <==> AnnouncedAtReceipt(a, dates) + (clock - a.headersAt) <= m * 1000
    {
      ServedUntil(limits, events, dates, r, a, clock);
      AgeAtMost(AnnouncedAtReceipt(a, dates) + (clock - a.headersAt), m);
    }
    assert Served(limits, all, dates, r, last).Some?;
  }

  lemma AgeAtMost(total: int, m: nat)
    ensures Freshness.Max(0, CeilDiv(total, 1000)) <= m <==> total <= m * 1000
  {
    if total <= m * 1000 {
      CeilDivBound(total, 1000, m);
    }
    CeilDivCovers(total, 1000);
  }

  /** When is a stored copy never served at or past its freshness? Exactly when the clock did not
      advance between the read that computes the lifetime and the read inside put. */
  lemma FreshIffOneClock(limits: Limits, events: seq<Event>, dates: Dates, r: Request, a: Arrival)
    requires limits.Valid() && limits.ttlMs >= DEFAULT_TTL_MS
    requires a.headersAt <= a.ttlClock <= a.putClock
    requires Judge(limits, a.putClock, KeyOf(r), StoredResponse(a, dates), r.sessionId,
                   Some(StoreTtl(a, dates))).Stores?
    ensures (forall clock :: Served(limits, events + [Store(r, a)], dates, r, clock).Some?
              ==> clock - a.headersAt < TtlMs(a.upstream, a.headersAt, dates.strict))
            <==> a.putClock == a.ttlClock
  {
    hide Served, Judge, TtlMs;
    var all := events + [Store(r, a)];
    var expiry := a.putClock + StoreTtl(a, dates);
    forall clock ensures Served(limits, all, dates, r, clock).Some? <==> clock < expiry {
      ServedUntil(limits, events, dates, r, a, clock);
    }
    StoredTtl(limits, a, r, dates);
    assert Served(limits, all, dates, r, expiry - 1).Some?;
  }

  lemma StoredTtl(limits: Limits, a: Arrival, r: Request, dates: Dates)
    requires limits.Valid() && limits.ttlMs >= DEFAULT_TTL_MS && a.headersAt <= a.ttlClock
    requires Judge(limits, a.putClock, KeyOf(r), StoredResponse(a, dates), r.sessionId,
                   Some(StoreTtl(a, dates))).Stores?
    ensures 0 < StoreTtl(a, dates) == TtlMs(a.upstream, a.headersAt, dates.strict) - (a.ttlClock - a.headersAt)
    ensures StoreTtl(a, dates) <= limits.ttlMs
    ensures Judge(limits, a.putClock, KeyOf(r), StoredResponse(a, dates), r.sessionId,
                  Some(StoreTtl(a, dates))).entry.expiresAt
         == a.putClock + StoreTtl(a, dates)
  {
  }

  /** Right after a store the copy is served until its lifetime from the put is over, and no longer. */
  lemma ServedUntil(limits: Limits, events: seq<Event>, dates: Dates, r: Request, a: Arrival, clock: int)
    requires limits.Valid() && limits.ttlMs >= DEFAULT_TTL_MS && a.headersAt <= a.ttlClock
    requires Judge(limits, a.putClock, KeyOf(r), StoredResponse(a, dates), r.sessionId,
                   Some(StoreTtl(a, dates))).Stores?
    ensures Served(limits, events + [Store(r, a)], dates, r, clock)
         == if clock < a.putClock + StoreTtl(a, dates) then Some(StoredResponse(a, dates)) else None
  {
    hide Judge, StoreTtl, Fit, KeyOf, Copy, AfterPut;
    StoredTtl(limits, a, r, dates);
    var ops := ToOps(events + [Store(r, a)], dates);
    assert ops[..|ops| - 1] == ToOps(events, dates);
    var before := Run(limits, ToOps(events, dates));
    StoredEntry(limits, ops[|ops| - 1],
                Judge(limits, a.putClock, KeyOf(r), StoredResponse(a, dates), r.sessionId,
                      Some(StoreTtl(a, dates))).entry);
    var _ := PutKeepsLongestSuffix(limits, before, a.putClock, KeyOf(r), StoredResponse(a, dates), r.sessionId,
                                   Some(StoreTtl(a, dates)));
    hide Run, OM.Restrict;
  }

  /** Each entry belongs to the device inside its key. */
  ghost predicate OwnersInKeys(m: Cache) {
    forall k :: k in m.vals ==> OwnerInKey(k, m.vals[k].sessionId)
  }

  ghost predicate OwnerInKey(key: string, sessionId: string) {
    exists r: Request :: KeyOf(r) == key && r.sessionId == sessionId
  }

  lemma OwnerOf(limits: Limits, events: seq<Event>, dates: Dates, key: string)
    requires limits.Valid() && key in CacheAfter(limits, events, dates).vals
    ensures OwnerInKey(key, CacheAfter(limits, events, dates).vals[key].sessionId)
  {
    hide Run, Kills, Judge, KeyOf, StoreTtl, StoredResponse, VerdictOf;
    var ops := ToOps(events, dates);
    var i := EntryProvenance(limits, ops, key);
    StoredOwner(limits, ops[i], Run(limits, ops).vals[key]);
    assert ops[i] == ToOp(events[i], dates);
    assert KeyOf(events[i].request) == key;
  }

  lemma StoredOwner(limits: Limits, op: Op, entry: Entry)
    requires limits.Valid() && op.Put? && VerdictOf(limits, op) == Stores(entry)
    ensures entry.sessionId == op.sessionId
  {
  }

  lemma EveryOwnerInKey(limits: Limits, events: seq<Event>, dates: Dates)
    requires limits.Valid()
    ensures OwnersInKeys(CacheAfter(limits, events, dates))
  {
    forall k | k in CacheAfter(limits, events, dates).vals
      ensures OwnerInKey(k, CacheAfter(limits, events, dates).vals[k].sessionId)
    {
      OwnerOf(limits, events, dates, k);
    }
  }

  /** The device a key was made for, read out of the key. */
  ghost predicate MadeFor(key: string, sessionId: string) {
    Json.ReadKey(key).Some? && Json.ReadKey(key).value.0 == sessionId
  }

  lemma RevokeStep(limits: Limits, events: seq<Event>, dates: Dates, sessionId: string)
    requires limits.Valid()
    ensures CacheAfter(limits, events + [Revoke(sessionId)], dates)
         == AfterDeleteSession(CacheAfter(limits, events, dates), sessionId)
  {
    var ops := ToOps(events + [Revoke(sessionId)], dates);
    assert ops[..|ops| - 1] == ToOps(events, dates);
  }

  lemma OwnerMade(key: string, owner: string, sessionId: string)
    requires OwnerInKey(key, owner)
    ensures MadeFor(key, sessionId) <==> owner == sessionId
  {
    hide Json.ReadKey, Json.RequestKey;
    var r: Request :| KeyOf(r) == key && r.sessionId == owner;
    Json.KeyRoundTrip(r.sessionId, r.url, r.encodings);
  }

  /** Revoking a device removes exactly the entries whose key names it, and keeps the others in order. */
  lemma RevokeRemovesExactlyOwn(limits: Limits, events: seq<Event>, dates: Dates, sessionId: string)
    requires limits.Valid()
    ensures var before := CacheAfter(limits, events, dates);
      CacheAfter(limits, events + [Revoke(sessionId)], dates)
      == OM.Restrict(before, set k | k in before.vals && !MadeFor(k, sessionId))
  {
    hide CacheAfter, KeyOf, Json.ReadKey, OM.Restrict;
    var before := CacheAfter(limits, events, dates);
    RevokeStep(limits, events, dates, sessionId);
    EveryOwnerInKey(limits, events, dates);
    forall k | k in before.vals ensures MadeFor(k, sessionId) <==> before.vals[k].sessionId == sessionId {
      assert OwnerInKey(k, before.vals[k].sessionId);
      OwnerMade(k, before.vals[k].sessionId, sessionId);
    }
    OM.RestrictSame(before, before.vals.Keys - OwnedBy(before, sessionId),
                    set k | k in before.vals && !MadeFor(k, sessionId));
  }
}
