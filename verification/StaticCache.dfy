/** The bounded response cache: a Map whose key order is the recency order, and a byte counter.
    The first part says what every call does to the order; the second proves what holds of
    every history of calls; the class at the end is the cache itself. */
module StaticCache {
  import opened Text
  import Json
  import OM = OrderedMap

  const MAX_SAFE_INTEGER: int := 9007199254740991
  const DEFAULT_TTL_MS: int := 300000

  datatype Response = Response(status: int, headers: Json.Headers, body: seq<bv8>, receivedAt: Option<int>)

  datatype Entry = Entry(response: Response, sessionId: string, expiresAt: int, bytes: nat)

  type Cache = OM.OrderedMap<string, Entry>

  datatype Limits = Limits(maxBytes: int, maxEntryBytes: int, maxEntries: int, ttlMs: int) {
    predicate Valid() {
      && 0 <= maxBytes <= MAX_SAFE_INTEGER
      && 0 <= maxEntryBytes <= MAX_SAFE_INTEGER
      && 0 <= maxEntries <= MAX_SAFE_INTEGER
      && 0 <= ttlMs <= MAX_SAFE_INTEGER
    }
  }

  function Min(a: int, b: int): int {
    if a <= b then a else b
  }

  /** Body, serialized headers, key and owner, and 16 bytes for a receipt time. */
  function EntrySize(key: string, response: Response, sessionId: string): nat {
    |response.body| + Json.ByteLength(Json.StringifyHeaders(response.headers)) + Json.ByteLength(key)
    + Json.ByteLength(sessionId) + if response.receivedAt.None? then 0 else 16
  }

  /** What a put amounts to; independent of what the cache holds. */
  datatype Verdict = Ignored | Drops | Stores(entry: Entry)

  function Judge(limits: Limits, time: int, key: string, response: Response, sessionId: string,
                 ttl: Option<int>): (v: Verdict)
    requires limits.Valid()
    ensures v.Stores? ==>
      v.entry.bytes <= limits.maxEntryBytes && v.entry.bytes <= limits.maxBytes && limits.maxEntries > 0
  {
    if ttl.Some? && !(0 <= ttl.value <= MAX_SAFE_INTEGER) then Ignored
    else if response.receivedAt.Some? && !(0 <= response.receivedAt.value <= Min(time, MAX_SAFE_INTEGER)) then Ignored
    else
      var lifetime := Min(limits.ttlMs, if ttl.Some? then ttl.value else limits.ttlMs);
      if lifetime == 0 then Drops
      else if limits.maxEntries == 0 || response.status != 200 then Ignored
      else
        var size := EntrySize(key, response, sessionId);
        if size > limits.maxEntryBytes || size > limits.maxBytes then Ignored
        else Stores(Entry(response, sessionId, time + lifetime, size))
  }

  // ----- the recency sequence -----

  function LiveKeys(m: Cache, time: int): set<string> {
    set k | k in m.vals && m.vals[k].expiresAt > time
  }

  function Live(m: Cache, time: int): Cache {
    OM.Restrict(m, LiveKeys(m, time))
  }

  function KeySum(keys: seq<string>, vals: map<string, Entry>): nat
    requires forall k :: k in keys ==> k in vals
  {
    if keys == [] then 0 else vals[keys[0]].bytes + KeySum(keys[1..], vals)
  }

  function Sum(m: Cache): nat {
    KeySum(m.keys, m.vals)
  }

  predicate Room(limits: Limits, m: Cache, size: int) {
    |m.keys| < limits.maxEntries && Sum(m) + size <= limits.maxBytes
  }

  /** Forget the oldest entries until there is room. */
  function Fit(limits: Limits, m: Cache, size: int): Cache
    decreases |m.keys|
  {
    if m.keys == [] || Room(limits, m, size) then m
    else
      OM.DeleteFirst(m);
      Fit(limits, OM.Delete(m, m.keys[0]), size)
  }

  function AfterGet(m: Cache, time: int, key: string): Cache {
    var live := Live(m, time);
    if key in live.vals then OM.Set(OM.Delete(live, key), key, live.vals[key]) else live
  }

  function Answer(m: Cache, time: int, key: string): Option<Response> {
    var live := Live(m, time);
    if key in live.vals then Some(live.vals[key].response) else None
  }

  /** The effect of a verdict on the swept cache. */
  function Settle(limits: Limits, live: Cache, key: string, verdict: Verdict): Cache {
    match verdict
    case Ignored => live
    case Drops => OM.Delete(live, key)
    case Stores(entry) => OM.Set(Fit(limits, OM.Delete(live, key), entry.bytes), key, entry)
  }

  function AfterPut(limits: Limits, m: Cache, time: int, key: string, response: Response, sessionId: string,
                    ttl: Option<int>): Cache
    requires limits.Valid()
  {
    Settle(limits, Live(m, time), key, Judge(limits, time, key, response, sessionId, ttl))
  }

  function OwnedBy(m: Cache, sessionId: string): set<string> {
    set k | k in m.vals && m.vals[k].sessionId == sessionId
  }

  function AfterDeleteSession(m: Cache, sessionId: string): Cache {
    OM.Restrict(m, m.vals.Keys - OwnedBy(m, sessionId))
  }

  // ----- facts about one step -----

  /** `part` holds the entries of `m` from position `n` of the order on. */
  ghost predicate IsSuffix(m: Cache, n: nat, part: Cache) {
    && n <= |m.keys| && part.keys == m.keys[n..]
    && forall k :: k in part.vals ==> k in m.vals && part.vals[k] == m.vals[k]
  }

  lemma SuffixOfTail(m: Cache, n: nat, part: Cache)
    requires m.keys != [] && IsSuffix(OM.Delete(m, m.keys[0]), n, part)
    ensures IsSuffix(m, n + 1, part)
  {
    OM.DeleteFirst(m);
    assert m.keys[1..][n..] == m.keys[n + 1..];
  }

  /** Keeping the entries from position `n` on would leave room. */
  ghost predicate SuffixRoom(limits: Limits, m: Cache, n: nat, size: int)
    requires n <= |m.keys|
  {
    assert forall k :: k in m.keys[n..] ==> k in m.keys;
    |m.keys| - n < limits.maxEntries && KeySum(m.keys[n..], m.vals) + size <= limits.maxBytes
  }

  lemma SuffixRoomOfTail(limits: Limits, m: Cache, n: nat, size: int)
    requires 0 < n <= |m.keys|
    ensures |OM.Delete(m, m.keys[0]).keys| == |m.keys| - 1
    ensures SuffixRoom(limits, m, n, size) == SuffixRoom(limits, OM.Delete(m, m.keys[0]), n - 1, size)
  {
    OM.DeleteFirst(m);
    var rest := OM.Delete(m, m.keys[0]);
    assert rest.keys[n - 1..] == m.keys[n..];
    assert forall k :: k in rest.keys[n - 1..] ==> k in rest.keys;
    KeySumSame(m.keys[n..], m.vals, rest.vals);
  }

  lemma {:induction false} FitHasRoom(limits: Limits, m: Cache, size: int)
    requires limits.maxEntries > 0 && size <= limits.maxBytes
    ensures |Fit(limits, m, size).keys| <= |m.keys| && Room(limits, Fit(limits, m, size), size)
    decreases |m.keys|
  {
    if m.keys != [] && !Room(limits, m, size) {
      OM.DeleteFirst(m);
      FitHasRoom(limits, OM.Delete(m, m.keys[0]), size);
    }
  }

  lemma {:induction false} FitIsSuffix(limits: Limits, m: Cache, size: int) returns (n: nat)
    ensures IsSuffix(m, n, Fit(limits, m, size)) && n == |m.keys| - |Fit(limits, m, size).keys|
    decreases |m.keys|
  {
    if m.keys == [] || Room(limits, m, size) {
      n := 0;
      assert m.keys[0..] == m.keys;
    } else {
      OM.DeleteFirst(m);
      n := FitIsSuffix(limits, OM.Delete(m, m.keys[0]), size);
      SuffixOfTail(m, n, Fit(limits, OM.Delete(m, m.keys[0]), size));
      n := n + 1;
    }
  }

  lemma {:induction false} LongerHasNoRoom(limits: Limits, m: Cache, size: int, j: nat)
    requires limits.maxEntries > 0 && size <= limits.maxBytes && j < |m.keys| - |Fit(limits, m, size).keys|
    ensures !SuffixRoom(limits, m, j, size)
    decreases |m.keys|
  {
    hide OM.Keep;
    if j == 0 {
      assert m.keys[0..] == m.keys;
    } else {
      OM.DeleteFirst(m);
      SuffixRoomOfTail(limits, m, j, size);
      LongerHasNoRoom(limits, OM.Delete(m, m.keys[0]), size, j - 1);
    }
  }

  /** What eviction keeps is the longest suffix of the order that leaves room under both caps. */
  lemma FitIsLongestSuffix(limits: Limits, m: Cache, size: int) returns (n: nat)
    requires limits.maxEntries > 0 && size <= limits.maxBytes
    ensures IsSuffix(m, n, Fit(limits, m, size)) && Room(limits, Fit(limits, m, size), size)
    ensures forall j: nat :: j < n ==> !SuffixRoom(limits, m, j, size)
  {
    FitHasRoom(limits, m, size);
    n := FitIsSuffix(limits, m, size);
    forall j: nat | j < n ensures !SuffixRoom(limits, m, j, size) {
      LongerHasNoRoom(limits, m, size, j);
    }
  }

  /** An admitted put keeps the longest suffix of the unexpired order, less the replaced key, that leaves room,
      and puts the new entry last. */
  lemma PutKeepsLongestSuffix(limits: Limits, m: Cache, time: int, key: string, response: Response, sessionId: string,
                              ttl: Option<int>) returns (n: nat)
    requires limits.Valid() && Judge(limits, time, key, response, sessionId, ttl).Stores?
    ensures var others := OM.Delete(Live(m, time), key);
      var after := AfterPut(limits, m, time, key, response, sessionId, ttl);
      var entry := Judge(limits, time, key, response, sessionId, ttl).entry;
      && n <= |others.keys| && after.keys == others.keys[n..] + [key]
      && key in after.vals && after.vals[key] == entry
      && (forall k :: k in others.keys[n..] ==> k in after.vals && k in m.vals && after.vals[k] == m.vals[k])
      && forall j: nat :: j < n ==> !SuffixRoom(limits, others, j, entry.bytes)
  {
    hide Judge, Fit;
    var others := OM.Delete(Live(m, time), key);
    var entry := Judge(limits, time, key, response, sessionId, ttl).entry;
    n := FitIsLongestSuffix(limits, others, entry.bytes);
    var kept := Fit(limits, others, entry.bytes);
    assert key !in others.vals && key !in others.keys;
    forall k | k in kept.keys ensures k in others.vals && kept.vals[k] == others.vals[k] {
      assert k in others.keys[n..];
    }
    assert key !in kept.keys;
  }

  /** What later reads answer after a put: a rejected one changes nothing beyond the expiry sweep, one with zero
      lifetime takes the key away, and an admitted one answers its response until its lifetime is over and leaves
      every key it keeps as it was. */
  lemma PutAnswers(limits: Limits, m: Cache, time: int, key: string, response: Response, sessionId: string,
                   ttl: Option<int>,
                   later: int, k: string)
    requires limits.Valid() && later >= time
    ensures var after := AfterPut(limits, m, time, key, response, sessionId, ttl);
      match Judge(limits, time, key, response, sessionId, ttl)
      case Ignored => Answer(after, later, k) == Answer(m, later, k)
      case Drops => Answer(after, later, k) == if k == key then None else Answer(m, later, k)
      case Stores(entry) =>
        if k == key then Answer(after, later, k) == if later < entry.expiresAt then Some(entry.response) else None
        else Answer(after, later, k) == if k in after.vals then Answer(m, later, k) else None
  {
    hide Fit;
    var verdict := Judge(limits, time, key, response, sessionId, ttl);
    hide Judge;
    if verdict.Stores? && k in AfterPut(limits, m, time, key, response, sessionId, ttl).vals && k != key {
      FitIsPart(limits, OM.Delete(Live(m, time), key), verdict.entry.bytes, k);
    }
  }

  /** A read changes no later answer, its own key's included: it renews no lifetime. */
  lemma ReadChangesNoAnswer(m: Cache, time: int, key: string, later: int, k: string)
    requires later >= time
    ensures Answer(AfterGet(m, time, key), later, k) == Answer(m, later, k)
    ensures Answer(Live(m, time), later, k) == Answer(m, later, k)
  {
    hide OM.Keep, OM.Restrict, OM.Set;
    var live := Live(m, time);
    assert Live(live, later).vals == Live(m, later).vals;
    if key in live.vals {
      assert AfterGet(m, time, key).vals == live.vals;
    }
  }

  lemma {:induction false} KeySumSame(keys: seq<string>, a: map<string, Entry>, b: map<string, Entry>)
    requires forall k :: k in keys ==> k in a && k in b && a[k] == b[k]
    ensures KeySum(keys, a) == KeySum(keys, b)
  {
    if keys != [] {
      KeySumSame(keys[1..], a, b);
    }
  }

  lemma {:induction false} KeySumConcat(s: seq<string>, t: seq<string>, vals: map<string, Entry>)
    requires forall k :: k in s + t ==> k in vals
    ensures (forall k :: k in s ==> k in s + t) && (forall k :: k in t ==> k in s + t)
    ensures KeySum(s + t, vals) == KeySum(s, vals) + KeySum(t, vals)
  {
    assert forall k :: k in s || k in t ==> k in s + t;
    if s == [] {
      assert s + t == t;
    } else {
      assert (s + t)[1..] == s[1..] + t;
      KeySumConcat(s[1..], t, vals);
    }
  }

  /** Deleting an entry takes exactly its size off the total. */
  lemma {:induction false} KeySumDelete(keys: seq<string>, vals: map<string, Entry>, key: string, keep: set<string>)
    requires OM.Distinct(keys) && (forall k :: k in keys ==> k in vals)
    requires forall k :: k in keys ==> (k in keep <==> k != key)
    requires key in vals
    ensures forall k :: k in OM.Keep(keys, keep) ==> k in keys
    ensures KeySum(OM.Keep(keys, keep), vals) == KeySum(keys, vals) - if key in keys then vals[key].bytes else 0
  {
    if keys != [] {
      KeySumDelete(keys[1..], vals, key, keep);
      if keys[0] == key {
        assert key !in keys[1..];
      }
    }
  }

  lemma SumDelete(m: Cache, key: string)
    ensures Sum(OM.Delete(m, key)) == Sum(m) - if key in m.vals then m.vals[key].bytes else 0
  {
    if key in m.vals {
      KeySumDelete(m.keys, m.vals, key, m.vals.Keys - {key});
      KeySumSame(OM.Delete(m, key).keys, OM.Delete(m, key).vals, m.vals);
    } else {
      OM.RestrictAll(m, m.vals.Keys - {key});
    }
  }

  lemma SumSet(m: Cache, key: string, entry: Entry)
    requires key !in m.vals
    ensures Sum(OM.Set(m, key, entry)) == Sum(m) + entry.bytes
  {
    var vals := OM.Set(m, key, entry).vals;
    KeySumConcat(m.keys, [key], vals);
    KeySumSame(m.keys, m.vals, vals);
    assert KeySum([key], vals) == entry.bytes + KeySum([], vals);
  }

  lemma {:induction false} KeySumKeep(keys: seq<string>, vals: map<string, Entry>, keep: set<string>)
    requires forall k :: k in keys ==> k in vals
    ensures forall k :: k in OM.Keep(keys, keep) ==> k in keys
    ensures KeySum(OM.Keep(keys, keep), vals) <= KeySum(keys, vals)
  {
    if keys != [] {
      KeySumKeep(keys[1..], vals, keep);
    }
  }

  lemma SumRestrict(m: Cache, keep: set<string>)
    ensures Sum(OM.Restrict(m, keep)) <= Sum(m)
  {
    KeySumKeep(m.keys, m.vals, keep);
    KeySumSame(OM.Restrict(m, keep).keys, OM.Restrict(m, keep).vals, m.vals);
  }

  // ----- histories -----

  datatype Op =
    | Get(time: int, key: string)
    | Put(time: int, key: string, response: Response, sessionId: string, ttl: Option<int>)
    | DeleteSession(sessionId: string)
    | Clear
    | Stats(time: int)

  function Step(limits: Limits, m: Cache, op: Op): Cache
    requires limits.Valid()
  {
    match op
    case Get(time, key) => AfterGet(m, time, key)
    case Put(time, key, response, sessionId, ttl) => AfterPut(limits, m, time, key, response, sessionId, ttl)
    case DeleteSession(sessionId) => AfterDeleteSession(m, sessionId)
    case Clear => OM.Empty()
    case Stats(time) => Live(m, time)
  }

  /** The cache after a history of calls. */
  function Run(limits: Limits, ops: seq<Op>): Cache
    requires limits.Valid()
  {
    if ops == [] then OM.Empty() else Step(limits, Run(limits, ops[..|ops| - 1]), ops[|ops| - 1])
  }

  ghost predicate WithinCaps(limits: Limits, m: Cache) {
    && |m.keys| <= limits.maxEntries
    && Sum(m) <= limits.maxBytes
    && forall k :: k in m.vals ==> m.vals[k].bytes <= limits.maxEntryBytes
  }

  lemma StoreKeepsCaps(limits: Limits, kept: Cache, key: string, entry: Entry)
    requires WithinCaps(limits, kept) && key !in kept.vals && limits.maxEntries > 0
    requires entry.bytes <= limits.maxEntryBytes && entry.bytes <= limits.maxBytes
    ensures WithinCaps(limits, OM.Set(Fit(limits, kept, entry.bytes), key, entry))
  {
    var fit := Fit(limits, kept, entry.bytes);
    FitHasRoom(limits, kept, entry.bytes);
    var _ := FitIsSuffix(limits, kept, entry.bytes);
    SumSet(fit, key, entry);
  }

  lemma SettleKeepsCaps(limits: Limits, live: Cache, key: string, verdict: Verdict)
    requires limits.Valid() && WithinCaps(limits, live)
    requires verdict.Stores? ==>
      verdict.entry.bytes <= Min(limits.maxEntryBytes, limits.maxBytes) && limits.maxEntries > 0
    ensures WithinCaps(limits, Settle(limits, live, key, verdict))
  {
    SumDelete(live, key);
    if verdict.Stores? {
      StoreKeepsCaps(limits, OM.Delete(live, key), key, verdict.entry);
    }
  }

  lemma StepKeepsCaps(limits: Limits, m: Cache, op: Op)
    requires limits.Valid() && WithinCaps(limits, m)
    ensures WithinCaps(limits, Step(limits, m, op))
  {
    hide Judge, Fit;
    match op
    case Get(time, key) =>
      var live := Live(m, time);
      SumRestrict(m, LiveKeys(m, time));
      if key in live.vals {
        SumDelete(live, key);
        SumSet(OM.Delete(live, key), key, live.vals[key]);
        DeletePresent(live, key);
      }
    case Put(time, key, response, sessionId, ttl) =>
      SumRestrict(m, LiveKeys(m, time));
      SettleKeepsCaps(limits, Live(m, time), key, Judge(limits, time, key, response, sessionId, ttl));
    case DeleteSession(sessionId) => SumRestrict(m, m.vals.Keys - OwnedBy(m, sessionId));
    case Clear =>
    case Stats(time) => SumRestrict(m, LiveKeys(m, time));
  }

  lemma DeletePresent(m: Cache, key: string)
    requires key in m.vals
    ensures |OM.Delete(m, key).keys| == |m.keys| - 1
  {
    OM.CountIsKeys(m);
    OM.CountIsKeys(OM.Delete(m, key));
    assert |m.vals.Keys - {key}| == |m.vals| - 1;
    assert OM.Delete(m, key).vals.Keys == m.vals.Keys - {key};
  }

  /** Both caps hold after every history. */
  lemma {:induction false} CapsAlwaysHold(limits: Limits, ops: seq<Op>)
    requires limits.Valid()
    ensures WithinCaps(limits, Run(limits, ops))
  {
    if ops != [] {
      CapsAlwaysHold(limits, ops[..|ops| - 1]);
      StepKeepsCaps(limits, Run(limits, ops[..|ops| - 1]), ops[|ops| - 1]);
    }
  }

  function VerdictOf(limits: Limits, op: Op): Verdict
    requires limits.Valid() && op.Put?
  {
    Judge(limits, op.time, op.key, op.response, op.sessionId, op.ttl)
  }

  /** The call makes it impossible for this entry to be served afterwards. */
  ghost predicate Kills(limits: Limits, op: Op, key: string, entry: Entry)
    requires limits.Valid()
  {
    match op
    case Get(time, _) => entry.expiresAt <= time
    case Stats(time) => entry.expiresAt <= time
    case Put(time, k, _, _, _) => entry.expiresAt <= time || (k == key && VerdictOf(limits, op) != Ignored)
    case DeleteSession(sessionId) => entry.sessionId == sessionId
    case Clear => true
  }

  /** Call number `i` stored this entry, and no later call killed it. */
  ghost predicate StoredAt(limits: Limits, ops: seq<Op>, i: nat, key: string, entry: Entry)
    requires limits.Valid()
  {
    && i < |ops| && ops[i].Put? && ops[i].key == key && VerdictOf(limits, ops[i]) == Stores(entry)
    && forall j :: i < j < |ops| ==> !Kills(limits, ops[j], key, entry)
  }

  lemma StoredAtExtends(limits: Limits, ops: seq<Op>, i: nat, key: string, entry: Entry)
    requires limits.Valid() && ops != []
    requires StoredAt(limits, ops[..|ops| - 1], i, key, entry) && !Kills(limits, ops[|ops| - 1], key, entry)
    ensures StoredAt(limits, ops, i, key, entry)
  {
    assert forall j :: 0 <= j < |ops| - 1 ==> ops[j] == ops[..|ops| - 1][j];
  }

  lemma StoredLast(limits: Limits, ops: seq<Op>, key: string, entry: Entry)
    requires limits.Valid() && ops != [] && ops[|ops| - 1].Put? && ops[|ops| - 1].key == key
    requires VerdictOf(limits, ops[|ops| - 1]) == Stores(entry)
    ensures StoredAt(limits, ops, |ops| - 1, key, entry)
  {
  }

  lemma FitIsPart(limits: Limits, m: Cache, size: int, key: string)
    requires limits.maxEntries > 0 && size <= limits.maxBytes && key in Fit(limits, m, size).vals
    ensures key in m.vals && Fit(limits, m, size).vals[key] == m.vals[key]
  {
    var _ := FitIsSuffix(limits, m, size);
  }

  /** What a put leaves was there before and survived it, or was just stored. */
  lemma PutProvenance(limits: Limits, m: Cache, op: Op, key: string)
    requires limits.Valid() && op.Put? && key in Step(limits, m, op).vals
    ensures var entry := Step(limits, m, op).vals[key];
      || (key in m.vals && entry == m.vals[key] && !Kills(limits, op, key, entry))
      || (op.key == key && VerdictOf(limits, op) == Stores(entry))
  {
    match VerdictOf(limits, op)
    case Ignored =>
    case Drops =>
    case Stores(entry) =>
      if key != op.key {
        FitIsPart(limits, OM.Delete(Live(m, op.time), op.key), entry.bytes, key);
      }
  }

  /** The other calls only keep what they do not kill. */
  lemma OtherProvenance(limits: Limits, m: Cache, op: Op, key: string)
    requires limits.Valid() && !op.Put? && key in Step(limits, m, op).vals
    ensures key in m.vals && Step(limits, m, op).vals[key] == m.vals[key] && !Kills(limits, op, key, m.vals[key])
  {
  }

  /** Every entry held after a history was stored by one put, and nothing since then
      expired, replaced, invalidated or disowned it. */
  lemma {:induction false} EntryProvenance(limits: Limits, ops: seq<Op>, key: string) returns (i: nat)
    requires limits.Valid() && key in Run(limits, ops).vals
    ensures StoredAt(limits, ops, i, key, Run(limits, ops).vals[key])
  {
    hide Step, Kills, VerdictOf, StoredAt;
    var before, last := Run(limits, ops[..|ops| - 1]), ops[|ops| - 1];
    var entry := Run(limits, ops).vals[key];
    if last.Put? {
      PutProvenance(limits, before, last, key);
    } else {
      OtherProvenance(limits, before, last, key);
    }
    if last.Put? && last.key == key && VerdictOf(limits, last) == Stores(entry) {
      i := |ops| - 1;
      StoredLast(limits, ops, key, entry);
    } else {
      i := EntryProvenance(limits, ops[..|ops| - 1], key);
      StoredAtExtends(limits, ops, i, key, entry);
    }
  }

  /** A served response was stored under that key by an earlier put that is still in force,
      and its lifetime, which no read renews, has not run out. */
  lemma ServedIsStored(limits: Limits, ops: seq<Op>, time: int, key: string) returns (i: nat, entry: Entry)
    requires limits.Valid() && Answer(Run(limits, ops), time, key).Some?
    ensures StoredAt(limits, ops, i, key, entry)
    ensures Answer(Run(limits, ops), time, key) == Some(entry.response)
    ensures entry.response == ops[i].response && time < entry.expiresAt <= ops[i].time + limits.ttlMs
    ensures ops[i].ttl.Some? ==> entry.expiresAt <= ops[i].time + ops[i].ttl.value
  {
    hide Run, Kills, EntrySize;
    i := EntryProvenance(limits, ops, key);
    entry := Run(limits, ops).vals[key];
  }

  /** The same, without the calls in between. */
  lemma ServedByPut(limits: Limits, ops: seq<Op>, time: int, key: string) returns (i: nat, entry: Entry)
    requires limits.Valid() && Answer(Run(limits, ops), time, key).Some?
    ensures i < |ops| && ops[i].Put? && ops[i].key == key && VerdictOf(limits, ops[i]) == Stores(entry)
    ensures Answer(Run(limits, ops), time, key) == Some(entry.response) && time < entry.expiresAt
  {
    i, entry := ServedIsStored(limits, ops, time, key);
  }

  /** Recency, read off the history alone: a call touches a key when it reads it or stores it. */
  predicate Touches(limits: Limits, op: Op, key: string)
    requires limits.Valid()
  {
    match op
    case Get(_, k) => k == key
    case Put(_, k, _, _, _) => k == key && VerdictOf(limits, op).Stores?
    case _ => false
  }

  /** Number of calls up to and including the last one that touched the key; zero if none did. */
  function LastTouch(limits: Limits, ops: seq<Op>, key: string): (n: nat)
    requires limits.Valid()
    ensures n <= |ops|
    ensures n > 0 ==> Touches(limits, ops[n - 1], key)
    ensures forall j :: n <= j < |ops| ==> !Touches(limits, ops[j], key)
  {
    if ops == [] then 0
    else if Touches(limits, ops[|ops| - 1], key) then |ops|
    else
      var n := LastTouch(limits, ops[..|ops| - 1], key);
      assert n > 0 ==> ops[..|ops| - 1][n - 1] == ops[n - 1];
      assert forall j :: n <= j < |ops| - 1 ==> ops[..|ops| - 1][j] == ops[j];
      n
  }

  ghost function Rank(limits: Limits, ops: seq<Op>): string -> int
    requires limits.Valid()
  {
    k => LastTouch(limits, ops, k)
  }

  /** Keys that the last call did not touch keep their relative age. */
  lemma UntouchedByRecency(limits: Limits, ops: seq<Op>, keys: seq<string>)
    requires limits.Valid() && ops != [] && OM.Ascending(keys, Rank(limits, ops[..|ops| - 1]))
    requires forall k :: k in keys ==> !Touches(limits, ops[|ops| - 1], k)
    ensures OM.Ascending(keys, Rank(limits, ops))
  {
    forall k | k in keys ensures LastTouch(limits, ops, k) == LastTouch(limits, ops[..|ops| - 1], k) {}
  }

  lemma TouchedGoesLast(limits: Limits, ops: seq<Op>, keys: seq<string>, key: string)
    requires limits.Valid() && ops != [] && OM.Ascending(keys, Rank(limits, ops[..|ops| - 1]))
    requires forall k :: k in keys ==> !Touches(limits, ops[|ops| - 1], k)
    requires Touches(limits, ops[|ops| - 1], key)
    ensures OM.Ascending(keys + [key], Rank(limits, ops))
  {
    UntouchedByRecency(limits, ops, keys);
    forall k | k in keys ensures LastTouch(limits, ops, k) < |ops| {}
    assert LastTouch(limits, ops, key) == |ops|;
  }

  /** After every history the Map order is the order of last use, so eviction is least recently used first. */
  lemma {:induction false} OrderIsRecency(limits: Limits, ops: seq<Op>)
    requires limits.Valid()
    ensures OM.Ascending(Run(limits, ops).keys, Rank(limits, ops))
  {
    if ops != [] {
      var prior, last := ops[..|ops| - 1], ops[|ops| - 1];
      var m := Run(limits, prior);
      OrderIsRecency(limits, prior);
      match last {
        case Get(time, key) =>
          OM.KeepAscending(m.keys, LiveKeys(m, time), Rank(limits, prior));
          var live := Live(m, time);
          if key in live.vals {
            OM.KeepAscending(live.keys, live.vals.Keys - {key}, Rank(limits, prior));
            TouchedGoesLast(limits, ops, OM.Delete(live, key).keys, key);
          } else {
            UntouchedByRecency(limits, ops, live.keys);
          }
        case Put(time, key, _, _, _) =>
          OM.KeepAscending(m.keys, LiveKeys(m, time), Rank(limits, prior));
          var live := Live(m, time);
          OM.KeepAscending(live.keys, live.vals.Keys - {key}, Rank(limits, prior));
          match VerdictOf(limits, last) {
            case Ignored => UntouchedByRecency(limits, ops, live.keys);
            case Drops => UntouchedByRecency(limits, ops, OM.Delete(live, key).keys);
            case Stores(entry) =>
              var kept := OM.Delete(live, key);
              var fit := Fit(limits, kept, entry.bytes);
              var n := FitIsLongestSuffix(limits, kept, entry.bytes);
              OM.AscendingTail(kept.keys, n, Rank(limits, prior));
              assert forall k :: k in fit.keys ==> k in kept.keys;
              TouchedGoesLast(limits, ops, fit.keys, key);
          }
        case DeleteSession(sessionId) =>
          OM.KeepAscending(m.keys, m.vals.Keys - OwnedBy(m, sessionId), Rank(limits, prior));
          UntouchedByRecency(limits, ops, Run(limits, ops).keys);
        case Clear =>
        case Stats(time) =>
          OM.KeepAscending(m.keys, LiveKeys(m, time), Rank(limits, prior));
          UntouchedByRecency(limits, ops, Run(limits, ops).keys);
      }
    }
  }

  /** The keys left of `m` once the doomed ones among `seen` are removed. */
  ghost function Spared(m: Cache, seen: seq<string>, doomed: set<string>): set<string> {
    set k | k in m.vals && !(k in seen && k in doomed)
  }

  lemma RestrictStart(m: Cache, keys: seq<string>, doomed: set<string>)
    ensures OM.Restrict(m, Spared(m, keys[..0], doomed)) == m
  {
    OM.RestrictAll(m, Spared(m, keys[..0], doomed));
  }

  lemma RestrictNext(m: Cache, keys: seq<string>, i: nat, doomed: set<string>)
    requires keys == m.keys && i < |keys|
    ensures var now := OM.Restrict(m, Spared(m, keys[..i], doomed));
      OM.Restrict(m, Spared(m, keys[..i + 1], doomed)) == if keys[i] in doomed then OM.Delete(now, keys[i]) else now
  {
    var a, b := Spared(m, keys[..i], doomed), Spared(m, keys[..i + 1], doomed);
    assert keys[..i + 1] == keys[..i] + [keys[i]];
    if keys[i] in doomed {
      assert b == a - {keys[i]};
      OM.DeleteTwice(m, a, keys[i]);
    } else {
      assert b == a;
    }
  }

  /** What put stores, and nothing else: a whole response, with a lifetime and a receipt time that can be, that fits;
      until its lifetime, the cap's or its own whichever is shorter, is over. */
  lemma StoredExactlyWhen(limits: Limits, op: Op)
    requires limits.Valid() && op.Put?
    ensures var v, size := VerdictOf(limits, op), EntrySize(op.key, op.response, op.sessionId);
      var own := if op.ttl.Some? then op.ttl.value else limits.ttlMs;
      && (v.Stores? <==>
            && op.response.status == 200 && 0 < own <= MAX_SAFE_INTEGER && limits.ttlMs > 0 && limits.maxEntries > 0
            && (op.response.receivedAt.Some? ==>
                  0 <= op.response.receivedAt.value <= op.time && op.response.receivedAt.value <= MAX_SAFE_INTEGER)
            && size <= limits.maxEntryBytes && size <= limits.maxBytes)
      && (v.Stores? ==> v.entry == Entry(op.response, op.sessionId,
                                         op.time + (if own <= limits.ttlMs then own else limits.ttlMs), size))
  {
    hide EntrySize;
  }

  // ----- what the caps bound -----

  /** Text of so many characters takes at least so many bytes, and exactly so many when it is ASCII. */
  lemma {:induction false} ByteLengthCovers(s: string)
    ensures Json.ByteLength(s) >= |s|
    ensures (forall c :: c in s ==> c < '\U{80}') ==> Json.ByteLength(s) == |s|
  {
    if s != [] {
      assert s[0] in s && forall c :: c in s[1..] ==> c in s;
      ByteLengthCovers(s[1..]);
    }
  }

  /** The size charged for an entry covers its body, its headers as they are written out, its key and its owner. */
  lemma SizeCovers(limits: Limits, op: Op, entry: Entry)
    requires limits.Valid() && op.Put? && VerdictOf(limits, op) == Stores(entry)
    ensures entry.bytes >= |entry.response.body| + |Json.StringifyHeaders(entry.response.headers)| + |op.key|
                           + |entry.sessionId|
  {
    hide Json.StringifyHeaders, Json.ByteLength;
    ByteLengthCovers(Json.StringifyHeaders(op.response.headers));
    ByteLengthCovers(op.key);
    ByteLengthCovers(op.sessionId);
  }

  function BodySum(keys: seq<string>, vals: map<string, Entry>): nat
    requires forall k :: k in keys ==> k in vals
  {
    if keys == [] then 0 else |vals[keys[0]].response.body| + BodySum(keys[1..], vals)
  }

  lemma {:induction false} BodiesWithinSizes(keys: seq<string>, vals: map<string, Entry>)
    requires forall k :: k in keys ==> k in vals && |vals[k].response.body| <= vals[k].bytes
    ensures BodySum(keys, vals) <= KeySum(keys, vals)
  {
    if keys != [] {
      assert forall k :: k in keys[1..] ==> k in keys;
      BodiesWithinSizes(keys[1..], vals);
    }
  }

  /** After every history the bodies held come to no more than the byte cap. */
  lemma BodiesWithinCap(limits: Limits, ops: seq<Op>)
    requires limits.Valid()
    ensures var m := Run(limits, ops); BodySum(m.keys, m.vals) <= limits.maxBytes
  {
    hide Run, VerdictOf, Kills;
    var m := Run(limits, ops);
    CapsAlwaysHold(limits, ops);
    forall k | k in m.keys ensures k in m.vals && |m.vals[k].response.body| <= m.vals[k].bytes {
      var i := EntryProvenance(limits, ops, k);
      SizeCovers(limits, ops[i], m.vals[k]);
    }
    BodiesWithinSizes(m.keys, m.vals);
  }

  // ----- the cache itself -----

  class StaticResponseCache {
    const limits: Limits
    var entries: Cache
    var bytes: int

    ghost predicate Valid()
      reads this
    {
      limits.Valid() && bytes == Sum(entries)
    }

    constructor (limits: Limits)
      requires limits.Valid()
      ensures Valid() && this.limits == limits && entries == OM.Empty()
    {
      this.limits := limits;
      entries := OM.Empty();
      bytes := 0;
    }

    method Remove(key: string)
      requires Valid()
      modifies this`entries, this`bytes
      ensures Valid() && entries == OM.Delete(old(entries), key)
    {
      SumDelete(entries, key);
      if key in entries.vals {
        bytes := bytes - entries.vals[key].bytes;
        entries := OM.Delete(entries, key);
      } else {
        OM.RestrictAll(entries, entries.vals.Keys - {key});
      }
    }

    /** Iterate over the keys present at the start and remove the doomed ones. */
    method RemoveAll(doomed: set<string>)
      requires Valid()
      modifies this`entries, this`bytes
      ensures Valid() && entries == OM.Restrict(old(entries), old(entries).vals.Keys - doomed)
    {
      var keys := entries.keys;
      ghost var start := entries;
      RestrictStart(start, keys, doomed);
      for i := 0 to |keys|
        invariant Valid()
        invariant entries == OM.Restrict(start, Spared(start, keys[..i], doomed))
      {
        RestrictNext(start, keys, i, doomed);
        if keys[i] in doomed {
          Remove(keys[i]);
        }
      }
      assert keys[..|keys|] == keys;
      OM.RestrictSame(start, Spared(start, keys, doomed), start.vals.Keys - doomed);
    }

    method Expire(time: int)
      requires Valid()
      modifies this`entries, this`bytes
      ensures Valid() && entries == Live(old(entries), time)
    {
      RemoveAll(set k | k in entries.vals && entries.vals[k].expiresAt <= time);
      OM.RestrictSame(old(entries),
        old(entries).vals.Keys - (set k | k in old(entries).vals && old(entries).vals[k].expiresAt <= time),
        LiveKeys(old(entries), time));
    }

    method Get(time: int, key: string) returns (response: Option<Response>)
      requires Valid()
      modifies this`entries, this`bytes
      ensures Valid()
      ensures entries == Step(limits, old(entries), Op.Get(time, key))
      ensures response == Answer(old(entries), time, key)
    {
      Expire(time);
      if key !in entries.vals {
        return None;
      }
      var entry := entries.vals[key];
      SumDelete(entries, key);
      SumSet(OM.Delete(entries, key), key, entry);
      entries := OM.Delete(entries, key);
      entries := OM.Set(entries, key, entry);
      return Some(entry.response);
    }

    method Insert(key: string, entry: Entry)
      requires Valid() && key !in entries.vals
      modifies this`entries, this`bytes
      ensures Valid() && entries == OM.Set(old(entries), key, entry)
    {
      SumSet(entries, key, entry);
      entries := OM.Set(entries, key, entry);
      bytes := bytes + entry.bytes;
    }

    method MakeRoom(size: nat, ghost key: string)
      requires Valid() && key !in entries.vals
      modifies this`entries, this`bytes
      ensures Valid() && entries == Fit(limits, old(entries), size) && key !in entries.vals
    {
      while |entries.keys| >= limits.maxEntries || bytes + size > limits.maxBytes
        invariant Valid() && key !in entries.vals
        invariant Fit(limits, entries, size) == Fit(limits, old(entries), size)
        decreases |entries.keys|
      {
        if |entries.keys| == 0 {
          break;
        }
        OM.DeleteFirst(entries);
        Remove(entries.keys[0]);
      }
    }

    method Put(time: int, key: string, response: Response, sessionId: string, ttl: Option<int>)
      requires Valid()
      modifies this`entries, this`bytes
      ensures Valid()
      ensures entries == Step(limits, old(entries), Op.Put(time, key, response, sessionId, ttl))
    {
      Expire(time);
      match Judge(limits, time, key, response, sessionId, ttl)
      case Ignored =>
      case Drops => Remove(key);
      case Stores(entry) =>
        Remove(key);
        MakeRoom(entry.bytes, key);
        Insert(key, entry);
    }

    method DeleteSession(sessionId: string)
      requires Valid()
      modifies this`entries, this`bytes
      ensures Valid()
      ensures entries == Step(limits, old(entries), Op.DeleteSession(sessionId))
    {
      RemoveAll(set k | k in entries.vals && entries.vals[k].sessionId == sessionId);
    }

    method Clear()
      requires Valid()
      modifies this`entries, this`bytes
      ensures Valid()
      ensures entries == Step(limits, old(entries), Op.Clear)
    {
      entries := OM.Empty();
      bytes := 0;
    }

    method Stats(time: int) returns (count: nat, total: int)
      requires Valid()
      modifies this`entries, this`bytes
      ensures Valid()
      ensures entries == Step(limits, old(entries), Op.Stats(time))
      ensures count == |entries.keys| && total == Sum(entries)
    {
      Expire(time);
      return |entries.keys|, bytes;
    }
  }
}
