/** The device session store on values. Record objects live in a heap `objects`; the store's Map
    sends an id to a reference into it. A reference outlives its removal from the Map, which is
    what a stream callback holds on to. */
module Sessions {
  import opened Text
  import OM = OrderedMap

  datatype Status = Active | Pending | Rejected

  /** The stored hash of a secret; the hash function is taken to be injective. */
  datatype Digest = Digest(secret: string)

  datatype Rec = Rec(id: string, secretHash: Digest, deviceLabel: string, status: Status,
                     createdAt: int, lastSeenAt: int, createdIp: Option<string>, lastSeenIp: Option<string>)

  type Table = OM.OrderedMap<string, nat>

  /** `changes` counts the calls of onChange. */
  datatype Store = Store(objects: seq<Rec>, table: Table, changes: nat)

  datatype Config = Config(maxSessions: nat, maxAgeMs: int, idleMs: int, approvalRequired: bool)

  /** Every id in the Map refers to an object that bears it. */
  ghost predicate Valid(s: Store) {
    forall id :: id in s.table.vals ==> s.table.vals[id] < |s.objects| && s.objects[s.table.vals[id]].id == id
  }

  type ValidStore = s: Store | Valid(s) ghost witness Store([], OM.Rep([], map[]), 0)

  /** The object is the one the Map holds under its id. */
  predicate Linked(s: Store, ref: nat) {
    ref < |s.objects| && s.objects[ref].id in s.table.vals && s.table.vals[s.objects[ref].id] == ref
  }

  predicate Expired(cfg: Config, r: Rec, at: int) {
    || at - r.createdAt > cfg.maxAgeMs
    || (cfg.idleMs > 0 && at - r.lastSeenAt > cfg.idleMs)
    || (cfg.idleMs == 0 && at - r.lastSeenAt > cfg.maxAgeMs)
  }

  function At(s: Store, id: string): Rec
    requires Valid(s) && id in s.table.vals
  {
    s.objects[s.table.vals[id]]
  }

  function Write(s: Store, ref: nat, r: Rec): Store
    requires ref < |s.objects|
  {
    s.(objects := s.objects[ref := r])
  }

  function Notify(s: Store): Store {
    s.(changes := s.changes + 1)
  }

  function Update(s: Store, ref: nat, r: Rec): Store
    requires ref < |s.objects|
  {
    Notify(Write(s, ref, r))
  }

  function Drop(s: Store, id: string): Store {
    s.(table := OM.Delete(s.table, id))
  }

  function Remove(s: Store, id: string): Store {
    Notify(Drop(s, id))
  }

  /** A known address; the empty one counts as unknown. */
  function KnownIp(ip: Option<string>): Option<string> {
    if ip == Some("") then None else ip
  }

  // ----- credentials -----

  function EncodeCookie(id: string, secret: string): string {
    id + ("." + secret)
  }

  function DecodeCookie(text: string): Option<(string, string)> {
    var at := IndexOf(text, '.');
    if at < 1 || at == |text| - 1 then None else Some((text[..at], text[at + 1..]))
  }

  /** A cookie is read back as it was made when the id holds no dot and neither part is empty. */
  lemma CookieRoundTrip(id: string, secret: string)
    requires '.' !in id
    ensures DecodeCookie(EncodeCookie(id, secret)) == Some((id, secret)) <==> id != "" && secret != ""
  {
    var text := EncodeCookie(id, secret);
    BeforeFirst(id, secret, '.');
    assert text[|id|] == '.' && text[..|id|] == id && text[|id| + 1..] == secret;
  }

  /** The object a cookie belongs to. */
  function Find(s: Store, cookie: string): (ref: Option<nat>)
    requires Valid(s)
    ensures ref.Some? ==> Linked(s, ref.value)
  {
    match DecodeCookie(cookie)
    case None => None
    case Some((id, secret)) =>
      if id in s.table.vals && At(s, id).secretHash == Digest(secret) then Some(s.table.vals[id]) else None
  }

  // ----- the operations -----

  function LiveIds(cfg: Config, s: Store, at: int): set<string>
    requires Valid(s)
  {
    set id | id in s.table.vals && !Expired(cfg, At(s, id), at)
  }

  function Sweep(cfg: Config, s: Store, at: int): Store
    requires Valid(s)
  {
    s.(table := OM.Restrict(s.table, LiveIds(cfg, s, at)))
  }

  /** Ids that count against the admission limit of approval mode. */
  function Counted(s: Store): set<string>
    requires Valid(s)
  {
    set id | id in s.table.vals && At(s, id).status != Rejected
  }

  /** Among the first n keys other than `except`, the first with the least lastSeenAt. */
  function OldestExcept(s: Store, except: string, n: nat): (r: Option<string>)
    requires Valid(s) && n <= |s.table.keys|
    ensures r.Some? ==> r.value in s.table.vals && r.value != except
    ensures r.None? ==> forall i :: 0 <= i < n ==> s.table.keys[i] == except
    ensures r.Some? ==> forall i :: 0 <= i < n && s.table.keys[i] != except ==>
      (s.table.keys[i] in s.table.vals && At(s, r.value).lastSeenAt <= At(s, s.table.keys[i]).lastSeenAt)
  {
    if n == 0 then None
    else
      var best, key := OldestExcept(s, except, n - 1), s.table.keys[n - 1];
      assert key in s.table.keys;
      if key == except then best
      else if best.None? || At(s, key).lastSeenAt < At(s, best.value).lastSeenAt then Some(key)
      else best
  }

  /** Evict least recently seen devices, never `except`, until the cap holds or nothing is left to evict. */
  function Evict(cfg: Config, s: Store, except: string): Store
    requires Valid(s)
    decreases |s.table.keys|
  {
    if |s.table.keys| <= cfg.maxSessions then s
    else
      match OldestExcept(s, except, |s.table.keys|)
      case None => s
      case Some(id) =>
        DeleteShrinks(s.table, id);
        Evict(cfg, Drop(s, id), except)
  }

  lemma DeleteShrinks(t: Table, id: string)
    requires id in t.vals
    ensures |OM.Delete(t, id).keys| == |t.keys| - 1
  {
    OM.CountIsKeys(t);
    OM.CountIsKeys(OM.Delete(t, id));
    assert OM.Delete(t, id).vals.Keys == t.vals.Keys - {id};
    assert |t.vals.Keys - {id}| == |t.vals| - 1;
  }

  predicate AtCapacity(cfg: Config, s: Store, at: int)
    requires Valid(s)
  {
    cfg.approvalRequired && |Counted(Sweep(cfg, s, at))| >= cfg.maxSessions
  }

  function NewRecord(cfg: Config, at: int, id: string, secret: string, deviceLabel: string, ip: Option<string>): Rec {
    var status := if cfg.approvalRequired then Pending else Active;
    Rec(id, Digest(secret), deviceLabel, status, at, at, KnownIp(ip), KnownIp(ip))
  }

  function Insert(s: Store, r: Rec): Store {
    s.(objects := s.objects + [r], table := OM.Set(s.table, r.id, |s.objects|))
  }

  lemma InsertValid(s: Store, r: Rec)
    requires Valid(s)
    ensures Valid(Insert(s, r))
  {
  }

  /** Refused at capacity (the sweep has happened all the same), else one more record. */
  function AfterLogin(cfg: Config, s: Store, at: int, id: string, secret: string, deviceLabel: string,
                      ip: Option<string>): Store
    requires Valid(s)
  {
    var swept := Sweep(cfg, s, at);
    if AtCapacity(cfg, s, at) then swept
    else
      var added := Insert(swept, NewRecord(cfg, at, id, secret, deviceLabel, ip));
      InsertValid(swept, NewRecord(cfg, at, id, secret, deviceLabel, ip));
      var fitted := if cfg.approvalRequired then added else Evict(cfg, added, id);
      Notify(fitted)
  }

  predicate Reissuable(cfg: Config, s: Store, at: int, id: string)
    requires Valid(s)
  {
    id in s.table.vals && !Expired(cfg, At(s, id), at) && At(s, id).status != Rejected
  }

  function AfterReissue(cfg: Config, s: Store, at: int, id: string, secret: string, ip: Option<string>): Store
    requires Valid(s)
  {
    var swept := Sweep(cfg, s, at);
    if !Reissuable(cfg, s, at, id) then swept
    else
      var r := At(s, id);
      var seenIp := if KnownIp(ip).Some? then ip else r.lastSeenIp;
      Update(swept, s.table.vals[id], r.(secretHash := Digest(secret), lastSeenAt := at, lastSeenIp := seenIp))
  }

  /** The cookie authenticates at this moment. */
  predicate IsActive(cfg: Config, s: Store, cookie: string, at: int)
    requires Valid(s)
  {
    Find(s, cookie).Some? && s.objects[Find(s, cookie).value].status == Active
    && !Expired(cfg, s.objects[Find(s, cookie).value], at)
  }

  /** `at` is the clock read of the expiry test, `touchAt` the one that advances the idle state. */
  function AfterValidate(cfg: Config, s: Store, cookie: string, ip: Option<string>, at: int, touchAt: int): Store
    requires Valid(s)
  {
    match Find(s, cookie)
    case None => s
    case Some(ref) =>
      var r := s.objects[ref];
      if Expired(cfg, r, at) then Remove(s, r.id)
      else if r.status != Active then s
      else if KnownIp(ip).Some? && r.lastSeenIp != ip then
        Update(Update(s, ref, r.(lastSeenIp := ip)), ref, r.(lastSeenIp := ip, lastSeenAt := touchAt))
      else Update(s, ref, r.(lastSeenAt := touchAt))
  }

  /** A stream callback: the object and secret generation it was made for; no object when the
      credential was not active at the time. */
  datatype Tracker = Tracker(ref: Option<nat>, secretHash: Digest, lastNotifiedAt: Option<int>)

  function Track(cfg: Config, s: Store, cookie: string, at: int): Tracker
    requires Valid(s)
  {
    if IsActive(cfg, s, cookie, at) then Tracker(Find(s, cookie), s.objects[Find(s, cookie).value].secretHash, None)
    else Tracker(None, Digest(""), None)
  }

  /** Still the linked object, the same secret generation, and active. */
  predicate Bound(s: Store, t: Tracker) {
    t.ref.Some? && Linked(s, t.ref.value) && s.objects[t.ref.value].secretHash == t.secretHash
    && s.objects[t.ref.value].status == Active
  }

  predicate StreamAnswer(cfg: Config, s: Store, t: Tracker, at: int) {
    Bound(s, t) && !Expired(cfg, s.objects[t.ref.value], at)
  }

  predicate Notifies(t: Tracker, at: int) {
    t.lastNotifiedAt.None? || at - t.lastNotifiedAt.value >= 1000
  }

  function AfterStream(cfg: Config, s: Store, t: Tracker, at: int): Store {
    if !Bound(s, t) then s
    else
      var ref := t.ref.value;
      var r := s.objects[ref];
      if Expired(cfg, r, at) then Remove(s, r.id)
      else
        var touched := Write(s, ref, r.(lastSeenAt := at));
        if Notifies(t, at) then Notify(touched) else touched
  }

  /** The callback's own memory of its last notification. */
  function TrackerAfter(cfg: Config, s: Store, t: Tracker, at: int): Tracker {
    if StreamAnswer(cfg, s, t, at) && Notifies(t, at) then t.(lastNotifiedAt := Some(at)) else t
  }

  /** The wait page's lookup: any status, but an expired record is dropped. */
  function AfterLookup(cfg: Config, s: Store, cookie: string, id: string, at: int): Store
    requires Valid(s)
  {
    if DecodeCookie(cookie).None? || DecodeCookie(cookie).value.0 != id || Find(s, cookie).None? then s
    else if Expired(cfg, s.objects[Find(s, cookie).value], at) then Remove(s, id)
    else s
  }

  function AfterRevoke(s: Store, id: string, at: int): Store
    requires Valid(s)
  {
    if id !in s.table.vals then s
    else if At(s, id).status == Pending then
      Update(s, s.table.vals[id], At(s, id).(status := Rejected, lastSeenAt := at))
    else Remove(s, id)
  }

  function AfterApprove(s: Store, id: string, at: int): Store
    requires Valid(s)
  {
    if id !in s.table.vals || At(s, id).status != Pending then s
    else Update(s, s.table.vals[id], At(s, id).(status := Active, lastSeenAt := at))
  }

  function AfterRename(s: Store, id: string, deviceLabel: string): Store
    requires Valid(s)
  {
    var next := Trim(deviceLabel);
    if id !in s.table.vals || |next| == 0 || |next| > 64 || At(s, id).deviceLabel == next then s
    else Update(s, s.table.vals[id], At(s, id).(deviceLabel := next))
  }

  function AfterClear(s: Store): Store {
    if |s.table.keys| == 0 then s else Notify(s.(table := OM.Empty()))
  }

  /** One element of persisted data; a field is None when missing or of the wrong type. */
  datatype Raw = Raw(id: Option<string>, secretHash: Option<Digest>, deviceLabel: Option<string>,
                     status: Option<Status>, createdAt: Option<int>, lastSeenAt: Option<int>,
                     createdIp: Option<string>, lastSeenIp: Option<string>)

  predicate Acceptable(raw: Raw) {
    && raw.id.Some? && raw.secretHash.Some? && raw.deviceLabel.Some? && |raw.deviceLabel.value| <= 128
    && (raw.status == Some(Active) || raw.status == Some(Pending)) && raw.createdAt.Some? && raw.lastSeenAt.Some?
  }

  function ValidIp(ip: Option<string>): Option<string> {
    if ip.Some? && 0 < |ip.value| <= 64 then ip else None
  }

  function FromRaw(raw: Raw): Rec
    requires Acceptable(raw)
  {
    Rec(raw.id.value, raw.secretHash.value, raw.deviceLabel.value, raw.status.value,
        raw.createdAt.value, raw.lastSeenAt.value, ValidIp(raw.createdIp), ValidIp(raw.lastSeenIp))
  }

  function ToRaw(r: Rec): Raw {
    Raw(Some(r.id), Some(r.secretHash), Some(r.deviceLabel), Some(r.status),
        Some(r.createdAt), Some(r.lastSeenAt), r.createdIp, r.lastSeenIp)
  }

  /** Insert the acceptable ones among the first n. */
  function InsertAll(s: Store, data: seq<Raw>, n: nat): (r: Store)
    requires Valid(s) && n <= |data|
    ensures Valid(r) && |s.objects| <= |r.objects| && r.objects[..|s.objects|] == s.objects
    ensures r.changes == s.changes
  {
    if n == 0 then s
    else
      var init := InsertAll(s, data, n - 1);
      var raw := data[n - 1];
      if Acceptable(raw) then
        InsertValid(init, FromRaw(raw));
        Insert(init, FromRaw(raw))
      else init
  }

  function AfterHydrate(cfg: Config, s: Store, data: seq<Raw>): Store
    requires Valid(s)
  {
    InsertAll(s.(table := OM.Empty()), data, if |data| <= cfg.maxSessions then |data| else cfg.maxSessions)
  }

  /** The records in Map order. */
  function Records(s: Store): (r: seq<Rec>)
    requires Valid(s)
    ensures |r| == |s.table.keys|
  {
    assert forall i :: 0 <= i < |s.table.keys| ==> s.table.keys[i] in s.table.keys;
    seq(|s.table.keys|, i requires 0 <= i < |s.table.keys| => At(s, s.table.keys[i]))
  }

  /** Those among the first n that are not rejected. */
  function NotRejected(records: seq<Rec>, n: nat): (r: seq<Rec>)
    requires n <= |records|
    ensures forall x :: x in r ==> x.status != Rejected && x in records[..n]
  {
    if n == 0 then []
    else
      var init := NotRejected(records, n - 1);
      assert records[..n] == records[..n - 1] + [records[n - 1]];
      if records[n - 1].status == Rejected then init else init + [records[n - 1]]
  }

  /** The live records in Map order. */
  function LiveRecords(s: Store): seq<Rec>
    requires Valid(s)
  {
    NotRejected(Records(s), |s.table.keys|)
  }

  function ToRaws(records: seq<Rec>): (r: seq<Raw>)
    ensures |r| == |records| && forall i :: 0 <= i < |records| ==> r[i] == ToRaw(records[i])
  {
    seq(|records|, i requires 0 <= i < |records| => ToRaw(records[i]))
  }

  lemma SweepValid(cfg: Config, s: Store, at: int)
    requires Valid(s)
    ensures Valid(Sweep(cfg, s, at))
  {
  }

  /** What serialize() returns; the store itself is swept. */
  function Serialized(cfg: Config, s: Store, at: int): seq<Raw>
    requires Valid(s)
  {
    SweepValid(cfg, s, at);
    ToRaws(LiveRecords(Sweep(cfg, s, at)))
  }

  // ----- histories -----

  datatype Op =
    | Login(at: int, id: string, secret: string, deviceLabel: string, ip: Option<string>)
    | Reissue(at: int, id: string, secret: string, ip: Option<string>)
    | Validate(at: int, touchAt: int, cookie: string, ip: Option<string>)
    | Stream(at: int, tracker: Tracker)
    | Lookup(at: int, cookie: string, id: string)
    | List(at: int)
    | Serialize(at: int)
    | Revoke(at: int, id: string)
    | Approve(at: int, id: string)
    | Rename(id: string, deviceLabel: string)
    | Clear
    | Hydrate(data: seq<Raw>)

  function Step(cfg: Config, s: Store, op: Op): Store
    requires Valid(s)
  {
    match op
    case Login(at, id, secret, deviceLabel, ip) => AfterLogin(cfg, s, at, id, secret, deviceLabel, ip)
    case Reissue(at, id, secret, ip) => AfterReissue(cfg, s, at, id, secret, ip)
    case Validate(at, touchAt, cookie, ip) => AfterValidate(cfg, s, cookie, ip, at, touchAt)
    case Stream(at, tracker) => AfterStream(cfg, s, tracker, at)
    case Lookup(at, cookie, id) => AfterLookup(cfg, s, cookie, id, at)
    case List(at) => Sweep(cfg, s, at)
    case Serialize(at) => Sweep(cfg, s, at)
    case Revoke(at, id) => AfterRevoke(s, id, at)
    case Approve(at, id) => AfterApprove(s, id, at)
    case Rename(id, deviceLabel) => AfterRename(s, id, deviceLabel)
    case Clear => AfterClear(s)
    case Hydrate(data) => AfterHydrate(cfg, s, data)
  }
}
