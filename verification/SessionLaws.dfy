/** What the calls of the session store must do: which cookie each of them makes good and until when, what it leaves
    alone, and how long an admitted device stays admitted. Stated through the step, the table and IsActive. */
module SessionLaws {
  import opened Text
  import OM = OrderedMap
  import opened Sessions
  import opened SessionRuns

  /** Both windows are still open: since the device was made, and since it was last seen. */
  predicate InTime(cfg: Config, born: int, seen: int, at: int) {
    at - born <= cfg.maxAgeMs && at - seen <= if cfg.idleMs > 0 then cfg.idleMs else cfg.maxAgeMs
  }

  lemma InTimeIff(cfg: Config, r: Rec, at: int)
    requires cfg.idleMs >= 0
    ensures InTime(cfg, r.createdAt, r.lastSeenAt, at) <==> !Expired(cfg, r, at)
  {
  }

  /** The cookie names the device and bears its secret. */
  predicate Names(cookie: string, id: string, secret: Digest) {
    DecodeCookie(cookie).Some? && DecodeCookie(cookie).value.0 == id && Digest(DecodeCookie(cookie).value.1) == secret
  }

  /** The store has this record under its id. */
  predicate Has(s: Store, r: Rec)
    requires Valid(s)
  {
    r.id in s.table.vals && At(s, r.id) == r
  }

  /** Nothing but the entry of this id is different. */
  ghost predicate OnlyTouches(s: Store, t: Store, id: string)
    requires Valid(s) && Valid(t)
  {
    forall other :: other != id ==>
      (other in t.table.vals <==> other in s.table.vals)
      && (other in s.table.vals ==> t.table.vals[other] == s.table.vals[other] && At(t, other) == At(s, other))
  }

  /** Only what has run out may be gone besides. */
  ghost predicate OnlySweeps(cfg: Config, s: Store, t: Store, id: string, at: int)
    requires Valid(s) && Valid(t)
  {
    forall other :: other != id ==> SweptAt(cfg, s, t, other, at)
  }

  ghost predicate SweptAt(cfg: Config, s: Store, t: Store, id: string, at: int)
    requires Valid(s) && Valid(t)
  {
    && (id in t.table.vals <==> id in s.table.vals && InTime(cfg, At(s, id).createdAt, At(s, id).lastSeenAt, at))
    && (id in t.table.vals ==> t.table.vals[id] == s.table.vals[id] && At(t, id) == At(s, id))
  }

  /** When is a cookie of a known device good? When the device is active and in time. */
  lemma ActiveIff(cfg: Config, s: Store, r: Rec, cookie: string, at: int)
    requires Valid(s) && cfg.idleMs >= 0 && Has(s, r) && Names(cookie, r.id, r.secretHash)
    ensures IsActive(cfg, s, cookie, at) <==> r.status == Active && InTime(cfg, r.createdAt, r.lastSeenAt, at)
  {
  }

  // ----- what the owner does -----

  /** An approved device is let in, from the approval on for as long as both windows are open; nothing else
      changes. */
  lemma ApprovedIsLetIn(cfg: Config, s: Store, r: Rec, at: int, cookie: string, later: int)
    requires Valid(s) && cfg.idleMs >= 0 && Has(s, r) && r.status == Pending && Names(cookie, r.id, r.secretHash)
    ensures var t := Step(cfg, s, Approve(at, r.id));
      && Valid(t) && Has(t, r.(status := Active, lastSeenAt := at)) && OnlyTouches(s, t, r.id)
      && (IsActive(cfg, t, cookie, later) <==> InTime(cfg, r.createdAt, at, later))
  {
    StepValid(cfg, s, Approve(at, r.id));
    TableDistinct(s);
  }

  /** Two ids never share an object. */
  lemma TableDistinct(s: Store)
    requires Valid(s)
    ensures forall a, b :: a in s.table.vals && b in s.table.vals && a != b ==> s.table.vals[a] != s.table.vals[b]
  {
    forall a, b | a in s.table.vals && b in s.table.vals && a != b ensures s.table.vals[a] != s.table.vals[b] {
      assert At(s, a).id == a && At(s, b).id == b;
    }
  }

  /** Approving anything but a pending device does nothing. */
  lemma ApprovesPendingOnly(cfg: Config, s: Store, at: int, id: string)
    requires Valid(s) && (id !in s.table.vals || At(s, id).status != Pending)
    ensures Step(cfg, s, Approve(at, id)) == s
  {
  }

  /** A revoked device's cookies are good for nothing: a pending one stays as rejected, any other is gone. */
  lemma RevokedIsShutOut(cfg: Config, s: Store, r: Rec, at: int, cookie: string, later: int)
    requires Valid(s) && Has(s, r)
    requires DecodeCookie(cookie).Some? && DecodeCookie(cookie).value.0 == r.id
    ensures var t := Step(cfg, s, Revoke(at, r.id));
      && Valid(t) && !IsActive(cfg, t, cookie, later) && OnlyTouches(s, t, r.id)
      && (if r.status == Pending then Has(t, r.(status := Rejected, lastSeenAt := at)) else r.id !in t.table.vals)
  {
    StepValid(cfg, s, Revoke(at, r.id));
    TableDistinct(s);
  }

  /** Renaming changes the label of one device, and nothing at all when the new one is blank or too long. */
  lemma RenamedBearsLabel(cfg: Config, s: Store, r: Rec, deviceLabel: string)
    requires Valid(s) && Has(s, r)
    ensures var t := Step(cfg, s, Rename(r.id, deviceLabel));
      && Valid(t) && OnlyTouches(s, t, r.id)
      && Has(t, if 1 <= |Trim(deviceLabel)| <= 64 then r.(deviceLabel := Trim(deviceLabel)) else r)
  {
    StepValid(cfg, s, Rename(r.id, deviceLabel));
    TableDistinct(s);
    hide Trim;
  }

  /** After a clear no cookie is good. */
  lemma ClearedIsEmpty(cfg: Config, s: Store, cookie: string, later: int)
    requires Valid(s)
    ensures var t := Step(cfg, s, Clear); Valid(t) && t.table.vals == map[] && !IsActive(cfg, t, cookie, later)
  {
    StepValid(cfg, s, Clear);
  }

  // ----- what a device does -----

  /** The devices that take up room in approval mode: neither rejected nor out of time. */
  ghost function TakingRoom(cfg: Config, s: Store, at: int): set<string>
    requires Valid(s)
  {
    set id | id in s.table.vals && At(s, id).status != Rejected
             && InTime(cfg, At(s, id).createdAt, At(s, id).lastSeenAt, at)
  }

  ghost predicate HasRoom(cfg: Config, s: Store, at: int)
    requires Valid(s)
  {
    cfg.approvalRequired ==> |TakingRoom(cfg, s, at)| < cfg.maxSessions
  }

  lemma RoomIff(cfg: Config, s: Store, at: int)
    requires Valid(s) && cfg.idleMs >= 0
    ensures HasRoom(cfg, s, at) <==> !AtCapacity(cfg, s, at)
  {
    SweepValid(cfg, s, at);
    assert Counted(Sweep(cfg, s, at)) == TakingRoom(cfg, s, at);
  }

  /** The record a login makes. */
  function Admitted(cfg: Config, op: Op): Rec
    requires op.Login?
  {
    var known := if op.ip == Some("") then None else op.ip;
    Rec(op.id, Digest(op.secret), op.deviceLabel, if cfg.approvalRequired then Pending else Active, op.at, op.at,
        known, known)
  }

  lemma LoginMakesRecord(cfg: Config, s: Store, op: Op)
    requires Valid(s) && cfg.idleMs >= 0 && op.Login? && HasRoom(cfg, s, op.at)
    ensures Valid(Step(cfg, s, op)) && Has(Step(cfg, s, op), Admitted(cfg, op))
  {
    StepValid(cfg, s, op);
    RoomIff(cfg, s, op.at);
    SweepValid(cfg, s, op.at);
    var swept, r := Sweep(cfg, s, op.at), NewRecord(cfg, op.at, op.id, op.secret, op.deviceLabel, op.ip);
    InsertValid(swept, r);
    EvictKeeps(cfg, Insert(swept, r), op.id);
    hide AtCapacity, Evict, LiveIds;
  }

  /** A login with room makes its record; without approval the cookie handed out is good from then on for as long as
      both windows are open, in approval mode not yet. */
  lemma LoginLetsIn(cfg: Config, s: Store, op: Op, cookie: string, later: int)
    requires Valid(s) && cfg.idleMs >= 0 && op.Login? && HasRoom(cfg, s, op.at)
    requires Names(cookie, op.id, Digest(op.secret))
    ensures var t := Step(cfg, s, op);
      && Valid(t) && Has(t, Admitted(cfg, op))
      && (IsActive(cfg, t, cookie, later) <==> !cfg.approvalRequired && InTime(cfg, op.at, op.at, later))
  {
    hide Step, HasRoom, InTime;
    LoginMakesRecord(cfg, s, op);
    ActiveIff(cfg, Step(cfg, s, op), Admitted(cfg, op), cookie, later);
  }

  /** Without room it makes none; only what has run out is gone. */
  lemma LoginWithoutRoom(cfg: Config, s: Store, op: Op)
    requires Valid(s) && cfg.idleMs >= 0 && op.Login? && !HasRoom(cfg, s, op.at)
    ensures var t := Step(cfg, s, op);
      Valid(t) && t.objects == s.objects && forall id :: SweptAt(cfg, s, t, id, op.at)
  {
    StepValid(cfg, s, op);
    RoomIff(cfg, s, op.at);
    hide AtCapacity;
  }

  /** A reissue gives the device a new secret: its new cookie is good when the device is active, the old one no
      longer; nothing else of it changes but when and from where it was seen. */
  lemma ReissuedIsLetIn(cfg: Config, s: Store, r: Rec, op: Op, cookie: string, later: int)
    requires Valid(s) && cfg.idleMs >= 0 && op.Reissue? && Has(s, r) && r.id == op.id && r.status != Rejected
    requires InTime(cfg, r.createdAt, r.lastSeenAt, op.at) && Names(cookie, r.id, Digest(op.secret))
    ensures var t, ip := Step(cfg, s, op), if op.ip.Some? && op.ip != Some("") then op.ip else r.lastSeenIp;
      && Valid(t) && Has(t, r.(secretHash := Digest(op.secret), lastSeenAt := op.at, lastSeenIp := ip))
      && t.table.vals[r.id] == s.table.vals[r.id] && OnlySweeps(cfg, s, t, r.id, op.at)
      && (IsActive(cfg, t, cookie, later) <==> r.status == Active && InTime(cfg, r.createdAt, op.at, later))
      && (forall former :: Names(former, r.id, r.secretHash) && r.secretHash != Digest(op.secret) ==>
            !IsActive(cfg, t, former, later))
  {
    var t, ip := Step(cfg, s, op), if op.ip.Some? && op.ip != Some("") then op.ip else r.lastSeenIp;
    var renewed := r.(secretHash := Digest(op.secret), lastSeenAt := op.at, lastSeenIp := ip);
    ReissuedRecord(cfg, s, r, op);
    hide Step, IsActive, InTime;
    ActiveIff(cfg, t, renewed, cookie, later);
    forall former | Names(former, r.id, r.secretHash) && r.secretHash != Digest(op.secret)
      ensures !IsActive(cfg, t, former, later)
    {
      WrongSecret(cfg, t, renewed, former, later);
    }
  }

  lemma WrongSecret(cfg: Config, s: Store, r: Rec, cookie: string, at: int)
    requires Valid(s) && Has(s, r) && DecodeCookie(cookie).Some? && DecodeCookie(cookie).value.0 == r.id
    requires !Names(cookie, r.id, r.secretHash)
    ensures !IsActive(cfg, s, cookie, at)
  {
  }

  lemma ReissuedRecord(cfg: Config, s: Store, r: Rec, op: Op)
    requires Valid(s) && cfg.idleMs >= 0 && op.Reissue? && Has(s, r) && r.id == op.id && r.status != Rejected
    requires InTime(cfg, r.createdAt, r.lastSeenAt, op.at)
    ensures var t, ip := Step(cfg, s, op), if op.ip.Some? && op.ip != Some("") then op.ip else r.lastSeenIp;
      && Valid(t) && Has(t, r.(secretHash := Digest(op.secret), lastSeenAt := op.at, lastSeenIp := ip))
      && t.table.vals[r.id] == s.table.vals[r.id] && OnlySweeps(cfg, s, t, r.id, op.at)
  {
    StepValid(cfg, s, op);
    TableDistinct(s);
    assert !Expired(cfg, r, op.at);
    hide Expired, InTime, LiveIds;
    SweptAll(cfg, s, op.at);
  }

  lemma SweptAll(cfg: Config, s: Store, at: int)
    requires Valid(s) && cfg.idleMs >= 0
    ensures Valid(Sweep(cfg, s, at)) && forall id :: SweptAt(cfg, s, Sweep(cfg, s, at), id, at)
  {
    SweepValid(cfg, s, at);
  }

  /** Nothing to reissue: no record changes. */
  lemma ReissuesLiveOnly(cfg: Config, s: Store, op: Op)
    requires Valid(s) && cfg.idleMs >= 0 && op.Reissue?
    requires op.id in s.table.vals ==>
      var r := At(s, op.id); r.status == Rejected || !InTime(cfg, r.createdAt, r.lastSeenAt, op.at)
    ensures var t := Step(cfg, s, op); t.objects == s.objects && t.changes == s.changes
  {
  }

  /** A request with a good cookie renews the idle window, and records the address when it is known. */
  lemma RequestRenews(cfg: Config, s: Store, r: Rec, op: Op, later: int)
    requires Valid(s) && cfg.idleMs >= 0 && op.Validate? && Has(s, r) && Names(op.cookie, r.id, r.secretHash)
    requires r.status == Active && InTime(cfg, r.createdAt, r.lastSeenAt, op.at)
    ensures var t, ip := Step(cfg, s, op), if op.ip.Some? && op.ip != Some("") then op.ip else r.lastSeenIp;
      && Valid(t) && Has(t, r.(lastSeenAt := op.touchAt, lastSeenIp := ip)) && OnlyTouches(s, t, r.id)
      && t.table.vals[r.id] == s.table.vals[r.id]
      && (IsActive(cfg, t, op.cookie, later) <==> InTime(cfg, r.createdAt, op.touchAt, later))
  {
    StepValid(cfg, s, op);
    TableDistinct(s);
    assert !Expired(cfg, r, op.at) && Find(s, op.cookie) == Some(s.table.vals[r.id]);
    var ip := if op.ip.Some? && op.ip != Some("") then op.ip else r.lastSeenIp;
    hide DecodeCookie, Find, IsActive, Expired, InTime;
    ActiveIff(cfg, Step(cfg, s, op), r.(lastSeenAt := op.touchAt, lastSeenIp := ip), op.cookie, later);
  }

  /** Any other request changes nothing, but for an expired device, which goes. */
  lemma OtherRequests(cfg: Config, s: Store, op: Op)
    requires Valid(s) && cfg.idleMs >= 0 && op.Validate? && !IsActive(cfg, s, op.cookie, op.at)
    ensures var t := Step(cfg, s, op);
      && Valid(t) && t.objects == s.objects
      && forall id :: id in s.table.vals && id !in t.table.vals ==>
        var r := At(s, id);
        Names(op.cookie, id, r.secretHash) && !InTime(cfg, r.createdAt, r.lastSeenAt, op.at)
    ensures forall id :: id in s.table.vals && Names(op.cookie, id, At(s, id).secretHash)
                         && !InTime(cfg, At(s, id).createdAt, At(s, id).lastSeenAt, op.at)
                         ==> id !in Step(cfg, s, op).table.vals
  {
    StepValid(cfg, s, op);
    hide DecodeCookie;
  }

  /** A stream callback that answers true renews the idle window; it goes on to, while both windows are open. */
  lemma StreamRenews(cfg: Config, s: Store, op: Op, r: Rec, later: int)
    requires Valid(s) && cfg.idleMs >= 0 && op.Stream? && Bound(s, op.tracker) && s.objects[op.tracker.ref.value] == r
    requires InTime(cfg, r.createdAt, r.lastSeenAt, op.at)
    ensures var t := Step(cfg, s, op);
      && Valid(t) && Has(t, r.(lastSeenAt := op.at)) && OnlyTouches(s, t, r.id)
      && (StreamAnswer(cfg, t, op.tracker, later) <==> InTime(cfg, r.createdAt, op.at, later))
  {
    StepValid(cfg, s, op);
    TableDistinct(s);
  }

  /** A callback reports at most once a second: whenever it has not for that long, and then not again before. */
  lemma StreamReports(cfg: Config, s: Store, op: Op)
    requires Valid(s) && op.Stream? && StreamAnswer(cfg, s, op.tracker, op.at)
    ensures var last := op.tracker.lastNotifiedAt;
      var due := last.None? || op.at - last.value >= 1000;
      && Step(cfg, s, op).changes == s.changes + (if due then 1 else 0)
      && TrackerAfter(cfg, s, op.tracker, op.at) == op.tracker.(lastNotifiedAt := if due then Some(op.at) else last)
  {
  }

  /** One that answers false changes nothing, but for a device that has run out, which goes. */
  lemma StreamEnds(cfg: Config, s: Store, op: Op)
    requires Valid(s) && cfg.idleMs >= 0 && op.Stream? && !StreamAnswer(cfg, s, op.tracker, op.at)
    ensures var t := Step(cfg, s, op);
      && Valid(t) && t.objects == s.objects
      && (Bound(s, op.tracker) ==>
            var r := s.objects[op.tracker.ref.value];
            r.id !in t.table.vals && OnlyTouches(s, t, r.id) && !InTime(cfg, r.createdAt, r.lastSeenAt, op.at))
      && (!Bound(s, op.tracker) ==> t == s)
  {
    StepValid(cfg, s, op);
  }

  /** The wait page's look at a device takes it out when it has run out, and changes nothing else. */
  lemma LookupSweepsOne(cfg: Config, s: Store, r: Rec, op: Op)
    requires Valid(s) && cfg.idleMs >= 0 && op.Lookup? && Has(s, r) && Names(op.cookie, r.id, r.secretHash)
    ensures var t := Step(cfg, s, op);
      && Valid(t) && t.objects == s.objects && OnlyTouches(s, t, r.id)
      && (r.id in t.table.vals <==> op.id != r.id || InTime(cfg, r.createdAt, r.lastSeenAt, op.at))
  {
    StepValid(cfg, s, op);
    hide DecodeCookie;
  }

  // ----- what is reloaded -----

  /** A stored entry that can be taken up: the fields there and of their types, a label of at most 128 characters, and
      waiting or active. */
  predicate Sound(raw: Raw) {
    && raw.id.Some? && raw.secretHash.Some? && raw.deviceLabel.Some? && raw.createdAt.Some? && raw.lastSeenAt.Some?
    && |raw.deviceLabel.value| <= 128 && raw.status in {Some(Pending), Some(Active)}
  }

  /** What becomes of it: an address that is empty or longer than 64 characters is left out, the rest is as stored. */
  function Taken(raw: Raw): Rec
    requires Sound(raw)
  {
    var createdIp := if raw.createdIp.Some? && 1 <= |raw.createdIp.value| <= 64 then raw.createdIp else None;
    var lastSeenIp := if raw.lastSeenIp.Some? && 1 <= |raw.lastSeenIp.value| <= 64 then raw.lastSeenIp else None;
    Rec(raw.id.value, raw.secretHash.value, raw.deviceLabel.value, raw.status.value, raw.createdAt.value,
        raw.lastSeenAt.value, createdIp, lastSeenIp)
  }

  /** The last sound one of an id among the first n entries. */
  function LastOf(data: seq<Raw>, n: nat, id: string): Option<Rec>
    requires n <= |data|
  {
    if n == 0 then None
    else if Sound(data[n - 1]) && data[n - 1].id == Some(id) then Some(Taken(data[n - 1]))
    else LastOf(data, n - 1, id)
  }

  /** The store holds what the first n entries say, and nothing else. */
  ghost predicate HoldsFirst(t: Store, data: seq<Raw>, n: nat)
    requires Valid(t) && n <= |data|
  {
    forall id :: (if id in t.table.vals then Some(At(t, id)) else None) == LastOf(data, n, id)
  }

  lemma {:induction false} InsertedAll(s: Store, data: seq<Raw>, n: nat)
    requires Valid(s) && s.table.vals == map[] && n <= |data|
    ensures HoldsFirst(InsertAll(s, data, n), data, n)
  {
    hide Sound, Taken, Acceptable, FromRaw, Insert;
    if n > 0 {
      InsertedAll(s, data, n - 1);
      SoundIsAcceptable(data[n - 1]);
      OneMore(InsertAll(s, data, n - 1), data, n);
    }
  }

  lemma SoundIsAcceptable(raw: Raw)
    ensures Sound(raw) <==> Acceptable(raw)
    ensures Sound(raw) ==> Taken(raw) == FromRaw(raw) && raw.id == Some(Taken(raw).id)
  {
  }

  lemma OneMore(t: Store, data: seq<Raw>, n: nat)
    requires Valid(t) && 0 < n <= |data| && HoldsFirst(t, data, n - 1)
    requires Sound(data[n - 1]) ==> data[n - 1].id == Some(Taken(data[n - 1]).id)
    ensures !Sound(data[n - 1]) ==> HoldsFirst(t, data, n)
    ensures Sound(data[n - 1]) ==>
      Valid(Insert(t, Taken(data[n - 1]))) && HoldsFirst(Insert(t, Taken(data[n - 1])), data, n)
  {
    hide Sound, Taken, Insert;
    if Sound(data[n - 1]) {
      InsertedIs(t, Taken(data[n - 1]));
    }
  }

  lemma InsertedIs(s: Store, r: Rec)
    requires Valid(s)
    ensures var t := Insert(s, r);
      && Valid(t) && Has(t, r) && t.table.vals.Keys == s.table.vals.Keys + {r.id}
      && forall id :: id in s.table.vals && id != r.id ==> At(t, id) == At(s, id)
  {
    InsertValid(s, r);
  }

  /** A reload forgets what was there, and takes up the sound ones among the first maxSessions entries, and no others;
      the last of an id counts. */
  lemma ReloadTakes(cfg: Config, s: Store, data: seq<Raw>)
    requires Valid(s)
    ensures var t, n := Step(cfg, s, Hydrate(data)), if |data| <= cfg.maxSessions then |data| else cfg.maxSessions;
      Valid(t) && HoldsFirst(t, data, n)
  {
    hide HoldsFirst, InsertAll;
    InsertedAll(s.(table := OM.Empty()), data, if |data| <= cfg.maxSessions then |data| else cfg.maxSessions);
  }

  /** Between the two stores a change has been reported, or no record is different and none is gone before its time. */
  ghost predicate Reported(cfg: Config, s: Store, t: Store, at: Option<int>)
    requires Valid(s)
  {
    t.changes > s.changes
    || (t.objects == s.objects && forall id :: id in s.table.vals && id !in t.table.vals ==>
          at.Some? && Expired(cfg, At(s, id), at.value))
  }

  lemma LoginReports(cfg: Config, s: Store, op: Op)
    requires Valid(s) && op.Login?
    ensures Reported(cfg, s, Step(cfg, s, op), Some(op.at))
  {
    LoginTable(cfg, s, op);
    var swept, r := Sweep(cfg, s, op.at), NewRecord(cfg, op.at, op.id, op.secret, op.deviceLabel, op.ip);
    EvictKeeps(cfg, Insert(swept, r), op.id);
    hide Expired, Evict, AtCapacity;
  }

  lemma CredentialOpsReport(cfg: Config, s: Store, op: Op)
    requires Valid(s) && (op.Reissue? || op.Validate? || op.Lookup?)
    ensures Reported(cfg, s, Step(cfg, s, op), Some(op.at))
  {
    hide Expired, DecodeCookie;
  }

  lemma OwnerOpsReport(cfg: Config, s: Store, op: Op)
    requires Valid(s)
    requires op.List? || op.Serialize? || op.Revoke? || op.Approve? || op.Rename? || op.Clear?
    ensures Reported(cfg, s, Step(cfg, s, op), TimeOf(op))
  {
    hide Expired, Trim;
  }

  /** Whatever changes a record, or takes out one that has not run out, reports a change, so that it gets saved; the
      stream callbacks, which report once a second, and the reload of saved data apart. */
  lemma ChangesAreReported(cfg: Config, s: Store, op: Op)
    requires Valid(s) && !op.Stream? && !op.Hydrate?
    ensures Reported(cfg, s, Step(cfg, s, op), TimeOf(op))
  {
    hide Step, Reported;
    if op.Login? {
      LoginReports(cfg, s, op);
    } else if op.Reissue? || op.Validate? || op.Lookup? {
      CredentialOpsReport(cfg, s, op);
    } else {
      OwnerOpsReport(cfg, s, op);
    }
  }

  // ----- how long a device stays admitted -----

  /** The object is the active device of that birth and secret, last seen no earlier than `seen`. */
  predicate Upheld(s: Store, ref: nat, r: Rec, seen: int) {
    && Linked(s, ref) && s.objects[ref].status == Active && s.objects[ref].id == r.id
    && s.objects[ref].secretHash == r.secretHash && s.objects[ref].createdAt == r.createdAt
    && s.objects[ref].lastSeenAt >= seen
  }

  /** A login puts no device out that others were seen before, nor any while there is room. */
  predicate SparedByLogin(cfg: Config, s: Store, op: Op, id: string)
    requires Valid(s) && op.Login? && id in s.table.vals
  {
    op.id != id
    && (cfg.approvalRequired || |s.table.keys| < cfg.maxSessions
        || exists other :: other in s.table.vals && other != op.id
                           && InTime(cfg, At(s, other).createdAt, At(s, other).lastSeenAt, op.at)
                           && At(s, other).lastSeenAt < At(s, id).lastSeenAt)
  }

  /** The call is none of those that end this device: revoke, reissue, clear, hydrate, or an eviction; and every clock
      it reads lies between. */
  predicate Spares(cfg: Config, s: Store, op: Op, id: string, seen: int, limit: int)
    requires Valid(s) && id in s.table.vals
  {
    && !op.Clear? && !op.Hydrate? && !((op.Revoke? || op.Reissue?) && op.id == id)
    && (op.Login? ==> SparedByLogin(cfg, s, op, id))
    && (op.Rename? || (seen <= op.at <= limit && (op.Validate? ==> seen <= op.touchAt)))
  }

  lemma EvictSpares(cfg: Config, s: Store, except: string, id: string, other: string)
    requires Valid(s) && |s.table.keys| <= cfg.maxSessions + 1 && id in s.table.vals && other in s.table.vals
    requires other != except && other != id && At(s, other).lastSeenAt < At(s, id).lastSeenAt
    ensures var t := Evict(cfg, s, except); Valid(t) && id in t.table.vals
  {
    EvictKeeps(cfg, s, except);
    if |s.table.keys| > cfg.maxSessions {
      assert other in s.table.keys;
      var victim := OldestExcept(s, except, |s.table.keys|);
      var i :| 0 <= i < |s.table.keys| && s.table.keys[i] == other;
      assert victim.Some? && victim.value != id;
      DeleteShrinks(s.table, victim.value);
    }
  }

  lemma InsertionSpares(cfg: Config, s: Store, r: Rec, id: string)
    requires Valid(s) && id in s.table.vals && id != r.id && |s.table.keys| <= cfg.maxSessions
    requires |s.table.keys| < cfg.maxSessions
      || exists other :: other in s.table.vals && other != r.id && At(s, other).lastSeenAt < At(s, id).lastSeenAt
    ensures Valid(Insert(s, r)) && id in Evict(cfg, Insert(s, r), r.id).table.vals
  {
    InsertCounts(s, r);
    InsertedStay(s, r, id);
    if |s.table.keys| == cfg.maxSessions {
      var other :| other in s.table.vals && other != r.id && At(s, other).lastSeenAt < At(s, id).lastSeenAt;
      InsertedStay(s, r, other);
      EvictSpares(cfg, Insert(s, r), r.id, id, other);
    }
  }

  /** The Map after a login. */
  lemma LoginTable(cfg: Config, s: Store, op: Op)
    requires Valid(s) && op.Login?
    ensures var swept := Sweep(cfg, s, op.at);
      var r := NewRecord(cfg, op.at, op.id, op.secret, op.deviceLabel, op.ip);
      && Valid(swept) && Valid(Insert(swept, r))
      && Step(cfg, s, op).table ==
        if AtCapacity(cfg, s, op.at) then swept.table
        else if cfg.approvalRequired then Insert(swept, r).table
        else Evict(cfg, Insert(swept, r), op.id).table
  {
    SweepValid(cfg, s, op.at);
    InsertValid(Sweep(cfg, s, op.at), NewRecord(cfg, op.at, op.id, op.secret, op.deviceLabel, op.ip));
    hide Sweep, Insert, NewRecord, Evict;
  }

  lemma LoginSpares(cfg: Config, s: Store, op: Op, id: string)
    requires Valid(s) && cfg.idleMs >= 0 && WithinCapacity(cfg, s) && op.Login? && id in s.table.vals
    requires InTime(cfg, At(s, id).createdAt, At(s, id).lastSeenAt, op.at) && SparedByLogin(cfg, s, op, id)
    ensures var t := Step(cfg, s, op); Valid(t) && id in t.table.vals && t.table.vals[id] == s.table.vals[id]
  {
    var swept, r := Sweep(cfg, s, op.at), NewRecord(cfg, op.at, op.id, op.secret, op.deviceLabel, op.ip);
    assert r.id == op.id;
    hide Step, Sweep, Insert, NewRecord, Evict, InTime, WithinCapacity;
    LoginValid(cfg, s, op);
    LoginTable(cfg, s, op);
    SweptStays(cfg, s, op.at, id);
    SweepCounts(cfg, s, op.at);
    LoginKeeps(cfg, s, op, s.table.vals[id]);
    InsertedStay(swept, r, id);
    if AtCapacity(cfg, s, op.at) {
      assert cfg.approvalRequired;
    } else if !cfg.approvalRequired {
      if |s.table.keys| >= cfg.maxSessions {
        var other :| other in s.table.vals && other != op.id
                     && InTime(cfg, At(s, other).createdAt, At(s, other).lastSeenAt, op.at)
                     && At(s, other).lastSeenAt < At(s, id).lastSeenAt;
        TwoFit(cfg, s, id, other);
        SweptStays(cfg, s, op.at, other);
      }
      InsertionSpares(cfg, swept, r, id);
    }
  }

  /** Two devices within the cap: then the cap is the configured one. */
  lemma TwoFit(cfg: Config, s: Store, a: string, b: string)
    requires Valid(s) && WithinCapacity(cfg, s) && !cfg.approvalRequired
    requires a in s.table.vals && b in s.table.vals && a != b
    ensures |s.table.keys| <= cfg.maxSessions
  {
    OM.CountIsKeys(s.table);
    SmallerSet({a, b}, s.table.vals.Keys);
  }

  lemma SweptStays(cfg: Config, s: Store, at: int, id: string)
    requires Valid(s) && cfg.idleMs >= 0 && id in s.table.vals
    requires InTime(cfg, At(s, id).createdAt, At(s, id).lastSeenAt, at)
    ensures var t := Sweep(cfg, s, at);
      Valid(t) && id in t.table.vals && t.table.vals[id] == s.table.vals[id] && At(t, id) == At(s, id)
  {
    SweepValid(cfg, s, at);
  }

  lemma InsertedStay(s: Store, r: Rec, id: string)
    requires Valid(s) && id in s.table.vals && id != r.id
    ensures Valid(Insert(s, r)) && id in Insert(s, r).table.vals && At(Insert(s, r), id) == At(s, id)
    ensures Insert(s, r).table.vals[id] == s.table.vals[id]
  {
    InsertValid(s, r);
  }

  lemma StepUpholds(cfg: Config, s: Store, op: Op, ref: nat, r: Rec, seen: int, limit: int)
    requires Valid(s) && cfg.idleMs >= 0 && WithinCapacity(cfg, s) && Upheld(s, ref, r, seen)
    requires InTime(cfg, r.createdAt, seen, limit) && Spares(cfg, s, op, r.id, seen, limit)
    ensures Upheld(Step(cfg, s, op), ref, r, seen)
  {
    hide Step, WithinCapacity;
    if op.Login? {
      LoginSpares(cfg, s, op, r.id);
      LoginValid(cfg, s, op);
      assert Step(cfg, s, op).objects[ref] == s.objects[ref];
    } else if op.Reissue? || op.Validate? || op.Stream? || op.Lookup? {
      CredentialOpsUphold(cfg, s, op, ref, r, seen, limit);
    } else {
      OwnerOpsUphold(cfg, s, op, ref, r, seen, limit);
    }
  }

  /** What a call made with a credential may do to a record: take it out only once it has run out, date it by its own
      clock, and give it another secret only by a reissue. */
  ghost predicate Treated(cfg: Config, s: Store, op: Op, ref: nat)
    requires Valid(s) && Linked(s, ref) && (op.Reissue? || op.Validate? || op.Stream? || op.Lookup?)
  {
    var t, id := Step(cfg, s, op), s.objects[ref].id;
    && ref < |t.objects| && t.objects[ref].id == id && t.objects[ref].status == s.objects[ref].status
    && (id in t.table.vals ==> t.table.vals[id] == ref)
    && (!Expired(cfg, s.objects[ref], op.at) ==> id in t.table.vals)
    && (t.objects[ref].lastSeenAt == s.objects[ref].lastSeenAt || t.objects[ref].lastSeenAt == op.at
        || (op.Validate? && t.objects[ref].lastSeenAt == op.touchAt))
    && (t.objects[ref].secretHash != s.objects[ref].secretHash ==>
          op.Reissue? && op.id == id && Digest(op.secret) == t.objects[ref].secretHash && Reissuable(cfg, s, op.at, id))
  }

  lemma ReissueTreats(cfg: Config, s: Store, op: Op, ref: nat)
    requires Valid(s) && Linked(s, ref) && op.Reissue?
    ensures Treated(cfg, s, op, ref)
  {
    hide Expired;
  }

  lemma RequestTreats(cfg: Config, s: Store, op: Op, ref: nat)
    requires Valid(s) && Linked(s, ref) && op.Validate?
    ensures Treated(cfg, s, op, ref)
  {
    hide Expired, DecodeCookie, Find;
  }

  lemma StreamTreats(cfg: Config, s: Store, op: Op, ref: nat)
    requires Valid(s) && Linked(s, ref) && (op.Stream? || op.Lookup?)
    ensures Treated(cfg, s, op, ref)
  {
    hide Expired, DecodeCookie;
  }

  lemma CredentialOpsTreat(cfg: Config, s: Store, op: Op, ref: nat)
    requires Valid(s) && Linked(s, ref) && (op.Reissue? || op.Validate? || op.Stream? || op.Lookup?)
    ensures Treated(cfg, s, op, ref)
  {
    hide Treated;
    if op.Reissue? {
      ReissueTreats(cfg, s, op, ref);
    } else if op.Validate? {
      RequestTreats(cfg, s, op, ref);
    } else {
      StreamTreats(cfg, s, op, ref);
    }
  }

  lemma CredentialOpsUphold(cfg: Config, s: Store, op: Op, ref: nat, r: Rec, seen: int, limit: int)
    requires Valid(s) && cfg.idleMs >= 0 && Upheld(s, ref, r, seen) && InTime(cfg, r.createdAt, seen, limit)
    requires (op.Reissue? || op.Validate? || op.Stream? || op.Lookup?) && Spares(cfg, s, op, r.id, seen, limit)
    ensures Upheld(Step(cfg, s, op), ref, r, seen)
  {
    hide Step;
    assert !Expired(cfg, s.objects[ref], op.at);
    CredentialOpsTreat(cfg, s, op, ref);
    StepEvolves(cfg, s, op, ref);
  }

  lemma OwnerOpsUphold(cfg: Config, s: Store, op: Op, ref: nat, r: Rec, seen: int, limit: int)
    requires Valid(s) && cfg.idleMs >= 0 && Upheld(s, ref, r, seen) && InTime(cfg, r.createdAt, seen, limit)
    requires op.List? || op.Serialize? || op.Revoke? || op.Approve? || op.Rename? || op.Clear?
    requires Spares(cfg, s, op, r.id, seen, limit)
    ensures Upheld(Step(cfg, s, op), ref, r, seen)
  {
    assert op.Rename? || !Expired(cfg, s.objects[ref], op.at);
    hide Expired, Trim, InTime;
  }

  /** A device admitted once stays admitted, with its cookies and the callbacks made for it, as long as no call ends
      it and the clocks keep within both windows. */
  lemma {:induction false} StaysAdmitted(cfg: Config, states: seq<Store>, ops: seq<Op>, i: nat, j: nat, ref: nat,
                                         r: Rec, seen: int, limit: int)
    requires Trace(cfg, states, ops) && i <= j <= |ops| && cfg.idleMs >= 0 && WithinCapacity(cfg, states[0])
    requires Upheld(states[i], ref, r, seen) && InTime(cfg, r.createdAt, seen, limit)
    requires forall k :: i <= k < j ==>
      r.id in states[k].table.vals ==> Spares(cfg, states[k], ops[k], r.id, seen, limit)
    ensures Upheld(states[j], ref, r, seen)
    decreases j
  {
    hide Step, Spares, WithinCapacity;
    if i < j {
      StaysAdmitted(cfg, states, ops, i, j - 1, ref, r, seen, limit);
      TraceStep(cfg, states, ops, j - 1);
      CapacityAlwaysHolds(cfg, states, ops, j - 1);
      StepUpholds(cfg, states[j - 1], ops[j - 1], ref, r, seen, limit);
    }
  }

  lemma UpheldIsActive(cfg: Config, s: Store, ref: nat, r: Rec, seen: int, cookie: string, t: Tracker, at: int)
    requires Valid(s) && cfg.idleMs >= 0 && Upheld(s, ref, r, seen) && InTime(cfg, r.createdAt, seen, at)
    requires Names(cookie, r.id, r.secretHash)
    ensures IsActive(cfg, s, cookie, at)
    ensures t.ref == Some(ref) && t.secretHash == r.secretHash ==> StreamAnswer(cfg, s, t, at)
  {
  }

  /** From an approval on, the device's cookie and callbacks are good at every moment up to the end of its windows,
      until one of the calls that end it. */
  lemma ApprovedStaysIn(cfg: Config, states: seq<Store>, ops: seq<Op>, i: nat, j: nat, r: Rec, cookie: string,
                        t: Tracker, limit: int, at: int)
    requires Trace(cfg, states, ops) && i < j <= |ops| && cfg.idleMs >= 0 && WithinCapacity(cfg, states[0])
    requires Has(states[i], r) && r.status == Pending && ops[i].Approve? && ops[i].id == r.id
    requires Names(cookie, r.id, r.secretHash) && InTime(cfg, r.createdAt, ops[i].at, limit) && at <= limit
    requires forall k :: i < k < j ==>
      r.id in states[k].table.vals ==> Spares(cfg, states[k], ops[k], r.id, ops[i].at, limit)
    ensures IsActive(cfg, states[j], cookie, at)
    ensures t.ref == Some(states[i].table.vals[r.id]) && t.secretHash == r.secretHash ==>
      StreamAnswer(cfg, states[j], t, at)
  {
    hide Step, Spares, WithinCapacity, IsActive, StreamAnswer;
    TraceStep(cfg, states, ops, i);
    var ref := states[i].table.vals[r.id];
    ApprovalUpholds(cfg, states[i], r, ops[i].at);
    StaysAdmitted(cfg, states, ops, i + 1, j, ref, r, ops[i].at, limit);
    UpheldIsActive(cfg, states[j], ref, r, ops[i].at, cookie, t, at);
  }

  lemma ApprovalUpholds(cfg: Config, s: Store, r: Rec, at: int)
    requires Valid(s) && Has(s, r) && r.status == Pending
    ensures Upheld(Step(cfg, s, Approve(at, r.id)), s.table.vals[r.id], r, at)
  {
  }

  /** Without approval the same holds from the login on. */
  lemma LoggedInStaysIn(cfg: Config, states: seq<Store>, ops: seq<Op>, i: nat, j: nat, cookie: string, limit: int,
                        at: int)
    requires Trace(cfg, states, ops) && i < j <= |ops| && cfg.idleMs >= 0 && WithinCapacity(cfg, states[0])
    requires !cfg.approvalRequired && ops[i].Login? && Names(cookie, ops[i].id, Digest(ops[i].secret))
    requires InTime(cfg, ops[i].at, ops[i].at, limit) && at <= limit
    requires forall k :: i < k < j ==>
      ops[i].id in states[k].table.vals ==> Spares(cfg, states[k], ops[k], ops[i].id, ops[i].at, limit)
    ensures IsActive(cfg, states[j], cookie, at)
  {
    hide Step, Spares, WithinCapacity, IsActive, StreamAnswer;
    TraceStep(cfg, states, ops, i);
    var r := Admitted(cfg, ops[i]);
    LoginLetsIn(cfg, states[i], ops[i], cookie, at);
    var ref := states[i + 1].table.vals[r.id];
    StaysAdmitted(cfg, states, ops, i + 1, j, ref, r, ops[i].at, limit);
    UpheldIsActive(cfg, states[j], ref, r, ops[i].at, cookie, Tracker(None, r.secretHash, None), at);
  }

  /** When does one call cut a callback off? Exactly when it is one of those listed. */
  lemma CutOffIff(cfg: Config, s: Store, op: Op, t: Tracker)
    requires Valid(s) && Bound(s, t) && (op.Login? ==> op.id != s.objects[t.ref.value].id)
    ensures !Bound(Step(cfg, s, op), t) <==> CutsOff(cfg, s, op, t)
  {
    hide Step;
    var ref := t.ref.value;
    StepValid(cfg, s, op);
    if CutsOff(cfg, s, op, t) {
      CutOffUnbinds(cfg, s, op, t);
    } else if op.Login? {
      LoginKeeps(cfg, s, op, ref);
    } else if op.Reissue? || op.Validate? || op.Stream? || op.Lookup? {
      CredentialOpsTreat(cfg, s, op, ref);
    } else {
      OwnerOpsKeep(cfg, s, op, ref);
    }
  }

  lemma LoginKeeps(cfg: Config, s: Store, op: Op, ref: nat)
    requires Valid(s) && Linked(s, ref) && op.Login? && op.id != s.objects[ref].id
    ensures var t, id := Step(cfg, s, op), s.objects[ref].id;
      ref < |t.objects| && t.objects[ref] == s.objects[ref] && (id in t.table.vals ==> t.table.vals[id] == ref)
  {
    LoginValid(cfg, s, op);
    assert Step(cfg, s, op).objects[ref] == s.objects[ref];
    var swept, r := Sweep(cfg, s, op.at), NewRecord(cfg, op.at, op.id, op.secret, op.deviceLabel, op.ip);
    SweepValid(cfg, s, op.at);
    InsertValid(swept, r);
    EvictKeeps(cfg, Insert(swept, r), op.id);
    hide AtCapacity, Evict, LiveIds;
  }

  lemma OwnerOpsKeep(cfg: Config, s: Store, op: Op, ref: nat)
    requires Valid(s) && Linked(s, ref) && s.objects[ref].status == Active
    requires op.List? || op.Serialize? || op.Revoke? || op.Approve? || op.Rename? || op.Clear?
    ensures var t, id := Step(cfg, s, op), s.objects[ref].id;
      && ref < |t.objects| && t.objects[ref].id == id && t.objects[ref].status == Active
      && t.objects[ref].secretHash == s.objects[ref].secretHash && (id in t.table.vals ==> t.table.vals[id] == ref)
  {
    hide Expired, Trim;
  }
}
