/** The device session store on the heap: a Map of mutable record objects, updated in place, and
    stream callbacks that hold on to one object and one secret generation. Every method refines
    the step of the same name in Sessions, whose runs SessionRuns reasons about. */
module SessionStore {
  import opened Text
  import OM = OrderedMap
  import S = Sessions
  import R = SessionRuns

  class SessionRecord {
    /** Position among all records ever made; stands for the object's identity. */
    ghost const ref: nat
    const id: string
    var secretHash: S.Digest
    var deviceLabel: string
    var status: S.Status
    const createdAt: int
    var lastSeenAt: int
    const createdIp: Option<string>
    var lastSeenIp: Option<string>

    constructor (ghost ref: nat, r: S.Rec)
      ensures this.ref == ref && Value() == r
    {
      this.ref := ref;
      id, secretHash, deviceLabel, status := r.id, r.secretHash, r.deviceLabel, r.status;
      createdAt, lastSeenAt, createdIp, lastSeenIp := r.createdAt, r.lastSeenAt, r.createdIp, r.lastSeenIp;
    }

    function Value(): S.Rec
      reads this
    {
      S.Rec(id, secretHash, deviceLabel, status, createdAt, lastSeenAt, createdIp, lastSeenIp)
    }
  }

  class SessionStore {
    const cfg: S.Config
    var sessions: OM.OrderedMap<string, SessionRecord>
    var changes: nat
    /** Every record object ever made, and the store's state in the model's terms. */
    ghost var objects: seq<SessionRecord>
    ghost var model: S.Store

    ghost predicate Valid()
      reads this, objects
    {
      S.Valid(model) && model.changes == changes && HeapAgrees() && MapAgrees()
    }

    ghost predicate HeapAgrees()
      reads this, objects
    {
      && |model.objects| == |objects|
      && forall i :: 0 <= i < |objects| ==> objects[i].ref == i && objects[i].Value() == model.objects[i]
    }

    ghost predicate MapAgrees()
      reads this
    {
      && sessions.keys == model.table.keys && sessions.vals.Keys == model.table.vals.Keys
      && forall id :: id in sessions.vals ==> Owns(sessions.vals[id]) && sessions.vals[id].ref == model.table.vals[id]
    }

    /** The record is one of this store's objects, in the Map or not. */
    ghost predicate Owns(session: SessionRecord)
      reads this
    {
      session.ref < |objects| && objects[session.ref] == session
    }

    lemma KeysAgree()
      requires Valid()
      ensures sessions.keys == model.table.keys && sessions.vals.Keys == model.table.vals.Keys
    {
    }

    /** What the Map says about an id, in the model's terms. */
    lemma Lookup(id: string)
      requires Valid() && id in sessions.vals
      ensures id in model.table.vals && model.table.vals[id] == sessions.vals[id].ref
      ensures Owns(sessions.vals[id]) && sessions.vals[id].id == id
      ensures sessions.vals[id].ref < |model.objects|
      ensures S.At(model, id) == sessions.vals[id].Value() == model.objects[sessions.vals[id].ref]
    {
    }

    constructor (cfg: S.Config)
      ensures Valid() && this.cfg == cfg && model == S.Store([], OM.Empty(), 0) && objects == []
    {
      this.cfg := cfg;
      sessions := OM.Empty();
      changes := 0;
      objects := [];
      model := S.Store([], OM.Empty(), 0);
    }

    method Expired(session: SessionRecord, at: int) returns (r: bool)
      ensures r == S.Expired(cfg, session.Value(), at)
    {
      if at - session.createdAt > cfg.maxAgeMs {
        return true;
      }
      if cfg.idleMs > 0 && at - session.lastSeenAt > cfg.idleMs {
        return true;
      }
      return cfg.idleMs == 0 && at - session.lastSeenAt > cfg.maxAgeMs;
    }

    method Delete(id: string)
      requires Valid()
      modifies this`sessions, this`model
      ensures Valid() && model == S.Drop(old(model), id)
    {
      sessions := OM.Delete(sessions, id);
      model := S.Drop(model, id);
    }

    method Changed()
      requires Valid()
      modifies this`changes, this`model
      ensures Valid() && model == S.Notify(old(model))
    {
      changes := changes + 1;
      model := S.Notify(model);
    }

    method SetLastSeen(session: SessionRecord, at: int)
      requires Valid() && Owns(session)
      modifies session`lastSeenAt, this`model
      ensures Valid() && session.ref < |old(model).objects|
      ensures session.Value() == old(session.Value()).(lastSeenAt := at)
      ensures model == S.Write(old(model), session.ref, session.Value())
    {
      session.lastSeenAt := at;
      model := S.Write(model, session.ref, session.Value());
    }

    method SetLastIp(session: SessionRecord, ip: Option<string>)
      requires Valid() && Owns(session)
      modifies session`lastSeenIp, this`model
      ensures Valid() && session.ref < |old(model).objects|
      ensures session.Value() == old(session.Value()).(lastSeenIp := ip)
      ensures model == S.Write(old(model), session.ref, session.Value())
    {
      session.lastSeenIp := ip;
      model := S.Write(model, session.ref, session.Value());
    }

    method SetSecret(session: SessionRecord, secretHash: S.Digest)
      requires Valid() && Owns(session)
      modifies session`secretHash, this`model
      ensures Valid() && session.ref < |old(model).objects|
      ensures session.Value() == old(session.Value()).(secretHash := secretHash)
      ensures model == S.Write(old(model), session.ref, session.Value())
    {
      session.secretHash := secretHash;
      model := S.Write(model, session.ref, session.Value());
    }

    method SetStatus(session: SessionRecord, status: S.Status)
      requires Valid() && Owns(session)
      modifies session`status, this`model
      ensures Valid() && session.ref < |old(model).objects|
      ensures session.Value() == old(session.Value()).(status := status)
      ensures model == S.Write(old(model), session.ref, session.Value())
    {
      session.status := status;
      model := S.Write(model, session.ref, session.Value());
    }

    method SetLabel(session: SessionRecord, deviceLabel: string)
      requires Valid() && Owns(session)
      modifies session`deviceLabel, this`model
      ensures Valid() && session.ref < |old(model).objects|
      ensures session.Value() == old(session.Value()).(deviceLabel := deviceLabel)
      ensures model == S.Write(old(model), session.ref, session.Value())
    {
      session.deviceLabel := deviceLabel;
      model := S.Write(model, session.ref, session.Value());
    }

    method Forget(id: string)
      requires Valid()
      modifies this`sessions, this`model, this`changes
      ensures Valid() && model == S.Remove(old(model), id)
    {
      Delete(id);
      Changed();
    }

    /** Every authenticated request advances the idle state. */
    method Touch(session: SessionRecord, at: int)
      requires Valid() && Owns(session)
      modifies session`lastSeenAt, this`model, this`changes
      ensures Valid() && session.ref < |old(model).objects|
      ensures model == S.Update(old(model), session.ref, old(session.Value()).(lastSeenAt := at))
    {
      SetLastSeen(session, at);
      Changed();
    }

    method Mark(session: SessionRecord, status: S.Status, at: int)
      requires Valid() && Owns(session)
      modifies session`status, session`lastSeenAt, this`model, this`changes
      ensures Valid() && session.ref < |old(model).objects|
      ensures model == S.Update(old(model), session.ref, old(session.Value()).(status := status, lastSeenAt := at))
    {
      SetStatus(session, status);
      Touch(session, at);
    }

    method Rotate(session: SessionRecord, secret: string, at: int, ip: Option<string>)
      requires Valid() && Owns(session)
      modifies session, this`model, this`changes
      ensures Valid() && session.ref < |old(model).objects|
      ensures var r := old(session.Value());
        session.Value() == r.(secretHash := S.Digest(secret), lastSeenAt := at,
                              lastSeenIp := if S.KnownIp(ip).Some? then ip else r.lastSeenIp)
      ensures model == S.Update(old(model), session.ref, session.Value())
    {
      SetSecret(session, S.Digest(secret));
      SetLastSeen(session, at);
      if ip.Some? && ip.value != "" {
        SetLastIp(session, ip);
      }
      Changed();
    }

    method DropIfExpired(id: string, at: int)
      requires Valid() && id in sessions.vals
      modifies this`sessions, this`model
      ensures Valid() && id in old(model).table.vals
      ensures model == if S.Expired(cfg, S.At(old(model), id), at) then S.Drop(old(model), id) else old(model)
    {
      Lookup(id);
      var expired := Expired(sessions.vals[id], at);
      if expired {
        Delete(id);
      }
    }

    ghost function Unswept(s: S.Store, keys: seq<string>, i: nat, at: int): set<string>
      requires S.Valid(s) && i <= |keys|
    {
      set id | id in s.table.vals && !(id in keys[..i] && S.Expired(cfg, S.At(s, id), at))
    }

    lemma SweepOne(s: S.Store, keys: seq<string>, i: nat, at: int)
      requires S.Valid(s) && keys == s.table.keys && i < |keys|
      ensures keys[i] in s.table.vals
      ensures var here := OM.Restrict(s.table, Unswept(s, keys, i, at));
        && keys[i] in here.vals
        && OM.Restrict(s.table, Unswept(s, keys, i + 1, at))
           == if S.Expired(cfg, S.At(s, keys[i]), at) then OM.Delete(here, keys[i]) else here
    {
      assert keys[..i + 1] == keys[..i] + [keys[i]];
      assert keys[i] in s.table.keys && keys[i] !in keys[..i];
      if S.Expired(cfg, S.At(s, keys[i]), at) {
        assert Unswept(s, keys, i + 1, at) == Unswept(s, keys, i, at) - {keys[i]};
        OM.DeleteTwice(s.table, Unswept(s, keys, i, at), keys[i]);
      } else {
        assert Unswept(s, keys, i + 1, at) == Unswept(s, keys, i, at);
      }
    }

    method Sweep(at: int)
      requires Valid()
      modifies this`sessions, this`model
      ensures Valid() && model == S.Sweep(cfg, old(model), at)
    {
      hide HeapAgrees, MapAgrees;
      KeysAgree();
      var keys := sessions.keys;
      ghost var s := model;
      OM.RestrictAll(s.table, Unswept(s, keys, 0, at));
      for i := 0 to |keys|
        invariant Valid() && model == s.(table := OM.Restrict(s.table, Unswept(s, keys, i, at)))
      {
        SweepOne(s, keys, i, at);
        KeysAgree();
        DropIfExpired(keys[i], at);
      }
      assert keys[..|keys|] == keys;
      OM.RestrictSame(s.table, Unswept(s, keys, |keys|, at), S.LiveIds(cfg, s, at));
    }

    method FindOldest(except: string) returns (oldest: Option<string>)
      requires Valid()
      ensures oldest == S.OldestExcept(model, except, |model.table.keys|)
    {
      hide HeapAgrees, MapAgrees;
      KeysAgree();
      var keys := sessions.keys;
      oldest := None;
      for i := 0 to |keys|
        invariant oldest == S.OldestExcept(model, except, i)
      {
        assert keys[i] in keys;
        Lookup(keys[i]);
        if keys[i] != except {
          if oldest.None? {
            oldest := Some(keys[i]);
          } else {
            Lookup(oldest.value);
            if sessions.vals[keys[i]].lastSeenAt < sessions.vals[oldest.value].lastSeenAt {
              oldest := Some(keys[i]);
            }
          }
        }
      }
    }

    /** Among the ids other than `except`, the one seen least recently goes; the first of several. */
    method EvictOldest(except: string) returns (evicted: Option<string>)
      requires Valid()
      modifies this`sessions, this`model
      ensures Valid()
      ensures evicted == S.OldestExcept(old(model), except, |old(model).table.keys|)
      ensures model == if evicted.Some? then S.Drop(old(model), evicted.value) else old(model)
    {
      evicted := FindOldest(except);
      if evicted.Some? {
        Delete(evicted.value);
      }
    }

    /** The number of records that are not rejected. */
    method CountLive() returns (n: nat)
      requires Valid()
      ensures n == |S.Counted(model)|
    {
      hide HeapAgrees;
      var keys := sessions.keys;
      n := 0;
      ghost var live := S.Counted(model);
      for i := 0 to |keys|
        invariant n == |Among(live, keys, i)|
      {
        assert keys[i] in keys;
        Lookup(keys[i]);
        OneMore(live, keys, i);
        if sessions.vals[keys[i]].status != S.Rejected {
          n := n + 1;
        }
      }
      AllSeen(live, keys);
    }

    ghost function Among(live: set<string>, keys: seq<string>, i: nat): set<string>
      requires i <= |keys|
    {
      set id | id in live && id in keys[..i]
    }

    lemma OneMore(live: set<string>, keys: seq<string>, i: nat)
      requires i < |keys| && OM.Distinct(keys)
      ensures |Among(live, keys, i + 1)| == |Among(live, keys, i)| + if keys[i] in live then 1 else 0
    {
      assert keys[..i + 1] == keys[..i] + [keys[i]];
      assert keys[i] !in keys[..i];
      assert Among(live, keys, i + 1) == Among(live, keys, i) + if keys[i] in live then {keys[i]} else {};
    }

    lemma AllSeen(live: set<string>, keys: seq<string>)
      requires forall id :: id in live ==> id in keys
      ensures Among(live, keys, |keys|) == live
    {
      assert keys[..|keys|] == keys;
    }

    method Insert(r: S.Rec) returns (record: SessionRecord)
      requires Valid()
      modifies this`sessions, this`objects, this`model
      ensures Valid() && fresh(record) && objects == old(objects) + [record] && record.Value() == r
      ensures model == S.Insert(old(model), r)
    {
      record := new SessionRecord(|objects|, r);
      Append(record, r);
      Register(record);
    }

    /** Both Maps with the record put under its id. */
    lemma Registered(record: SessionRecord)
      requires Valid() && Owns(record)
      ensures var m, table := OM.Set(sessions, record.id, record), OM.Set(model.table, record.id, record.ref);
        && S.Valid(model.(table := table)) && m.keys == table.keys && m.vals.Keys == table.vals.Keys
        && forall id :: id in m.vals ==> Owns(m.vals[id]) && m.vals[id].ref == table.vals[id]
    {
      assert model.objects[record.ref].id == record.id;
    }

    method Register(record: SessionRecord)
      requires Valid() && Owns(record)
      modifies this`sessions, this`model
      ensures Valid() && model == old(model).(table := OM.Set(old(model).table, record.id, record.ref))
    {
      hide OM.Set, S.Valid;
      Registered(record);
      sessions := OM.Set(sessions, record.id, record);
      model := model.(table := OM.Set(model.table, record.id, record.ref));
    }

    /** One more object, not yet in the Map. */
    ghost method Append(record: SessionRecord, r: S.Rec)
      requires Valid() && record.ref == |objects| && record.Value() == r
      modifies this`objects, this`model
      ensures Valid() && objects == old(objects) + [record]
      ensures model == old(model).(objects := old(model).objects + [r])
    {
      objects := objects + [record];
      model := model.(objects := model.objects + [r]);
    }

    method EvictToCap(except: string)
      requires Valid()
      modifies this`sessions, this`model
      ensures Valid() && model == S.Evict(cfg, old(model), except)
    {
      hide HeapAgrees;
      while |sessions.keys| > cfg.maxSessions
        invariant Valid() && S.Valid(model)
        invariant S.Evict(cfg, model, except) == S.Evict(cfg, old(model), except)
        decreases |sessions.keys|
      {
        ghost var s := model;
        var evicted := EvictOldest(except);
        if evicted.None? {
          break;
        }
        S.DeleteShrinks(s.table, evicted.value);
      }
    }

    /** `id` and `secret` are the freshly drawn random texts; None when capacity refuses the device. */
    method Login(at: int, id: string, secret: string, deviceLabel: string, ip: Option<string>)
      returns (r: Option<SessionRecord>)
      requires Valid()
      modifies this
      ensures Valid()
      ensures model == S.AfterLogin(cfg, old(model), at, id, secret, deviceLabel, ip)
      ensures r.None? <==> S.AtCapacity(cfg, old(model), at)
      ensures if r.None? then objects == old(objects) else objects == old(objects) + [r.value] && fresh(r.value)
      ensures r.Some? ==> r.value.id == id && r.value.secretHash == S.Digest(secret)
      ensures r.Some? ==> r.value.status == if cfg.approvalRequired then S.Pending else S.Active
    {
      Sweep(at);
      if cfg.approvalRequired {
        var live := CountLive();
        if live >= cfg.maxSessions {
          return None;
        }
      }
      var record := Insert(S.NewRecord(cfg, at, id, secret, deviceLabel, ip));
      if !cfg.approvalRequired {
        EvictToCap(id);
      }
      Changed();
      return Some(record);
    }

    /** What a sweep leaves of one id. */
    lemma SweptKnows(s: S.Store, id: string, at: int)
      requires S.Valid(s)
      ensures S.Valid(S.Sweep(cfg, s, at)) && S.Sweep(cfg, s, at).objects == s.objects
      ensures id in S.Sweep(cfg, s, at).table.vals <==> id in s.table.vals && !S.Expired(cfg, S.At(s, id), at)
      ensures id in S.Sweep(cfg, s, at).table.vals ==> S.Sweep(cfg, s, at).table.vals[id] == s.table.vals[id]
    {
      S.SweepValid(cfg, s, at);
    }

    /** Rotate the secret of an existing device; None when it is gone, expired or rejected. */
    method Reissue(at: int, id: string, secret: string, ip: Option<string>) returns (r: Option<SessionRecord>)
      requires Valid()
      modifies this, objects
      ensures Valid() && objects == old(objects)
      ensures model == S.AfterReissue(cfg, old(model), at, id, secret, ip)
      ensures r.Some? <==> S.Reissuable(cfg, old(model), at, id)
      ensures r.Some? ==> r.value.id == id && r.value.secretHash == S.Digest(secret)
    {
      hide HeapAgrees, MapAgrees, S.Sweep;
      Sweep(at);
      SweptKnows(old(model), id, at);
      KeysAgree();
      if id !in sessions.vals {
        return None;
      }
      Lookup(id);
      var session := sessions.vals[id];
      var expired := Expired(session, at);
      if expired || session.status == S.Rejected {
        return None;
      }
      Rotate(session, secret, at, ip);
      return Some(session);
    }

    method Find(cookie: string) returns (r: Option<SessionRecord>)
      requires Valid()
      ensures match r
        case None => S.Find(model, cookie) == None
        case Some(session) => S.Find(model, cookie) == Some(session.ref) && Owns(session)
                              && session.ref < |model.objects| && model.objects[session.ref] == session.Value()
    {
      var decoded := S.DecodeCookie(cookie);
      if decoded.None? {
        return None;
      }
      var (id, secret) := decoded.value;
      if id !in sessions.vals {
        return None;
      }
      Lookup(id);
      if sessions.vals[id].secretHash != S.Digest(secret) {
        return None;
      }
      return Some(sessions.vals[id]);
    }

    /** Record the activity of a validated request; a changed address is noted at once. */
    method Admit(session: SessionRecord, touchAt: int, ip: Option<string>)
      requires Valid() && Owns(session)
      modifies session`lastSeenIp, session`lastSeenAt, this`model, this`changes
      ensures Valid() && session.ref < |old(model).objects|
      ensures var r := old(session.Value());
        model == if S.KnownIp(ip).Some? && r.lastSeenIp != ip
                 then S.Update(S.Update(old(model), session.ref, r.(lastSeenIp := ip)), session.ref,
                               r.(lastSeenIp := ip, lastSeenAt := touchAt))
                 else S.Update(old(model), session.ref, r.(lastSeenAt := touchAt))
    {
      if ip.Some? && ip.value != "" && session.lastSeenIp != ip {
        SetLastIp(session, ip);
        Changed();
      }
      Touch(session, touchAt);
    }

    /** Validate a device cookie and record the activity. */
    method Validate(at: int, touchAt: int, cookie: string, ip: Option<string>) returns (r: Option<SessionRecord>)
      requires Valid()
      modifies this, objects
      ensures Valid() && objects == old(objects)
      ensures model == S.AfterValidate(cfg, old(model), cookie, ip, at, touchAt)
      ensures r.Some? <==> S.IsActive(cfg, old(model), cookie, at)
    {
      var found := Find(cookie);
      if found.None? {
        return None;
      }
      var session := found.value;
      var expired := Expired(session, at);
      if expired {
        Forget(session.id);
        return None;
      }
      if session.status != S.Active {
        return None;
      }
      Admit(session, touchAt, ip);
      return Some(session);
    }

    method IsActive(cookie: string, at: int) returns (r: bool)
      requires Valid()
      ensures r == S.IsActive(cfg, model, cookie, at)
    {
      var found := Find(cookie);
      if found.None? {
        return false;
      }
      var expired := Expired(found.value, at);
      return found.value.status == S.Active && !expired;
    }

    /** Bind stream activity to one record object and its current secret. */
    method TrackActivity(cookie: string, at: int) returns (t: ActivityTracker)
      requires Valid()
      ensures fresh(t) && t.store == this && t.Valid()
      ensures t.Model() == S.Track(cfg, model, cookie, at)
    {
      var found := Find(cookie);
      if found.Some? {
        var expired := Expired(found.value, at);
        if found.value.status == S.Active && !expired {
          t := new ActivityTracker(this, found.value);
          return;
        }
      }
      t := new ActivityTracker.Dead(this);
    }

    /** Reject a pending device, remove any other. */
    method Revoke(at: int, id: string) returns (ok: bool)
      requires Valid()
      modifies this, objects
      ensures Valid() && objects == old(objects)
      ensures model == S.AfterRevoke(old(model), id, at)
      ensures ok <==> id in old(sessions).vals
    {
      if id !in sessions.vals {
        return false;
      }
      Lookup(id);
      var session := sessions.vals[id];
      if session.status == S.Pending {
        Mark(session, S.Rejected, at);
        return true;
      }
      Forget(id);
      return true;
    }

    method Approve(at: int, id: string) returns (ok: bool)
      requires Valid()
      modifies this, objects
      ensures Valid() && objects == old(objects)
      ensures model == S.AfterApprove(old(model), id, at)
      ensures ok <==> id in old(sessions).vals && old(sessions.vals[id].status) == S.Pending
    {
      if id !in sessions.vals {
        return false;
      }
      Lookup(id);
      var session := sessions.vals[id];
      if session.status != S.Pending {
        return false;
      }
      Mark(session, S.Active, at);
      return true;
    }

    /** The answer is whether the device bears the label now; a blank or overlong one is refused. */
    method Rename(id: string, deviceLabel: string) returns (ok: bool)
      requires Valid()
      modifies this, objects
      ensures Valid() && objects == old(objects)
      ensures model == S.AfterRename(old(model), id, deviceLabel)
      ensures ok <==> id in old(sessions).vals && 0 < |Trim(deviceLabel)| <= 64
    {
      hide Trim;
      if id !in sessions.vals {
        return false;
      }
      Lookup(id);
      var session := sessions.vals[id];
      var next := Trim(deviceLabel);
      if |next| == 0 || |next| > 64 {
        return false;
      }
      if session.deviceLabel == next {
        return true;
      }
      SetLabel(session, next);
      Changed();
      return true;
    }

    /** The wait page's lookup: the record of whatever status, dropped when expired. */
    method Pending(cookie: string, id: string, at: int) returns (r: Option<SessionRecord>)
      requires Valid()
      modifies this`sessions, this`model, this`changes
      ensures Valid() && model == S.AfterLookup(cfg, old(model), cookie, id, at)
      ensures r.Some? <==>
        && S.DecodeCookie(cookie).Some? && S.DecodeCookie(cookie).value.0 == id
        && S.Find(old(model), cookie).Some?
        && !S.Expired(cfg, old(model).objects[S.Find(old(model), cookie).value], at)
      ensures r.Some? ==> Owns(r.value) && r.value.id == id && S.Find(old(model), cookie) == Some(r.value.ref)
    {
      var decoded := S.DecodeCookie(cookie);
      if decoded.None? || decoded.value.0 != id {
        return None;
      }
      var found := Find(cookie);
      if found.None? {
        return None;
      }
      var expired := Expired(found.value, at);
      if expired {
        Forget(id);
        return None;
      }
      return found;
    }

    method Empty()
      requires Valid()
      modifies this`sessions, this`model
      ensures Valid() && model == old(model).(table := OM.Empty())
    {
      sessions := OM.Empty();
      model := model.(table := OM.Empty());
    }

    /** Invalidate every device. */
    method Clear()
      requires Valid()
      modifies this
      ensures Valid() && objects == old(objects)
      ensures model == S.AfterClear(old(model))
    {
      if |sessions.keys| > 0 {
        Empty();
        Changed();
      }
    }

    /** New objects for the acceptable elements among the first maxSessions, and no others in the Map. */
    method Hydrate(data: seq<S.Raw>)
      requires Valid()
      modifies this
      ensures Valid()
      ensures model == S.AfterHydrate(cfg, old(model), data)
      ensures |objects| >= |old(objects)| && objects[..|old(objects)|] == old(objects)
      ensures forall i :: |old(objects)| <= i < |objects| ==> fresh(objects[i])
    {
      hide HeapAgrees, MapAgrees;
      Empty();
      ghost var start := model;
      var n := if |data| <= cfg.maxSessions then |data| else cfg.maxSessions;
      for i := 0 to n
        invariant Valid() && S.Valid(start) && model == S.InsertAll(start, data, i)
        invariant |objects| >= |old(objects)| && objects[..|old(objects)|] == old(objects)
        invariant forall k :: |old(objects)| <= k < |objects| ==> fresh(objects[k])
      {
        if S.Acceptable(data[i]) {
          var record := Insert(S.FromRaw(data[i]));
        }
      }
    }

    /** The persistable shape of the live records, in Map order. */
    method Serialize(at: int) returns (data: seq<S.Raw>)
      requires Valid()
      modifies this`sessions, this`model
      ensures Valid() && model == S.Sweep(cfg, old(model), at)
      ensures data == S.Serialized(cfg, old(model), at)
    {
      Sweep(at);
      data := CollectLive();
    }

    method CollectLive() returns (data: seq<S.Raw>)
      requires Valid()
      ensures data == S.ToRaws(S.LiveRecords(model))
    {
      hide HeapAgrees;
      var keys := sessions.keys;
      data := [];
      ghost var records := S.Records(model);
      for i := 0 to |keys|
        invariant data == S.ToRaws(S.NotRejected(records, i))
      {
        assert keys[i] in keys;
        Lookup(keys[i]);
        var session := sessions.vals[keys[i]];
        assert records[i] == session.Value();
        if session.status != S.Rejected {
          RawAppended(S.NotRejected(records, i), session.Value());
          data := data + [S.ToRaw(session.Value())];
        }
      }
    }
  }

  lemma RawAppended(records: seq<S.Rec>, r: S.Rec)
    ensures S.ToRaws(records + [r]) == S.ToRaws(records) + [S.ToRaw(r)]
  {
  }

  /** The callback trackActivity() returns. */
  class ActivityTracker {
    const store: SessionStore
    const session: SessionRecord?
    const secretHash: S.Digest
    var lastNotifiedAt: Option<int>

    constructor (store: SessionStore, session: SessionRecord)
      ensures this.store == store && this.session == session && secretHash == session.secretHash &&
        lastNotifiedAt == None
    {
      this.store, this.session, secretHash, lastNotifiedAt := store, session, session.secretHash, None;
    }

    constructor Dead(store: SessionStore)
      ensures this.store == store && session == null && secretHash == S.Digest("") && lastNotifiedAt == None
    {
      this.store, session, secretHash, lastNotifiedAt := store, null, S.Digest(""), None;
    }

    /** The object held is one the store made. */
    ghost predicate Valid()
      reads this, store, store.objects
    {
      store.Valid() && (session != null ==> store.Owns(session))
    }

    ghost function Model(): S.Tracker
      reads this
    {
      S.Tracker(if session == null then None else Some(session.ref), secretHash, lastNotifiedAt)
    }

    /** The identity test of the code is the model's test on references. */
    lemma BoundHere()
      requires Valid()
      ensures S.Bound(store.model, Model()) <==>
        session != null && session.id in store.sessions.vals && store.sessions.vals[session.id] == session
        && session.secretHash == secretHash && session.status == S.Active
      ensures session != null ==>
        session.ref < |store.model.objects| && store.model.objects[session.ref] == session.Value()
    {
      if session != null {
        assert store.model.objects[session.ref] == session.Value();
        if session.id in store.sessions.vals {
          store.Lookup(session.id);
        }
      }
    }

    method Call(at: int) returns (live: bool)
      requires Valid()
      modifies this, store, store.objects
      ensures Valid() && store.objects == old(store.objects)
      ensures store.model == S.AfterStream(store.cfg, old(store.model), old(Model()), at)
      ensures live == S.StreamAnswer(store.cfg, old(store.model), old(Model()), at)
      ensures Model() == S.TrackerAfter(store.cfg, old(store.model), old(Model()), at)
    {
      hide store.HeapAgrees, store.MapAgrees, S.Bound;
      BoundHere();
      if session == null {
        return false;
      }
      if session.id !in store.sessions.vals || store.sessions.vals[session.id] != session
         || session.secretHash != secretHash || session.status != S.Active {
        return false;
      }
      var expired := store.Expired(session, at);
      if expired {
        store.Forget(session.id);
        return false;
      }
      store.SetLastSeen(session, at);
      if lastNotifiedAt.None? || at - lastNotifiedAt.value >= 1000 {
        lastNotifiedAt := Some(at);
        store.Changed();
      }
      return true;
    }
  }
}
