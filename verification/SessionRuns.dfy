/** What holds of credentials, stream callbacks and capacity over every run of the session store. */
module SessionRuns {
  import opened Text
  import OM = OrderedMap
  import opened Sessions

  /** A run: the store before the first call and after each. */
  ghost predicate Trace(cfg: Config, states: seq<Store>, ops: seq<Op>) {
    && |states| == |ops| + 1
    && (forall i :: 0 <= i <= |ops| ==> Valid(states[i]))
    && forall i :: 0 <= i < |ops| ==> states[i + 1] == Step(cfg, states[i], ops[i])
  }

  /** Every call continues every run. */
  lemma TraceExtends(cfg: Config, states: seq<Store>, ops: seq<Op>, op: Op)
    requires Trace(cfg, states, ops)
    ensures Trace(cfg, states + [Step(cfg, states[|ops|], op)], ops + [op])
  {
    StepValid(cfg, states[|ops|], op);
    hide Step;
  }

  lemma TraceStep(cfg: Config, states: seq<Store>, ops: seq<Op>, i: nat)
    requires Trace(cfg, states, ops) && i < |ops|
    ensures states[i + 1] == Step(cfg, states[i], ops[i])
  {
    hide Step;
  }

  // ----- one step -----

  /** The Map holds what it held, or objects made by this step. */
  ghost predicate TableFrom(s: Store, t: Store) {
    forall id :: id in t.table.vals ==>
      (id in s.table.vals && t.table.vals[id] == s.table.vals[id]) || t.table.vals[id] >= |s.objects|
  }

  lemma {:induction false} EvictKeeps(cfg: Config, s: Store, except: string)
    requires Valid(s)
    ensures var t := Evict(cfg, s, except);
      && Valid(t) && t.objects == s.objects && t.changes == s.changes
      && (forall id :: id in t.table.vals ==> id in s.table.vals && t.table.vals[id] == s.table.vals[id])
      && (except in s.table.vals ==> except in t.table.vals)
      && (|t.table.keys| <= cfg.maxSessions || forall id :: id in t.table.vals ==> id == except)
    decreases |s.table.keys|
  {
    if |s.table.keys| > cfg.maxSessions {
      var oldest := OldestExcept(s, except, |s.table.keys|);
      if oldest.Some? {
        DeleteShrinks(s.table, oldest.value);
        EvictKeeps(cfg, Drop(s, oldest.value), except);
      } else {
        forall id | id in s.table.vals ensures id == except {
          assert id in s.table.keys;
        }
      }
    }
  }

  lemma {:induction false} InsertAllFrom(s: Store, data: seq<Raw>, n: nat)
    requires Valid(s) && n <= |data|
    ensures TableFrom(s, InsertAll(s, data, n))
  {
    if n > 0 {
      InsertAllFrom(s, data, n - 1);
    }
  }

  function Taken(cfg: Config, data: seq<Raw>): (n: nat)
    ensures n <= |data| && n <= cfg.maxSessions
  {
    if |data| <= cfg.maxSessions then |data| else cfg.maxSessions
  }

  lemma LoginValid(cfg: Config, s: Store, op: Op)
    requires Valid(s) && op.Login?
    ensures Valid(Step(cfg, s, op)) && TableFrom(s, Step(cfg, s, op))
    ensures |s.objects| <= |Step(cfg, s, op).objects| && Step(cfg, s, op).objects[..|s.objects|] == s.objects
  {
    if !AtCapacity(cfg, s, op.at) {
      var added := Insert(Sweep(cfg, s, op.at), NewRecord(cfg, op.at, op.id, op.secret, op.deviceLabel, op.ip));
      InsertValid(Sweep(cfg, s, op.at), NewRecord(cfg, op.at, op.id, op.secret, op.deviceLabel, op.ip));
      EvictKeeps(cfg, added, op.id);
    }
  }

  lemma HydrateValid(cfg: Config, s: Store, op: Op)
    requires Valid(s) && op.Hydrate?
    ensures Valid(Step(cfg, s, op)) && TableFrom(s, Step(cfg, s, op))
    ensures forall id :: id in Step(cfg, s, op).table.vals ==> Step(cfg, s, op).table.vals[id] >= |s.objects|
    ensures |s.objects| <= |Step(cfg, s, op).objects| && Step(cfg, s, op).objects[..|s.objects|] == s.objects
  {
    InsertAllFrom(s.(table := OM.Empty()), op.data, Taken(cfg, op.data));
  }

  lemma CredentialOpsValid(cfg: Config, s: Store, op: Op)
    requires Valid(s) && (op.Reissue? || op.Validate? || op.Stream? || op.Lookup?)
    ensures Valid(Step(cfg, s, op))
  {
    hide Expired;
  }

  lemma OwnerOpsValid(cfg: Config, s: Store, op: Op)
    requires Valid(s) && (op.List? || op.Serialize? || op.Revoke? || op.Approve? || op.Rename? || op.Clear?)
    ensures Valid(Step(cfg, s, op))
  {
  }

  lemma StepValid(cfg: Config, s: Store, op: Op)
    requires Valid(s)
    ensures Valid(Step(cfg, s, op))
  {
    if op.Login? {
      LoginValid(cfg, s, op);
    } else if op.Hydrate? {
      HydrateValid(cfg, s, op);
    } else if op.Reissue? || op.Validate? || op.Stream? || op.Lookup? {
      CredentialOpsValid(cfg, s, op);
    } else {
      OwnerOpsValid(cfg, s, op);
    }
  }

  /** How a step may change an existing object: never its id or birth, its status only away from
      pending, and once out of the Map it stays out. */
  ghost predicate Evolves(s: Store, t: Store, ref: nat)
    requires ref < |s.objects|
  {
    && ref < |t.objects|
    && t.objects[ref].id == s.objects[ref].id && t.objects[ref].createdAt == s.objects[ref].createdAt
    && (t.objects[ref].status == s.objects[ref].status || s.objects[ref].status == Pending)
    && (Linked(t, ref) ==> Linked(s, ref))
  }

  lemma CredentialOpsEvolve(cfg: Config, s: Store, op: Op, ref: nat)
    requires Valid(s) && ref < |s.objects| && (op.Reissue? || op.Validate? || op.Stream? || op.Lookup?)
    ensures Evolves(s, Step(cfg, s, op), ref)
  {
    hide LiveIds, Expired;
  }

  lemma OwnerOpsEvolve(cfg: Config, s: Store, op: Op, ref: nat)
    requires Valid(s) && ref < |s.objects|
    requires op.List? || op.Serialize? || op.Revoke? || op.Approve? || op.Rename? || op.Clear?
    ensures Evolves(s, Step(cfg, s, op), ref)
  {
    hide LiveIds, Expired, Trim;
  }

  lemma StepEvolves(cfg: Config, s: Store, op: Op, ref: nat)
    requires Valid(s) && ref < |s.objects|
    ensures Evolves(s, Step(cfg, s, op), ref)
  {
    hide Step;
    if op.Login? {
      LoginValid(cfg, s, op);
      assert Step(cfg, s, op).objects[ref] == s.objects[ref];
    } else if op.Hydrate? {
      HydrateValid(cfg, s, op);
      assert Step(cfg, s, op).objects[ref] == s.objects[ref];
    } else if op.Reissue? || op.Validate? || op.Stream? || op.Lookup? {
      CredentialOpsEvolve(cfg, s, op, ref);
    } else {
      OwnerOpsEvolve(cfg, s, op, ref);
    }
  }

  /** Only login and hydrate make objects. */
  lemma StepMakesNone(cfg: Config, s: Store, op: Op)
    requires Valid(s) && !op.Login? && !op.Hydrate?
    ensures |Step(cfg, s, op).objects| == |s.objects|
  {
    hide LiveIds, Expired, Trim;
  }

  /** Only a reissue gives an object a new secret. */
  lemma StepKeepsSecret(cfg: Config, s: Store, op: Op, ref: nat)
    requires Valid(s) && ref < |s.objects|
    ensures ref < |Step(cfg, s, op).objects|
    ensures Step(cfg, s, op).objects[ref].secretHash == s.objects[ref].secretHash
      || (op.Reissue? && op.id == s.objects[ref].id && Step(cfg, s, op).objects[ref].secretHash == Digest(op.secret))
  {
    match op
    case Login(_, _, _, _, _) =>
      LoginValid(cfg, s, op);
      assert Step(cfg, s, op).objects[ref] == s.objects[ref];
    case Hydrate(_) =>
      HydrateValid(cfg, s, op);
      assert Step(cfg, s, op).objects[ref] == s.objects[ref];
    case _ =>
  }

  // ----- stream callbacks -----

  /** A callback made by this store: its object exists and was active, which it then stays. */
  predicate Made(s: Store, t: Tracker) {
    t.ref.Some? ==> t.ref.value < |s.objects| && s.objects[t.ref.value].status == Active
  }

  lemma TrackIsMade(cfg: Config, s: Store, cookie: string, at: int)
    requires Valid(s)
    ensures Made(s, Track(cfg, s, cookie, at))
    ensures StreamAnswer(cfg, s, Track(cfg, s, cookie, at), at) <==> IsActive(cfg, s, cookie, at)
  {
  }

  lemma StepKeepsUnbound(cfg: Config, s: Store, op: Op, t: Tracker)
    requires Valid(s) && Made(s, t) && !Bound(s, t)
    requires op.Reissue? ==> Digest(op.secret) != t.secretHash
    ensures Made(Step(cfg, s, op), t) && !Bound(Step(cfg, s, op), t)
  {
    if t.ref.Some? {
      StepEvolves(cfg, s, op, t.ref.value);
      StepKeepsSecret(cfg, s, op, t.ref.value);
    }
  }

  /** Secrets drawn from call `i` on are fresh: none repeats the callback's. */
  ghost predicate FreshFrom(ops: seq<Op>, i: nat, t: Tracker) {
    forall k :: i <= k < |ops| && ops[k].Reissue? ==> Digest(ops[k].secret) != t.secretHash
  }

  lemma {:induction false} UnboundForever(cfg: Config, states: seq<Store>, ops: seq<Op>, i: nat, j: nat, t: Tracker)
    requires Trace(cfg, states, ops) && i <= j <= |ops| && FreshFrom(ops, i, t)
    requires Made(states[i], t) && !Bound(states[i], t)
    ensures Made(states[j], t) && !Bound(states[j], t)
    decreases j
  {
    hide Step;
    if i < j {
      UnboundForever(cfg, states, ops, i, j - 1, t);
      TraceStep(cfg, states, ops, j - 1);
      StepKeepsUnbound(cfg, states[j - 1], ops[j - 1], t);
    }
  }

  /** A callback that has once answered false never answers true again, whatever happens to the store. */
  lemma FalseOnceFalseForever(cfg: Config, states: seq<Store>, ops: seq<Op>, i: nat, j: nat, t: Tracker, later: int)
    requires Trace(cfg, states, ops) && i < j <= |ops| && FreshFrom(ops, i, t) && Made(states[i], t)
    requires ops[i].Stream? && ops[i].tracker.ref == t.ref && ops[i].tracker.secretHash == t.secretHash
    requires !StreamAnswer(cfg, states[i], t, ops[i].at)
    ensures !StreamAnswer(cfg, states[j], t, later)
  {
    hide Step;
    TraceStep(cfg, states, ops, i);
    FalseUnbinds(cfg, states[i], ops[i], t);
    UnboundForever(cfg, states, ops, i + 1, j, t);
  }

  lemma FalseUnbinds(cfg: Config, s: Store, op: Op, t: Tracker)
    requires Valid(s) && op.Stream? && op.tracker.ref == t.ref && op.tracker.secretHash == t.secretHash && Made(s, t)
    requires !StreamAnswer(cfg, s, t, op.at)
    ensures Made(Step(cfg, s, op), t) && !Bound(Step(cfg, s, op), t)
  {
  }

  /** Calls that cut a live callback off: a reissue of its record under a fresh secret, a revocation of its
      record, clear, hydrate, and any step that takes its record out of the Map, as eviction does. */
  ghost predicate CutsOff(cfg: Config, s: Store, op: Op, t: Tracker)
    requires Valid(s) && Bound(s, t)
  {
    var id := s.objects[t.ref.value].id;
    || (op.Reissue? && op.id == id && Digest(op.secret) != t.secretHash && Reissuable(cfg, s, op.at, id))
    || (op.Revoke? && op.id == id)
    || op.Clear? || op.Hydrate?
    || id !in Step(cfg, s, op).table.vals
  }

  lemma CutOffUnbinds(cfg: Config, s: Store, op: Op, t: Tracker)
    requires Valid(s) && Bound(s, t) && CutsOff(cfg, s, op, t)
    ensures Made(Step(cfg, s, op), t) && !Bound(Step(cfg, s, op), t)
  {
    StepEvolves(cfg, s, op, t.ref.value);
    if op.Hydrate? {
      HydrateValid(cfg, s, op);
    }
  }

  lemma CutOffForever(cfg: Config, states: seq<Store>, ops: seq<Op>, i: nat, j: nat, t: Tracker, later: int)
    requires Trace(cfg, states, ops) && i < j <= |ops| && FreshFrom(ops, i, t)
    requires Bound(states[i], t) && CutsOff(cfg, states[i], ops[i], t)
    ensures !StreamAnswer(cfg, states[j], t, later)
  {
    hide Step;
    TraceStep(cfg, states, ops, i);
    CutOffUnbinds(cfg, states[i], ops[i], t);
    UnboundForever(cfg, states, ops, i + 1, j, t);
  }

  // ----- absolute lifetime -----

  /** All objects ever made for this id have that birth time. */
  ghost predicate BornAt(s: Store, id: string, birth: int) {
    forall ref :: 0 <= ref < |s.objects| && s.objects[ref].id == id ==> s.objects[ref].createdAt == birth
  }

  ghost predicate DataBornAt(data: seq<Raw>, id: string, birth: int) {
    forall i :: 0 <= i < |data| && data[i].id == Some(id) && data[i].createdAt.Some? ==>
      data[i].createdAt.value == birth
  }

  lemma {:induction false} InsertAllBorn(s: Store, data: seq<Raw>, n: nat, id: string, birth: int)
    requires Valid(s) && n <= |data| && BornAt(s, id, birth) && DataBornAt(data, id, birth)
    ensures BornAt(InsertAll(s, data, n), id, birth)
  {
    if n > 0 {
      InsertAllBorn(s, data, n - 1, id, birth);
    }
  }

  lemma LoginBorn(cfg: Config, s: Store, op: Op, id: string, birth: int)
    requires Valid(s) && BornAt(s, id, birth) && op.Login? && op.id != id
    ensures BornAt(Step(cfg, s, op), id, birth)
  {
    if !AtCapacity(cfg, s, op.at) {
      InsertValid(Sweep(cfg, s, op.at), NewRecord(cfg, op.at, op.id, op.secret, op.deviceLabel, op.ip));
      EvictKeeps(cfg, Insert(Sweep(cfg, s, op.at), NewRecord(cfg, op.at, op.id, op.secret, op.deviceLabel, op.ip)),
                 op.id);
    }
  }

  lemma StepBorn(cfg: Config, s: Store, op: Op, id: string, birth: int)
    requires Valid(s) && BornAt(s, id, birth)
    requires op.Login? ==> op.id != id
    requires op.Hydrate? ==> DataBornAt(op.data, id, birth)
    ensures BornAt(Step(cfg, s, op), id, birth)
  {
    if op.Login? {
      LoginBorn(cfg, s, op, id, birth);
    } else if op.Hydrate? {
      InsertAllBorn(s.(table := OM.Empty()), op.data, Taken(cfg, op.data), id, birth);
    } else {
      hide Step;
      StepMakesNone(cfg, s, op);
      forall ref | 0 <= ref < |s.objects| ensures Evolves(s, Step(cfg, s, op), ref) {
        StepEvolves(cfg, s, op, ref);
      }
    }
  }

  lemma SerializedBorn(cfg: Config, s: Store, at: int, id: string, birth: int)
    requires Valid(s) && BornAt(s, id, birth)
    ensures DataBornAt(Serialized(cfg, s, at), id, birth)
  {
    SweepValid(cfg, s, at);
    var swept := Sweep(cfg, s, at);
    var live := LiveRecords(swept);
    forall i | 0 <= i < |live| && live[i].id == id ensures live[i].createdAt == birth {
      assert live[i] in Records(swept);
      var j :| 0 <= j < |Records(swept)| && Records(swept)[j] == live[i];
      assert swept.table.keys[j] in swept.table.keys;
    }
  }

  /** Data is only ever hydrated that this store serialized earlier in the run. */
  ghost predicate HydratesOwn(cfg: Config, states: seq<Store>, ops: seq<Op>)
    requires Trace(cfg, states, ops)
  {
    forall i :: 0 <= i < |ops| && ops[i].Hydrate? ==>
      exists j :: 0 <= j < i && SavedAt(cfg, states, ops, j, ops[i].data)
  }

  ghost predicate SavedAt(cfg: Config, states: seq<Store>, ops: seq<Op>, j: nat, data: seq<Raw>)
    requires Trace(cfg, states, ops) && j < |ops|
  {
    ops[j].Serialize? && data == Serialized(cfg, states[j], ops[j].at)
  }

  lemma {:induction false} RunBorn(cfg: Config, states: seq<Store>, ops: seq<Op>, n: nat, id: string, birth: int)
    requires Trace(cfg, states, ops) && n <= |ops| && BornAt(states[0], id, birth) && HydratesOwn(cfg, states, ops)
    requires forall i :: 0 <= i < |ops| && ops[i].Login? ==> ops[i].id != id
    ensures BornAt(states[n], id, birth)
    decreases n
  {
    hide Step;
    if n > 0 {
      RunBorn(cfg, states, ops, n - 1, id, birth);
      var op := ops[n - 1];
      if op.Hydrate? {
        var j := OwnSave(cfg, states, ops, n - 1);
        RunBorn(cfg, states, ops, j, id, birth);
        SavedBorn(cfg, states, ops, j, op.data, id, birth);
      }
      TraceStep(cfg, states, ops, n - 1);
      StepBorn(cfg, states[n - 1], op, id, birth);
    }
  }

  lemma OwnSave(cfg: Config, states: seq<Store>, ops: seq<Op>, i: nat) returns (j: nat)
    requires Trace(cfg, states, ops) && HydratesOwn(cfg, states, ops) && i < |ops| && ops[i].Hydrate?
    ensures j < i && SavedAt(cfg, states, ops, j, ops[i].data)
  {
    j :| 0 <= j < i && SavedAt(cfg, states, ops, j, ops[i].data);
  }

  lemma SavedBorn(cfg: Config, states: seq<Store>, ops: seq<Op>, j: nat, data: seq<Raw>, id: string, birth: int)
    requires Trace(cfg, states, ops) && j < |ops| && SavedAt(cfg, states, ops, j, data) && BornAt(states[j], id, birth)
    ensures DataBornAt(data, id, birth)
  {
    SerializedBorn(cfg, states[j], ops[j].at, id, birth);
  }

  /** No run lets a credential authenticate later than its birth plus the maximum age: not through
      activity, approval, reissue, or persisting and reloading. */
  lemma LifetimeIsAbsolute(cfg: Config, states: seq<Store>, ops: seq<Op>, n: nat, id: string, birth: int,
                           secret: string, at: int)
    requires Trace(cfg, states, ops) && n <= |ops| && BornAt(states[0], id, birth) && HydratesOwn(cfg, states, ops)
    requires forall i :: 0 <= i < |ops| && ops[i].Login? ==> ops[i].id != id
    requires id != "" && '.' !in id && secret != ""
    requires IsActive(cfg, states[n], EncodeCookie(id, secret), at)
    ensures at <= birth + cfg.maxAgeMs
  {
    RunBorn(cfg, states, ops, n, id, birth);
    CookieRoundTrip(id, secret);
  }

  lemma {:induction false} RunEvolves(cfg: Config, states: seq<Store>, ops: seq<Op>, i: nat, j: nat, ref: nat)
    requires Trace(cfg, states, ops) && i <= j <= |ops| && ref < |states[i].objects|
    ensures Evolves(states[i], states[j], ref)
    decreases j
  {
    hide Step;
    if i < j {
      RunEvolves(cfg, states, ops, i, j - 1, ref);
      TraceStep(cfg, states, ops, j - 1);
      StepEvolves(cfg, states[j - 1], ops[j - 1], ref);
    }
  }

  /** The same for a callback: it answers true only within the lifetime of its record. */
  lemma StreamWithinLifetime(cfg: Config, states: seq<Store>, ops: seq<Op>, i: nat, j: nat, t: Tracker, at: int)
    requires Trace(cfg, states, ops) && i <= j <= |ops| && Made(states[i], t) && t.ref.Some?
    requires StreamAnswer(cfg, states[j], t, at)
    ensures at <= states[i].objects[t.ref.value].createdAt + cfg.maxAgeMs
  {
    RunEvolves(cfg, states, ops, i, j, t.ref.value);
  }

  // ----- idle death -----

  function TimeOf(op: Op): Option<int> {
    match op
    case Rename(_, _) => None
    case Clear => None
    case Hydrate(_) => None
    case _ => Some(op.at)
  }

  /** An active record that has been silent for longer than the window, or is gone. */
  ghost predicate IdledOut(cfg: Config, s: Store, ref: nat, now: int) {
    ref < |s.objects| && s.objects[ref].status == Active
    && (!Linked(s, ref) || now - s.objects[ref].lastSeenAt > cfg.idleMs)
  }

  lemma StepIdledOut(cfg: Config, s: Store, op: Op, ref: nat, now: int)
    requires Valid(s) && cfg.idleMs > 0 && IdledOut(cfg, s, ref, now)
    requires TimeOf(op).Some? ==> TimeOf(op).value >= now
    ensures IdledOut(cfg, Step(cfg, s, op), ref, now)
  {
    StepEvolves(cfg, s, op, ref);
    match op
    case Login(_, _, _, _, _) =>
      LoginValid(cfg, s, op);
      assert Step(cfg, s, op).objects[ref] == s.objects[ref];
    case Hydrate(_) =>
      HydrateValid(cfg, s, op);
      assert Step(cfg, s, op).objects[ref] == s.objects[ref];
    case _ =>
  }

  lemma {:induction false} IdledOutForever(cfg: Config, states: seq<Store>, ops: seq<Op>, i: nat, j: nat, ref: nat,
                                           now: int)
    requires Trace(cfg, states, ops) && i <= j <= |ops| && cfg.idleMs > 0 && IdledOut(cfg, states[i], ref, now)
    requires forall k :: i <= k < |ops| && TimeOf(ops[k]).Some? ==> TimeOf(ops[k]).value >= now
    ensures IdledOut(cfg, states[j], ref, now)
    decreases j
  {
    hide Step;
    if i < j {
      IdledOutForever(cfg, states, ops, i, j - 1, ref, now);
      TraceStep(cfg, states, ops, j - 1);
      StepIdledOut(cfg, states[j - 1], ops[j - 1], ref, now);
    }
  }

  /** The record can serve nobody from `now` on: rejected, or silent for longer than the window and past approval. */
  predicate Dormant(cfg: Config, r: Rec, now: int) {
    r.status == Rejected || (r.status == Active && now - r.lastSeenAt > cfg.idleMs)
  }

  ghost predicate DormantId(cfg: Config, s: Store, id: string, now: int)
    requires Valid(s)
  {
    id in s.table.vals ==> Dormant(cfg, At(s, id), now)
  }

  ghost predicate DormantData(cfg: Config, data: seq<Raw>, id: string, now: int) {
    forall k :: 0 <= k < |data| && Acceptable(data[k]) && data[k].id == Some(id) ==> Dormant(cfg, FromRaw(data[k]), now)
  }

  lemma {:induction false} InsertAllDormant(cfg: Config, s: Store, data: seq<Raw>, n: nat, id: string, now: int)
    requires Valid(s) && n <= |data| && DormantId(cfg, s, id, now) && DormantData(cfg, data, id, now)
    ensures DormantId(cfg, InsertAll(s, data, n), id, now)
  {
    hide Dormant;
    if n > 0 {
      InsertAllDormant(cfg, s, data, n - 1, id, now);
      if Acceptable(data[n - 1]) {
        InsertDormant(cfg, InsertAll(s, data, n - 1), FromRaw(data[n - 1]), id, now);
      }
    }
  }

  lemma InsertDormant(cfg: Config, s: Store, r: Rec, id: string, now: int)
    requires Valid(s) && DormantId(cfg, s, id, now) && (r.id == id ==> Dormant(cfg, r, now))
    ensures Valid(Insert(s, r)) && DormantId(cfg, Insert(s, r), id, now)
  {
    InsertValid(s, r);
  }

  lemma LoginDormant(cfg: Config, s: Store, op: Op, id: string, now: int)
    requires Valid(s) && op.Login? && op.id != id && DormantId(cfg, s, id, now)
    ensures Valid(Step(cfg, s, op)) && DormantId(cfg, Step(cfg, s, op), id, now)
  {
    hide Dormant;
    LoginValid(cfg, s, op);
    if !AtCapacity(cfg, s, op.at) {
      var swept := Sweep(cfg, s, op.at);
      var r := NewRecord(cfg, op.at, op.id, op.secret, op.deviceLabel, op.ip);
      InsertDormant(cfg, swept, r, id, now);
      EvictKeeps(cfg, Insert(swept, r), op.id);
    }
  }

  lemma StepDormant(cfg: Config, s: Store, op: Op, id: string, now: int)
    requires Valid(s) && cfg.idleMs > 0 && DormantId(cfg, s, id, now)
    requires TimeOf(op).Some? ==> TimeOf(op).value >= now
    requires op.Login? ==> op.id != id
    requires op.Hydrate? ==> DormantData(cfg, op.data, id, now)
    ensures Valid(Step(cfg, s, op)) && DormantId(cfg, Step(cfg, s, op), id, now)
  {
    StepValid(cfg, s, op);
    if op.Login? {
      LoginDormant(cfg, s, op, id, now);
    } else if op.Hydrate? {
      InsertAllDormant(cfg, s.(table := OM.Empty()), op.data, Taken(cfg, op.data), id, now);
    } else {
      hide Step;
      StepMakesNone(cfg, s, op);
      var t := Step(cfg, s, op);
      if id in t.table.vals {
        var ref := t.table.vals[id];
        StepEvolves(cfg, s, op, ref);
        assert Linked(t, ref) && Linked(s, ref);
        if s.objects[ref].status == Active {
          StepIdledOut(cfg, s, op, ref, now);
        }
      }
    }
  }

  /** What is serialized from then on leaves a dormant record out. */
  lemma SerializedDormant(cfg: Config, s: Store, at: int, id: string, now: int)
    requires Valid(s) && cfg.idleMs > 0 && DormantId(cfg, s, id, now) && at >= now
    ensures DormantData(cfg, Serialized(cfg, s, at), id, now)
  {
    SweepValid(cfg, s, at);
    var swept := Sweep(cfg, s, at);
    var live := LiveRecords(swept);
    forall k | 0 <= k < |live| ensures live[k].id != id {
      LiveIsLinked(swept, live[k]);
    }
  }

  /** From call `i` on, data is only hydrated that was serialized since, or in which the id is dormant already. */
  ghost predicate HydratesDormant(cfg: Config, states: seq<Store>, ops: seq<Op>, i: nat, id: string, now: int)
    requires Trace(cfg, states, ops)
  {
    forall k :: i <= k < |ops| && ops[k].Hydrate? ==>
      DormantData(cfg, ops[k].data, id, now) || exists j :: i <= j < k && SavedAt(cfg, states, ops, j, ops[k].data)
  }

  lemma {:induction false} RunDormant(cfg: Config, states: seq<Store>, ops: seq<Op>, i: nat, n: nat, id: string,
                                      now: int)
    requires Trace(cfg, states, ops) && i <= n <= |ops| && cfg.idleMs > 0 && DormantId(cfg, states[i], id, now)
    requires HydratesDormant(cfg, states, ops, i, id, now)
    requires forall k :: i <= k < |ops| && TimeOf(ops[k]).Some? ==> TimeOf(ops[k]).value >= now
    requires forall k :: i <= k < |ops| && ops[k].Login? ==> ops[k].id != id
    ensures DormantId(cfg, states[n], id, now)
    decreases n
  {
    hide Step, Serialized, DormantData, DormantId;
    if i < n {
      RunDormant(cfg, states, ops, i, n - 1, id, now);
      var op := ops[n - 1];
      if op.Hydrate? && !DormantData(cfg, op.data, id, now) {
        var j :| i <= j < n - 1 && SavedAt(cfg, states, ops, j, op.data);
        RunDormant(cfg, states, ops, i, j, id, now);
        SavedDormant(cfg, states, ops, j, op.data, id, now);
      }
      TraceStep(cfg, states, ops, n - 1);
      StepDormant(cfg, states[n - 1], op, id, now);
    }
  }

  lemma SavedDormant(cfg: Config, states: seq<Store>, ops: seq<Op>, j: nat, data: seq<Raw>, id: string, now: int)
    requires Trace(cfg, states, ops) && j < |ops| && SavedAt(cfg, states, ops, j, data) && cfg.idleMs > 0
    requires DormantId(cfg, states[j], id, now) && TimeOf(ops[j]).Some? && TimeOf(ops[j]).value >= now
    ensures DormantData(cfg, data, id, now)
  {
    hide Step;
    SerializedDormant(cfg, states[j], ops[j].at, id, now);
  }

  /** With an idle window set, a credential whose active record has been silent for longer than the window never
      authenticates again, whatever happens to the record: approval, reissue, persisting and reloading included. */
  lemma IdleCredentialDies(cfg: Config, states: seq<Store>, ops: seq<Op>, i: nat, n: nat, id: string, now: int,
                           cookie: string, at: int)
    requires Trace(cfg, states, ops) && i <= n <= |ops| && cfg.idleMs > 0 && DormantId(cfg, states[i], id, now) &&
      at >= now
    requires HydratesDormant(cfg, states, ops, i, id, now)
    requires forall k :: i <= k < |ops| && TimeOf(ops[k]).Some? ==> TimeOf(ops[k]).value >= now
    requires forall k :: i <= k < |ops| && ops[k].Login? ==> ops[k].id != id
    requires DecodeCookie(cookie).Some? && DecodeCookie(cookie).value.0 == id
    ensures !IsActive(cfg, states[n], cookie, at)
  {
    hide Step, HydratesDormant;
    RunDormant(cfg, states, ops, i, n, id, now);
  }

  /** The same of one record object, for the callbacks bound to it: an active record with a gap longer than the
      window never authenticates again, neither by cookie nor by a stream callback. */
  lemma IdleIsFinal(cfg: Config, states: seq<Store>, ops: seq<Op>, i: nat, j: nat, ref: nat, now: int,
                    cookie: string, t: Tracker, at: int)
    requires Trace(cfg, states, ops) && i <= j <= |ops| && cfg.idleMs > 0 && IdledOut(cfg, states[i], ref, now) &&
      at >= now
    requires forall k :: i <= k < |ops| && TimeOf(ops[k]).Some? ==> TimeOf(ops[k]).value >= now
    ensures Find(states[j], cookie) == Some(ref) ==> !IsActive(cfg, states[j], cookie, at)
    ensures t.ref == Some(ref) ==> !StreamAnswer(cfg, states[j], t, at)
  {
    IdledOutForever(cfg, states, ops, i, j, ref, now);
  }

  // ----- approval -----

  /** Some call approved the id, and no later one revoked it or cleared the store. */
  ghost predicate ApprovedIn(ops: seq<Op>, n: nat, id: string)
    requires n <= |ops|
  {
    exists i :: 0 <= i < n && ops[i].Approve? && ops[i].id == id && !EndedIn(ops, i + 1, n, id)
  }

  ghost predicate EndedIn(ops: seq<Op>, from: nat, n: nat, id: string)
    requires n <= |ops|
  {
    exists j :: from <= j < n && ((ops[j].Revoke? && ops[j].id == id) || ops[j].Clear?)
  }

  predicate ActiveId(s: Store, id: string)
    requires Valid(s)
  {
    id in s.table.vals && At(s, id).status == Active
  }

  lemma LoginMakesPending(cfg: Config, s: Store, op: Op, id: string)
    requires Valid(s) && cfg.approvalRequired && op.Login? && Valid(Step(cfg, s, op)) && ActiveId(Step(cfg, s, op), id)
    ensures ActiveId(s, id)
  {
    hide AtCapacity, Evict, LiveIds, Expired;
  }

  lemma CredentialOpsApprove(cfg: Config, s: Store, op: Op, id: string)
    requires Valid(s) && (op.Reissue? || op.Validate? || op.Stream? || op.Lookup?) && Valid(Step(cfg, s, op))
    requires ActiveId(Step(cfg, s, op), id)
    ensures ActiveId(s, id)
  {
    hide Expired;
  }

  /** In approval mode a step makes an id active only by approving it, and keeps it so only unrevoked. */
  lemma StepApproval(cfg: Config, s: Store, op: Op, id: string)
    requires Valid(s) && cfg.approvalRequired && !op.Hydrate? && Valid(Step(cfg, s, op)) &&
      ActiveId(Step(cfg, s, op), id)
    ensures (op.Approve? && op.id == id) || (ActiveId(s, id) && !(op.Revoke? && op.id == id) && !op.Clear?)
  {
    if op.Login? {
      LoginMakesPending(cfg, s, op, id);
    } else if op.Reissue? || op.Validate? || op.Stream? || op.Lookup? {
      CredentialOpsApprove(cfg, s, op, id);
    } else {
      hide Expired, Trim;
    }
  }

  lemma {:induction false} ActiveWasApproved(cfg: Config, states: seq<Store>, ops: seq<Op>, n: nat, id: string)
    requires Trace(cfg, states, ops) && cfg.approvalRequired && n <= |ops| && states[0].table.keys == []
    requires forall i :: 0 <= i < |ops| ==> !ops[i].Hydrate?
    requires ActiveId(states[n], id)
    ensures ApprovedIn(ops, n, id)
    decreases n
  {
    hide Step;
    assert id in states[n].table.keys;
    if n > 0 {
      var op := ops[n - 1];
      TraceStep(cfg, states, ops, n - 1);
      StepApproval(cfg, states[n - 1], op, id);
      if op.Approve? && op.id == id {
        ApprovedNow(ops, n, id);
      } else {
        ActiveWasApproved(cfg, states, ops, n - 1, id);
        ApprovalContinues(ops, n, id);
      }
    }
  }

  lemma ApprovedNow(ops: seq<Op>, n: nat, id: string)
    requires 0 < n <= |ops| && ops[n - 1].Approve? && ops[n - 1].id == id
    ensures ApprovedIn(ops, n, id)
  {
    assert !EndedIn(ops, n, n, id);
  }

  lemma ApprovalContinues(ops: seq<Op>, n: nat, id: string)
    requires 0 < n <= |ops| && ApprovedIn(ops, n - 1, id)
    requires !(ops[n - 1].Revoke? && ops[n - 1].id == id) && !ops[n - 1].Clear?
    ensures ApprovedIn(ops, n, id)
  {
    var i :| 0 <= i < n - 1 && ops[i].Approve? && ops[i].id == id && !EndedIn(ops, i + 1, n - 1, id);
    assert !EndedIn(ops, i + 1, n, id);
  }

  /** In approval mode, from an empty store that is never reloaded, a cookie validates only after an
      approval of its id that no revocation or clear has followed. */
  lemma ValidatesOnlyApproved(cfg: Config, states: seq<Store>, ops: seq<Op>, n: nat, cookie: string, at: int)
    requires Trace(cfg, states, ops) && cfg.approvalRequired && n <= |ops| && states[0].table.keys == []
    requires forall i :: 0 <= i < |ops| ==> !ops[i].Hydrate?
    requires IsActive(cfg, states[n], cookie, at)
    ensures DecodeCookie(cookie).Some? && ApprovedIn(ops, n, DecodeCookie(cookie).value.0)
  {
    ActiveWasApproved(cfg, states, ops, n, DecodeCookie(cookie).value.0);
  }

  /** A rejected record is never left for active. */
  lemma RejectedStays(cfg: Config, states: seq<Store>, ops: seq<Op>, i: nat, j: nat, ref: nat)
    requires Trace(cfg, states, ops) && i <= j <= |ops|
    requires ref < |states[i].objects| && states[i].objects[ref].status == Rejected
    ensures ref < |states[j].objects| && states[j].objects[ref].status == Rejected
  {
    RunEvolves(cfg, states, ops, i, j, ref);
  }

  /** In approval mode a login removes no unexpired active record. */
  lemma LoginSparesActive(cfg: Config, s: Store, op: Op, id: string)
    requires Valid(s) && cfg.approvalRequired && op.Login? && op.id != id
    requires id in s.table.vals && At(s, id).status == Active && !Expired(cfg, At(s, id), op.at)
    ensures Valid(Step(cfg, s, op)) && id in Step(cfg, s, op).table.vals && At(Step(cfg, s, op), id) == At(s, id)
  {
    StepValid(cfg, s, op);
  }

  // ----- capacity -----

  /** Live records: at most maxSessions in approval mode; without approval at most maxSessions, counting
      a single session even when the cap is zero. */
  ghost predicate WithinCapacity(cfg: Config, s: Store)
    requires Valid(s)
  {
    if cfg.approvalRequired then |Counted(s)| <= cfg.maxSessions
    else |s.table.keys| <= if cfg.maxSessions == 0 then 1 else cfg.maxSessions
  }

  lemma SmallerSet<T>(a: set<T>, b: set<T>)
    requires a <= b
    ensures |a| <= |b|
  {
    assert b == a + (b - a);
  }

  lemma TableSize(s: Store, t: Store)
    requires t.table.vals.Keys <= s.table.vals.Keys
    ensures |t.table.keys| <= |s.table.keys|
  {
    OM.CountIsKeys(s.table);
    OM.CountIsKeys(t.table);
    SmallerSet(t.table.vals.Keys, s.table.vals.Keys);
  }

  lemma {:induction false} InsertAllCount(s: Store, data: seq<Raw>, n: nat)
    requires Valid(s) && n <= |data| && s.table.keys == []
    ensures |InsertAll(s, data, n).table.keys| <= n
  {
    if n > 0 {
      InsertAllCount(s, data, n - 1);
    }
  }

  lemma SweepCounts(cfg: Config, s: Store, at: int)
    requires Valid(s)
    ensures Valid(Sweep(cfg, s, at)) && |Counted(Sweep(cfg, s, at))| <= |Counted(s)|
    ensures |Sweep(cfg, s, at).table.keys| <= |s.table.keys|
  {
    SweepValid(cfg, s, at);
    SmallerSet(Counted(Sweep(cfg, s, at)), Counted(s));
    TableSize(s, Sweep(cfg, s, at));
  }

  lemma InsertCounts(s: Store, r: Rec)
    requires Valid(s)
    ensures Valid(Insert(s, r)) && |Counted(Insert(s, r))| <= |Counted(s)| + 1
    ensures |Insert(s, r).table.keys| <= |s.table.keys| + 1
  {
    InsertValid(s, r);
    SmallerSet(Counted(Insert(s, r)), Counted(s) + {r.id});
  }

  lemma EvictCounts(cfg: Config, s: Store, except: string)
    requires Valid(s)
    ensures |Evict(cfg, s, except).table.keys| <= if cfg.maxSessions == 0 then 1 else cfg.maxSessions
  {
    EvictKeeps(cfg, s, except);
    var t := Evict(cfg, s, except);
    if |t.table.keys| > cfg.maxSessions {
      OM.CountIsKeys(t.table);
      SmallerSet(t.table.vals.Keys, {except});
    }
  }

  lemma LoginWithinCapacity(cfg: Config, s: Store, op: Op)
    requires Valid(s) && WithinCapacity(cfg, s) && op.Login?
    ensures Valid(Step(cfg, s, op)) && WithinCapacity(cfg, Step(cfg, s, op))
  {
    LoginValid(cfg, s, op);
    SweepCounts(cfg, s, op.at);
    if !AtCapacity(cfg, s, op.at) {
      var swept, r := Sweep(cfg, s, op.at), NewRecord(cfg, op.at, op.id, op.secret, op.deviceLabel, op.ip);
      InsertCounts(swept, r);
      if !cfg.approvalRequired {
        EvictCounts(cfg, Insert(swept, r), op.id);
      } else {
        assert Counted(Step(cfg, s, op)) == Counted(Insert(swept, r));
      }
    }
  }

  lemma HydrateWithinCapacity(cfg: Config, s: Store, op: Op)
    requires Valid(s) && op.Hydrate?
    ensures Valid(Step(cfg, s, op)) && WithinCapacity(cfg, Step(cfg, s, op))
  {
    HydrateValid(cfg, s, op);
    var t := Step(cfg, s, op);
    InsertAllCount(s.(table := OM.Empty()), op.data, Taken(cfg, op.data));
    OM.CountIsKeys(t.table);
    SmallerSet(Counted(t), t.table.vals.Keys);
  }

  /** The calls that make no objects only take ids out, and make no record count that did not. */
  lemma StepShrinks(cfg: Config, s: Store, op: Op)
    requires Valid(s) && !op.Login? && !op.Hydrate?
    ensures Valid(Step(cfg, s, op)) && Step(cfg, s, op).table.vals.Keys <= s.table.vals.Keys
    ensures Counted(Step(cfg, s, op)) <= Counted(s)
  {
    hide Step;
    StepValid(cfg, s, op);
    StepMakesNone(cfg, s, op);
    var t := Step(cfg, s, op);
    forall id | id in t.table.vals
      ensures id in s.table.vals && (At(t, id).status != Rejected ==> At(s, id).status != Rejected)
    {
      StepEvolves(cfg, s, op, t.table.vals[id]);
      assert Linked(t, t.table.vals[id]) && Linked(s, t.table.vals[id]);
    }
  }

  lemma StepWithinCapacity(cfg: Config, s: Store, op: Op)
    requires Valid(s) && WithinCapacity(cfg, s)
    ensures Valid(Step(cfg, s, op)) && WithinCapacity(cfg, Step(cfg, s, op))
  {
    if op.Login? {
      LoginWithinCapacity(cfg, s, op);
    } else if op.Hydrate? {
      HydrateWithinCapacity(cfg, s, op);
    } else {
      hide Step;
      StepShrinks(cfg, s, op);
      TableSize(s, Step(cfg, s, op));
      SmallerSet(Counted(Step(cfg, s, op)), Counted(s));
    }
  }

  lemma {:induction false} CapacityAlwaysHolds(cfg: Config, states: seq<Store>, ops: seq<Op>, n: nat)
    requires Trace(cfg, states, ops) && n <= |ops| && WithinCapacity(cfg, states[0])
    ensures WithinCapacity(cfg, states[n])
    decreases n
  {
    hide Step;
    if n > 0 {
      CapacityAlwaysHolds(cfg, states, ops, n - 1);
      TraceStep(cfg, states, ops, n - 1);
      StepWithinCapacity(cfg, states[n - 1], ops[n - 1]);
    }
  }

  // ----- persistence -----

  /** Stored addresses and labels have the lengths hydrate() accepts. */
  predicate Storable(r: Rec) {
    |r.deviceLabel| <= 128
    && (r.createdIp.Some? ==> 0 < |r.createdIp.value| <= 64) && (r.lastSeenIp.Some? ==> 0 < |r.lastSeenIp.value| <= 64)
  }

  ghost predicate DistinctIds(records: seq<Rec>) {
    forall i, j :: 0 <= i < j < |records| ==> records[i].id != records[j].id
  }

  /** The Map lists exactly the first n of these records, in order. */
  ghost predicate Holds(t: Store, records: seq<Rec>, n: nat)
    requires n <= |records|
  {
    && Valid(t) && |t.table.keys| == n
    && forall i :: 0 <= i < n ==> t.table.keys[i] == records[i].id && t.table.keys[i] in t.table.vals
                                  && At(t, t.table.keys[i]) == records[i]
  }

  lemma InsertHolds(t: Store, records: seq<Rec>, n: nat)
    requires n < |records| && Holds(t, records, n) && DistinctIds(records)
    ensures Holds(Insert(t, records[n]), records, n + 1)
  {
    var r := records[n];
    InsertValid(t, r);
    forall i | 0 <= i < n ensures t.table.keys[i] != r.id {
      assert t.table.keys[i] == records[i].id;
    }
    assert r.id !in t.table.keys;
    assert Insert(t, r).table.keys == t.table.keys + [r.id];
    assert Insert(t, r).objects == t.objects + [r];
  }

  lemma {:induction false} InsertAllRestores(s: Store, records: seq<Rec>, n: nat)
    requires Valid(s) && s.table.keys == [] && DistinctIds(records) && n <= |records|
    requires forall i :: 0 <= i < |records| ==> Storable(records[i]) && records[i].status != Rejected
    ensures Holds(InsertAll(s, ToRaws(records), n), records, n)
    decreases n
  {
    if n > 0 {
      InsertAllRestores(s, records, n - 1);
      var last := records[n - 1];
      assert Acceptable(ToRaw(last)) && FromRaw(ToRaw(last)) == last;
      InsertHolds(InsertAll(s, ToRaws(records), n - 1), records, n - 1);
    }
  }

  lemma DistinctAppend(records: seq<Rec>, r: Rec)
    requires DistinctIds(records) && forall i :: 0 <= i < |records| ==> records[i].id != r.id
    ensures DistinctIds(records + [r])
  {
  }

  lemma {:induction false} NotRejectedDistinct(records: seq<Rec>, n: nat)
    requires DistinctIds(records) && n <= |records|
    ensures DistinctIds(NotRejected(records, n))
  {
    if n > 0 {
      NotRejectedDistinct(records, n - 1);
      var init := NotRejected(records, n - 1);
      forall i | 0 <= i < |init| ensures init[i].id != records[n - 1].id {
        assert init[i] in records[..n - 1];
        var j :| 0 <= j < n - 1 && records[j] == init[i];
        assert records[j].id != records[n - 1].id;
      }
      DistinctAppend(init, records[n - 1]);
    }
  }

  /** Records with different ids are no more than the ids they draw from. */
  lemma {:induction false} CountByIds(records: seq<Rec>, ids: set<string>)
    requires DistinctIds(records) && forall i :: 0 <= i < |records| ==> records[i].id in ids
    ensures |records| <= |ids|
    decreases |records|
  {
    if records != [] {
      var n := |records| - 1;
      CountByIds(records[..n], ids - {records[n].id});
    }
  }

  lemma RecordsDistinct(s: Store)
    requires Valid(s)
    ensures DistinctIds(Records(s)) && DistinctIds(LiveRecords(s))
  {
    forall i, j | 0 <= i < j < |s.table.keys| ensures Records(s)[i].id != Records(s)[j].id {
      assert s.table.keys[i] in s.table.keys && s.table.keys[j] in s.table.keys;
    }
    NotRejectedDistinct(Records(s), |s.table.keys|);
  }

  /** A live record is found under its id. */
  lemma LiveIsLinked(s: Store, r: Rec)
    requires Valid(s) && r in LiveRecords(s)
    ensures r.id in s.table.vals && At(s, r.id) == r && r.id in Counted(s)
  {
    assert r in Records(s);
    var j :| 0 <= j < |Records(s)| && Records(s)[j] == r;
    assert s.table.keys[j] in s.table.keys;
  }

  lemma SerializedFits(cfg: Config, s: Store, at: int)
    requires Valid(s) && WithinCapacity(cfg, s) && (cfg.maxSessions > 0 || cfg.approvalRequired)
    ensures |Serialized(cfg, s, at)| <= cfg.maxSessions
  {
    SweepCounts(cfg, s, at);
    var swept := Sweep(cfg, s, at);
    var live := LiveRecords(swept);
    RecordsDistinct(swept);
    forall i | 0 <= i < |live| ensures live[i].id in Counted(swept) {
      LiveIsLinked(swept, live[i]);
    }
    CountByIds(live, Counted(swept));
    SmallerSet(Counted(s), s.table.vals.Keys);
    OM.CountIsKeys(s.table);
  }

  /** In any state: reloading restores exactly the live unexpired records, in order, if and only if there are no
      more of them than maxSessions; hydrate reads no further. */
  lemma HydrateRestoresIff(cfg: Config, s: Store, at: int, other: Store)
    requires Valid(s) && Valid(other) && forall id :: id in s.table.vals ==> Storable(At(s, id))
    ensures Valid(Sweep(cfg, s, at)) && Valid(AfterHydrate(cfg, other, Serialized(cfg, s, at)))
    ensures Records(AfterHydrate(cfg, other, Serialized(cfg, s, at))) == LiveRecords(Sweep(cfg, s, at))
            <==> |LiveRecords(Sweep(cfg, s, at))| <= cfg.maxSessions
  {
    SweepValid(cfg, s, at);
    var swept := Sweep(cfg, s, at);
    var live := LiveRecords(swept);
    RecordsDistinct(swept);
    forall i | 0 <= i < |live| ensures Storable(live[i]) && live[i].status != Rejected {
      LiveIsLinked(swept, live[i]);
    }
    InsertAllRestores(other.(table := OM.Empty()), live, Taken(cfg, ToRaws(live)));
  }

  /** Reloading what was serialized restores exactly the live unexpired records, in order. */
  lemma HydrateRestores(cfg: Config, s: Store, at: int, other: Store)
    requires Valid(s) && Valid(other) && WithinCapacity(cfg, s) && (cfg.maxSessions > 0 || cfg.approvalRequired)
    requires forall id :: id in s.table.vals ==> Storable(At(s, id))
    ensures Valid(Sweep(cfg, s, at)) && Valid(AfterHydrate(cfg, other, Serialized(cfg, s, at)))
    ensures Records(AfterHydrate(cfg, other, Serialized(cfg, s, at))) == LiveRecords(Sweep(cfg, s, at))
  {
    SerializedFits(cfg, s, at);
    HydrateRestoresIff(cfg, s, at, other);
  }

  lemma {:induction false} NotRejectedHas(records: seq<Rec>, n: nat, r: Rec)
    requires n <= |records| && r in records[..n] && r.status != Rejected
    ensures r in NotRejected(records, n)
  {
    assert records[..n] == records[..n - 1] + [records[n - 1]];
    if r != records[n - 1] {
      NotRejectedHas(records, n - 1, r);
    }
  }

  lemma RecordsHas(s: Store, r: Rec)
    requires Valid(s)
    ensures r in Records(s) <==> r.id in s.table.vals && At(s, r.id) == r
  {
    if r in Records(s) {
      var j :| 0 <= j < |Records(s)| && Records(s)[j] == r;
      assert s.table.keys[j] in s.table.keys;
    } else if r.id in s.table.vals {
      assert r.id in s.table.keys;
      var j :| 0 <= j < |s.table.keys| && s.table.keys[j] == r.id;
      assert Records(s)[j] in Records(s);
    }
  }

  /** A store that holds the live unexpired records of another accepts the same cookies from then on. */
  lemma RestoredCookies(cfg: Config, s: Store, t: Store, at: int, cookie: string, later: int)
    requires Valid(s) && Valid(t) && Valid(Sweep(cfg, s, at)) && at <= later
    requires Records(t) == LiveRecords(Sweep(cfg, s, at))
    ensures IsActive(cfg, t, cookie, later) <==> IsActive(cfg, s, cookie, later)
  {
    hide LiveRecords, Records;
    var swept := Sweep(cfg, s, at);
    if IsActive(cfg, t, cookie, later) {
      var r := t.objects[Find(t, cookie).value];
      RecordsHas(t, r);
      LiveIsLinked(swept, r);
    }
    if IsActive(cfg, s, cookie, later) {
      var r := s.objects[Find(s, cookie).value];
      LinkedIsLive(swept, r);
      RecordsHas(t, r);
    }
  }

  lemma LinkedIsLive(s: Store, r: Rec)
    requires Valid(s) && r.id in s.table.vals && At(s, r.id) == r && r.status != Rejected
    ensures r in LiveRecords(s)
  {
    RecordsHas(s, r);
    assert Records(s)[..|s.table.keys|] == Records(s);
    NotRejectedHas(Records(s), |s.table.keys|, r);
  }
}
