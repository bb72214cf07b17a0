/** The devices over whole runs of the runtime: what an operation does to them is a series of the session store's own
    calls, so that they stay within the cap; and what a failed write means for a device that signs out meanwhile. */
module RuntimeSessions {
  import opened Text
  import OM = OrderedMap
  import Sessions
  import SessionRuns
  import opened Runtime

  // ----- every operation is a series of calls -----

  lemma {:induction false} OpsConcat(cfg: Sessions.Config, s: Store, a: seq<Sessions.Op>, b: seq<Sessions.Op>)
    ensures Ops(cfg, s, a + b) == Ops(cfg, Ops(cfg, s, a), b)
    decreases |b|
  {
    if b == [] {
      assert a + b == a;
    } else {
      var n := |b| - 1;
      OpsConcat(cfg, s, a, b[..n]);
      assert (a + b)[..|a + b| - 1] == a + b[..n];
    }
  }

  ghost predicate Reached(cfg: Config, s: Store, t: Store) {
    exists ops :: Ops(cfg.sessions, s, ops) == t
  }

  lemma ReachedBy(cfg: Config, s: Store, ops: seq<Sessions.Op>)
    ensures Reached(cfg, s, Ops(cfg.sessions, s, ops))
  {
  }

  lemma ReachedOn(cfg: Config, s: Store, t: Store, u: Store)
    requires Reached(cfg, s, t) && Reached(cfg, t, u)
    ensures Reached(cfg, s, u)
  {
    var a :| Ops(cfg.sessions, s, a) == t;
    var b :| Ops(cfg.sessions, t, b) == u;
    OpsConcat(cfg.sessions, s, a, b);
  }

  lemma OneCall(cfg: Config, s: Store, op: Sessions.Op)
    ensures Sessions.Valid(Sessions.Step(cfg.sessions, s, op)) && Reached(cfg, s, Sessions.Step(cfg.sessions, s, op))
  {
    SessionRuns.StepValid(cfg.sessions, s, op);
    hide Sessions.Step;
    assert [op][..0] == [];
    assert Ops(cfg.sessions, s, []) == s;
    assert Ops(cfg.sessions, s, [op]) == Sessions.Step(cfg.sessions, s, op);
  }

  lemma Calls(cfg: Config, s: Store, at: int, data: seq<Sessions.Raw>)
    ensures Reached(cfg, s, s) && Reached(cfg, s, Swept(cfg, s, at)) && Reached(cfg, s, Hydrated(cfg, s, data)) &&
      Reached(cfg, s, Cleared(s))
  {
    ReachedBy(cfg, s, []);
    OneCall(cfg, s, Sessions.Serialize(at));
    OneCall(cfg, s, Sessions.Hydrate(data));
    OneCall(cfg, s, Sessions.Clear);
    hide Reached;
  }

  lemma SaveReached(cfg: Config, r: State, w: Write)
    ensures Reached(cfg, r.store, AfterSave(cfg, r, w).store)
  {
    Calls(cfg, r.store, w.at, []);
    hide Reached, Swept, Sessions.Serialized;
  }

  /** A first load finds no device before it. */
  lemma LoadReached(cfg: Config, r: State, e: Read)
    requires r.memory.None? ==> r.store == NoSessions()
    ensures Reached(cfg, r.store, AfterLoad(cfg, r, e).store) && Reached(cfg, r.store, AfterGlance(cfg, r, e).store)
  {
    hide AfterSave, Reached, Swept, Hydrated, Sessions.Serialized;
    Calls(cfg, r.store, e.write.at, if r.disk.Stored? then r.disk.file.sessions else []);
    Calls(cfg, r.store, e.write.at, []);
    var l := Loaded(cfg, r, e);
    if r.memory.None? {
      assert Reached(cfg, r.store, l.store);
      Calls(cfg, l.store, e.write.at, []);
      SaveReached(cfg, l, e.write);
      ReachedOn(cfg, r.store, l.store, AfterSave(cfg, l, e.write).store);
      ReachedOn(cfg, r.store, l.store, Swept(cfg, l.store, e.write.at));
    }
  }

  lemma StartReached(cfg: Config, r: State, e: Up)
    requires r.memory.Some?
    ensures Reached(cfg, r.store, AfterStart(cfg, r, e).state.store)
  {
    ReachedBy(cfg, r.store, []);
    hide AfterSave, Reached;
    if e.listener.Some? {
      SaveReached(cfg, Meanwhile(Bound(cfg, if e.early then AfterLanding(r, false) else r, e.listener.value), e.late),
                  e.write);
    }
  }

  lemma StopDisposeReached(cfg: Config, r: State, d: Down, w: Write)
    ensures r.memory.Some? ==> Reached(cfg, r.store, AfterStop(cfg, r, d, w).state.store)
    ensures Reached(cfg, r.store, AfterDispose(cfg, r, d, w).state.store)
  {
    ReachedBy(cfg, r.store, []);
    hide AfterSave, Reached;
    if r.memory.Some? {
      SaveReached(cfg, SetMemory(AfterTeardown(r, d), r.memory.value.(enabled := false)).(failure := None), w);
    }
    SaveReached(cfg, AfterTeardown(r.(disposed := true), d), w);
  }

  lemma TrafficReached(cfg: Config, r: State, t: Traffic)
    ensures Reached(cfg, r.store, AfterTraffic(cfg, r, t).store)
  {
    ReachedBy(cfg, r.store, t.ops);
  }

  lemma RotatedReached(cfg: Config, r: State, e: Rotation)
    requires r.memory.Some?
    ensures Reached(cfg, r.store, AfterTraffic(cfg, r.(store := Swept(cfg, r.store, e.at)), e.closing).store)
    ensures Reached(cfg, r.store, Rotated(cfg, r, e).store)
  {
    hide Reached, Swept, Ops, Cleared;
    var swept := r.(store := Swept(cfg, r.store, e.at));
    var closed := AfterTraffic(cfg, swept, e.closing).store;
    Calls(cfg, r.store, e.at, []);
    TrafficReached(cfg, swept, e.closing);
    ReachedOn(cfg, r.store, swept.store, closed);
    Calls(cfg, closed, e.at, []);
    ReachedOn(cfg, r.store, closed, Cleared(closed));
  }

  lemma RotateReached(cfg: Config, r: State, e: Rotation)
    requires r.memory.Some?
    ensures Reached(cfg, r.store, AfterRotate(cfg, r, e).state.store)
  {
    hide Reached, AfterSave, AfterStart, Rotated, Swept, Hydrated, Ops, Events, Sessions.Serialized;
    RotatedReached(cfg, r, e);
    if GoesDown(r, e.down) {
      var rotated := Rotated(cfg, r, e);
      var saved := AfterSave(cfg, rotated, e.write);
      var written := AfterTraffic(cfg, saved, e.writing);
      SaveReached(cfg, rotated, e.write);
      TrafficReached(cfg, saved, e.writing);
      ReachedOn(cfg, r.store, rotated.store, saved.store);
      ReachedOn(cfg, r.store, saved.store, written.store);
      var previous := Sessions.Serialized(cfg.sessions, r.store, e.at);
      Calls(cfg, written.store, e.at, previous);
      ReachedOn(cfg, r.store, written.store, Hydrated(cfg, written.store, previous));
      assert written.memory.Some? by { RotatedMemory(cfg, r, e); }
      StartReached(cfg, written, e.up);
      ReachedOn(cfg, r.store, written.store, AfterStart(cfg, written, e.up).state.store);
    }
  }

  lemma RotatedMemory(cfg: Config, r: State, e: Rotation)
    requires r.memory.Some?
    ensures Rotated(cfg, r, e).memory.Some?
  {
    hide Swept, Ops, Events, Cleared;
  }

  lemma SetListenReached(cfg: Config, r: State, host: string, port: Option<int>, e: Change)
    requires Inv(r) && r.memory.Some?
    ensures Reached(cfg, r.store, AfterSetListen(cfg, r, host, port, e).state.store)
  {
    ReachedBy(cfg, r.store, []);
    hide Reached, AfterSave, AfterStart, AfterRollback, Trim;
    if ValidListen(host, port) {
      var changed := SetOverride(r, Some(Trim(host)), port).(failure := None);
      SaveKeeps(cfg, changed, e.write);
      SaveReached(cfg, changed, e.write);
      var down := AfterTeardown(AfterSave(cfg, changed, e.write), e.down);
      if Writes(changed, e.write) {
        var up := AfterStart(cfg, down, e.up).state;
        StartReached(cfg, down, e.up);
        ReachedOn(cfg, r.store, down.store, up.store);
        RollbackReached(cfg, up, Listen(cfg, r), e);
        ReachedOn(cfg, r.store, up.store, AfterRollback(cfg, up, Listen(cfg, r), e).state.store);
      }
    }
  }

  lemma RollbackReached(cfg: Config, r: State, previous: Address, e: Change)
    requires r.memory.Some?
    ensures Reached(cfg, r.store, AfterRollback(cfg, r, previous, e).state.store)
  {
    hide Reached, AfterSave, AfterStart;
    var undone := SetOverride(Meanwhile(r, e.late), Some(previous.host), Some(previous.port));
    var saved := AfterSave(cfg, undone, e.undo);
    SaveReached(cfg, undone, e.undo);
    StartReached(cfg, saved, e.again);
    ReachedOn(cfg, r.store, saved.store, AfterStart(cfg, saved, e.again).state.store);
  }

  lemma MutateReached(cfg: Config, r: State, op: Sessions.Op, at: int, w: Write, writing: Traffic)
    requires r.memory.Some?
    ensures Reached(cfg, r.store, AfterMutate(cfg, r, op, at, w, writing).state.store)
  {
    hide Reached, AfterSave, Swept, Hydrated, Ops, Events, Sessions.Serialized, Applies;
    var swept := r.(store := Swept(cfg, r.store, at));
    var changed := swept.(store := Ops(cfg.sessions, swept.store, [op]));
    var saved := AfterSave(cfg, changed, w);
    var written := AfterTraffic(cfg, saved, writing);
    var previous := Sessions.Serialized(cfg.sessions, r.store, at);
    Calls(cfg, r.store, at, []);
    ReachedBy(cfg, swept.store, [op]);
    SaveReached(cfg, changed, w);
    TrafficReached(cfg, saved, writing);
    Calls(cfg, written.store, at, previous);
    ReachedOn(cfg, r.store, swept.store, changed.store);
    ReachedOn(cfg, r.store, changed.store, saved.store);
    ReachedOn(cfg, r.store, saved.store, written.store);
    ReachedOn(cfg, r.store, written.store, Hydrated(cfg, written.store, previous));
  }

  /** Before the first load there is no device. */
  predicate Unloaded(r: State) {
    r.memory.None? ==> r.store == NoSessions()
  }

  /** The operations that load first go on from the loaded state. */
  predicate Loads(e: Event) {
    e.Start? || e.Restore? || e.Stop? || e.Rotate? || e.SetListen? || e.Mutate?
  }

  lemma LoadsFirst(cfg: Config, r: State, e: Event)
    requires Loads(e)
    ensures StepResult(cfg, r, e) == StepResult(cfg, AfterLoad(cfg, r, e.read), e)
  {
    hide AfterSave, Loaded, AfterStart, AfterStop, AfterRotate, AfterSetListen, AfterMutate;
  }

  lemma LoadedStepReached(cfg: Config, r: State, e: Event)
    requires Inv(r) && r.memory.Some? && Loads(e)
    ensures Reached(cfg, r.store, Step(cfg, r, e).store)
  {
    ReachedBy(cfg, r.store, []);
    hide Inv, AfterStart, AfterStop, AfterRotate, AfterSetListen, AfterMutate, Reached;
    match e
    case Start(_, up) => StartReached(cfg, r, up);
    case Restore(_, _, up) => StartReached(cfg, r, up);
    case Stop(_, down, write) => StopDisposeReached(cfg, r, down, write);
    case Rotate(_, rotation) => RotateReached(cfg, r, rotation);
    case SetListen(_, host, port, change) => SetListenReached(cfg, r, host, port, change);
    case Mutate(_, op, at, write, writing) => MutateReached(cfg, r, op, at, write, writing);
  }

  lemma StepReached(cfg: Config, r: State, e: Event)
    requires Inv(r) && Unloaded(r)
    ensures Unloaded(Step(cfg, r, e)) && Reached(cfg, r.store, Step(cfg, r, e).store)
  {
    if Loads(e) {
      hide AfterLoad, Loads, Inv, Persisted, StepResult, Reached;
      var l := AfterLoad(cfg, r, e.read);
      LoadReached(cfg, r, e.read);
      LoadKeeps(cfg, r, e.read);
      LoadsFirst(cfg, r, e);
      StaysLoaded(cfg, l, e);
      LoadedStepReached(cfg, l, e);
      ReachedOn(cfg, r.store, l.store, Step(cfg, r, e).store);
    } else {
      ReachedBy(cfg, r.store, []);
      QuietStep(cfg, r, e);
      hide Inv, Unloaded, AfterLoad, AfterGlance, AfterSave, AfterDispose, AfterTraffic, Reached;
      match e
      case Status(read) => LoadReached(cfg, r, read);
      case Glance(read) => LoadReached(cfg, r, read);
      case Landing(_) =>
      case Flush(write) => SaveReached(cfg, r, write);
      case Requests(traffic) => TrafficReached(cfg, r, traffic);
      case Dispose(down, write) => StopDisposeReached(cfg, r, down, write);
    }
  }

  lemma QuietStep(cfg: Config, r: State, e: Event)
    requires !Loads(e) && Unloaded(r)
    ensures Unloaded(Step(cfg, r, e))
  {
    hide Swept, Hydrated, Sessions.Serialized, Ops, Events;
  }

  lemma {:induction false} RunReached(cfg: Config, states: seq<State>, events: seq<Event>, t: nat)
    requires Trace(cfg, states, events) && t < |states|
    ensures Unloaded(states[t]) && Reached(cfg, NoSessions(), states[t].store)
  {
    if t == 0 {
      ReachedBy(cfg, NoSessions(), []);
    } else {
      hide Step, Reached;
      RunReached(cfg, states, events, t - 1);
      InvAlways(cfg, states, events, t - 1);
      StepReached(cfg, states[t - 1], events[t - 1]);
      assert states[t - 1 + 1] == Step(cfg, states[t - 1], events[t - 1]);
      ReachedOn(cfg, NoSessions(), states[t - 1].store, states[t].store);
    }
  }

  /** Whatever the runtime does, its devices are what a run of the session store leaves: everything proved of those
      runs holds of the plugin's. */
  lemma DevicesAreRun(cfg: Config, states: seq<State>, events: seq<Event>, t: nat)
    returns (stores: seq<Sessions.Store>, ops: seq<Sessions.Op>)
    requires Trace(cfg, states, events) && t < |states|
    ensures SessionRuns.Trace(cfg.sessions, stores, ops)
    ensures stores[0] == NoSessions() && stores[|ops|] == states[t].store
  {
    RunReached(cfg, states, events, t);
    ops :| Ops(cfg.sessions, NoSessions(), ops) == states[t].store;
    stores := OpsTrace(cfg, NoSessions(), ops);
  }

  lemma {:induction false} OpsTrace(cfg: Config, s: Store, ops: seq<Sessions.Op>) returns (stores: seq<Sessions.Store>)
    ensures SessionRuns.Trace(cfg.sessions, stores, ops)
    ensures stores[0] == s && stores[|ops|] == Ops(cfg.sessions, s, ops)
    decreases |ops|
  {
    if ops == [] {
      stores := [s];
    } else {
      var n := |ops| - 1;
      var before := OpsTrace(cfg, s, ops[..n]);
      SessionRuns.TraceExtends(cfg.sessions, before, ops[..n], ops[n]);
      assert ops[..n] + [ops[n]] == ops;
      stores := before + [Sessions.Step(cfg.sessions, before[n], ops[n])];
      hide Sessions.Step;
    }
  }

  /** The cap on the devices holds at every moment of every run. */
  lemma DevicesWithinCapacity(cfg: Config, states: seq<State>, events: seq<Event>, t: nat)
    requires Trace(cfg, states, events) && t < |states|
    ensures SessionRuns.WithinCapacity(cfg.sessions, states[t].store)
  {
    var stores, ops := DevicesAreRun(cfg, states, events, t);
    assert Sessions.Counted(NoSessions()) == {};
    SessionRuns.CapacityAlwaysHolds(cfg.sessions, stores, ops, |ops|);
  }

  lemma ReachedWithin(cfg: Config, s: Store, t: Store)
    requires Reached(cfg, s, t) && SessionRuns.WithinCapacity(cfg.sessions, s)
    ensures SessionRuns.WithinCapacity(cfg.sessions, t)
  {
    var ops :| Ops(cfg.sessions, s, ops) == t;
    var stores := OpsTrace(cfg, s, ops);
    SessionRuns.CapacityAlwaysHolds(cfg.sessions, stores, ops, |ops|);
  }

  // ----- writes that fail -----

  /** hydrate() accepts every record of the table. */
  ghost predicate AllStorable(s: Store) {
    forall id :: id in s.table.vals ==> SessionRuns.Storable(Sessions.At(s, id))
  }

  /** The state an operation of a run starts from. */
  lemma LoadedState(cfg: Config, states: seq<State>, events: seq<Event>, i: nat) returns (l: State)
    requires Trace(cfg, states, events) && i < |events| && Loads(events[i])
    ensures l == AfterLoad(cfg, states[i], events[i].read) && Inv(l) && l.memory.Some?
    ensures states[i + 1] == Step(cfg, l, events[i])
    ensures StepResult(cfg, states[i], events[i]) == StepResult(cfg, l, events[i])
    ensures SessionRuns.WithinCapacity(cfg.sessions, l.store)
  {
    hide StepResult, AfterLoad, Reached, SessionRuns.WithinCapacity;
    l := AfterLoad(cfg, states[i], events[i].read);
    InvAlways(cfg, states, events, i);
    RunReached(cfg, states, events, i);
    DevicesWithinCapacity(cfg, states, events, i);
    LoadKeeps(cfg, states[i], events[i].read);
    LoadReached(cfg, states[i], events[i].read);
    ReachedWithin(cfg, states[i].store, l.store);
    LoadsFirst(cfg, states[i], events[i]);
  }

  /** A rotation, or an owner's action that applies, whose new state does not reach the disk. */
  predicate FailsToWrite(cfg: Config, l: State, e: Event) {
    match e
    case Rotate(_, rotation) => GoesDown(l, rotation.down) && !Rotates(l, rotation)
    case Mutate(_, op, at, write, _) => Applies(Swept(cfg, l.store, at), op) && !Writes(l, write)
    case _ => false
  }

  /** When the operation took down what it would restore. */
  function NotedAt(e: Event): int
    requires e.Rotate? || e.Mutate?
  {
    if e.Rotate? then e.rotation.at else e.at
  }

  /** In every run such an operation throws and is undone: memory and file are as it found them, and the devices are
      exactly the live unexpired ones, whatever device traffic got in meanwhile. That there is room for all of them
      is no assumption: the cap holds in every run. */
  lemma FailedWriteUndone(cfg: Config, states: seq<State>, events: seq<Event>, i: nat)
    requires Trace(cfg, states, events) && i < |events| && Loads(events[i])
    requires cfg.sessions.maxSessions > 0 || cfg.sessions.approvalRequired
    requires FailsToWrite(cfg, AfterLoad(cfg, states[i], events[i].read), events[i])
    requires AllStorable(AfterLoad(cfg, states[i], events[i].read).store)
    ensures var l := AfterLoad(cfg, states[i], events[i].read);
      && StepResult(cfg, states[i], events[i]).threw
      && states[i + 1].memory == l.memory && states[i + 1].disk == l.disk && states[i + 1].blocked
      && Sessions.Records(states[i + 1].store) == Sessions.LiveRecords(Swept(cfg, l.store, NotedAt(events[i])))
  {
    var l := LoadedState(cfg, states, events, i);
    hide AfterLoad, AfterRotate, AfterMutate, Inv, SessionRuns.WithinCapacity, Swept, Sessions.Records,
      Sessions.LiveRecords, Rotates, Applies;
    match events[i]
    case Rotate(_, rotation) => FailedRotationUndone(cfg, l, rotation);
    case Mutate(_, op, at, write, writing) => FailedMutationUndone(cfg, l, op, at, write, writing);
  }

  /** So after it every cookie is good for what it was before, a device's that has signed out meanwhile included. */
  lemma FailedWriteRestoresCookies(cfg: Config, states: seq<State>, events: seq<Event>, i: nat, cookie: string,
                                   later: int)
    requires Trace(cfg, states, events) && i < |events| && Loads(events[i])
    requires cfg.sessions.maxSessions > 0 || cfg.sessions.approvalRequired
    requires FailsToWrite(cfg, AfterLoad(cfg, states[i], events[i].read), events[i])
    requires AllStorable(AfterLoad(cfg, states[i], events[i].read).store) && NotedAt(events[i]) <= later
    ensures Sessions.IsActive(cfg.sessions, states[i + 1].store, cookie, later)
       <==> Sessions.IsActive(cfg.sessions, AfterLoad(cfg, states[i], events[i].read).store, cookie, later)
  {
    hide AfterLoad, Rotates, Applies, Sessions.IsActive, Sessions.Records, Sessions.LiveRecords, Step;
    FailedWriteUndone(cfg, states, events, i);
    var l := AfterLoad(cfg, states[i], events[i].read);
    SessionRuns.RestoredCookies(cfg.sessions, l.store, states[i + 1].store, NotedAt(events[i]), cookie, later);
  }

  // ----- signing out -----

  /** A device signs out by the k-th of these calls: its cookie is good, it alone bears the secret, and the call
      revokes its id; no later one hands the secret out again. */
  ghost predicate SignsOut(cfg: Config, s: Store, ops: seq<Sessions.Op>, k: nat, cookie: string) {
    && k < |ops| && ops[k].Revoke? && Sessions.DecodeCookie(cookie) == Some((ops[k].id, SecretOf(cookie)))
    && Sessions.IsActive(cfg.sessions, Ops(cfg.sessions, s, ops[..k]), cookie, ops[k].at)
    && OnlyBearer(Ops(cfg.sessions, s, ops[..k]), ops[k].id, SecretOf(cookie))
    && forall j :: k < j < |ops| ==> !Issues(ops[j], SecretOf(cookie))
  }

  ghost predicate OnlyBearer(s: Store, id: string, secret: string) {
    forall other :: other in s.table.vals && other != id ==>
      Sessions.At(s, other).secretHash != Sessions.Digest(secret)
  }

  lemma RevokedSecret(cfg: Config, s: Store, at: int, id: string, cookie: string)
    requires Sessions.DecodeCookie(cookie) == Some((id, SecretOf(cookie)))
    requires Sessions.IsActive(cfg.sessions, s, cookie, at) && OnlyBearer(s, id, SecretOf(cookie))
    ensures var t := Sessions.Step(cfg.sessions, s, Sessions.Revoke(at, id));
      Sessions.Valid(t) && NoSecret(t, SecretOf(cookie))
  {
    SessionRuns.StepValid(cfg.sessions, s, Sessions.Revoke(at, id));
  }

  lemma SignedOut(cfg: Config, s: Store, ops: seq<Sessions.Op>, k: nat, cookie: string)
    requires SignsOut(cfg, s, ops, k, cookie)
    ensures NoSecret(Ops(cfg.sessions, s, ops), SecretOf(cookie))
  {
    hide Sessions.IsActive, NoSecret, OnlyBearer, Issues, Sessions.DecodeCookie, SecretOf, Sessions.Step;
    var before := Ops(cfg.sessions, s, ops[..k]);
    RevokedSecret(cfg, before, ops[k].at, ops[k].id, cookie);
    assert ops[..k + 1][..k] == ops[..k];
    assert ops[..k + 1] + ops[k + 1..] == ops;
    OpsConcat(cfg.sessions, s, ops[..k + 1], ops[k + 1..]);
    OpsNoSecret(cfg, Ops(cfg.sessions, s, ops[..k + 1]), ops[k + 1..], SecretOf(cookie));
  }

  /** The events from i up to j do not hand the secret out. */
  ghost predicate AllSpare(events: seq<Event>, i: nat, j: nat, secret: string) {
    forall k :: i <= k < j && k < |events| ==> EventSpares(events[k], secret, None)
  }

  /** A secret no device bears is never accepted again in the run, unless it is handed out anew. */
  lemma SecretGone(cfg: Config, states: seq<State>, events: seq<Event>, i: nat, j: nat, cookie: string, at: int)
    requires Trace(cfg, states, events) && i <= j < |states| && states[i].memory.Some?
    requires NoSecret(states[i].store, SecretOf(cookie)) && AllSpare(events, i, j, SecretOf(cookie))
    ensures !Sessions.IsActive(cfg.sessions, states[j].store, cookie, at)
  {
    hide Step, NoSecret, EventSpares, Sessions.IsActive;
    CleanFrom(cfg, states, events, i, j, SecretOf(cookie), None);
    NoSecretNoCookie(cfg, states[j].store, cookie, at);
  }

  /** A device that signs out between the operations is out for the rest of the run. */
  lemma SignOutIsFinal(cfg: Config, states: seq<State>, events: seq<Event>, i: nat, j: nat, k: nat, cookie: string,
                       at: int)
    requires Trace(cfg, states, events) && i < j < |states| && states[i].memory.Some? && events[i].Requests?
    requires SignsOut(cfg, states[i].store, events[i].traffic.ops, k, cookie)
    requires AllSpare(events, i + 1, j, SecretOf(cookie))
    ensures !Sessions.IsActive(cfg.sessions, states[j].store, cookie, at)
  {
    hide SignsOut, NoSecret, AllSpare, Sessions.IsActive, Ops, Events;
    SignedOut(cfg, states[i].store, events[i].traffic.ops, k, cookie);
    assert states[i + 1] == Step(cfg, states[i], events[i]);
    SecretGone(cfg, states, events, i + 1, j, cookie, at);
  }

  /** The devices while an owner's action is written. */
  function WhileWritten(cfg: Config, l: State, e: Event): Store
    requires e.Mutate?
  {
    var swept := l.(store := Swept(cfg, l.store, e.at));
    AfterSave(cfg, swept.(store := Ops(cfg.sessions, swept.store, [e.op])), e.write).store
  }

  /** When is a device that signs out while an owner's action is being written out for good? Exactly when that write
      succeeds: a failed one brings back every device there was when the action began. */
  lemma SignOutFinalIff(cfg: Config, states: seq<State>, events: seq<Event>, i: nat, k: nat, cookie: string, later: int)
    requires Trace(cfg, states, events) && i < |events| && events[i].Mutate?
    requires cfg.sessions.maxSessions > 0 || cfg.sessions.approvalRequired
    requires var l := AfterLoad(cfg, states[i], events[i].read);
      && AllStorable(l.store) && Applies(Swept(cfg, l.store, events[i].at), events[i].op)
      && SignsOut(cfg, WhileWritten(cfg, l, events[i]), events[i].writing.ops, k, cookie)
      && Sessions.IsActive(cfg.sessions, l.store, cookie, later) && events[i].at <= later
    requires AllSpare(events, i + 1, |events|, SecretOf(cookie))
    ensures (forall j :: i < j < |states| ==> !Sessions.IsActive(cfg.sessions, states[j].store, cookie, later))
       <==> Writes(AfterLoad(cfg, states[i], events[i].read), events[i].write)
  {
    hide AfterLoad, AfterMutate, SignsOut, NoSecret, AllSpare, Sessions.IsActive, AllStorable, Applies, Swept, Ops,
      WhileWritten, Step, StepResult, Inv, SessionRuns.WithinCapacity;
    var e := events[i];
    var l := LoadedState(cfg, states, events, i);
    if Writes(l, e.write) {
      WrittenMutation(cfg, l, e);
      SignedOut(cfg, WhileWritten(cfg, l, e), e.writing.ops, k, cookie);
      forall j | i < j < |states| ensures !Sessions.IsActive(cfg.sessions, states[j].store, cookie, later) {
        SpareUpTo(events, i + 1, j, SecretOf(cookie));
        SecretGone(cfg, states, events, i + 1, j, cookie, later);
      }
    } else {
      FailedWriteRestoresCookies(cfg, states, events, i, cookie, later);
    }
  }

  lemma WrittenMutation(cfg: Config, l: State, e: Event)
    requires e.Mutate? && l.memory.Some? && Inv(l) && Applies(Swept(cfg, l.store, e.at), e.op) && Writes(l, e.write)
    ensures var t := Step(cfg, l, e);
      t.memory.Some? && t.store == Ops(cfg.sessions, WhileWritten(cfg, l, e), e.writing.ops)
  {
    hide AfterSave, Applies, Swept, Ops, Events, Sessions.Serialized;
    var swept := l.(store := Swept(cfg, l.store, e.at));
    SaveKeeps(cfg, swept.(store := Ops(cfg.sessions, swept.store, [e.op])), e.write);
  }

  lemma SpareUpTo(events: seq<Event>, i: nat, j: nat, secret: string)
    requires j <= |events| && AllSpare(events, i, |events|, secret)
    ensures AllSpare(events, i, j, secret)
  {
  }

  /** Which cookies are good after a rotation whose listener went down? Those that were good before, and only when the
      new token did not reach the disk. */
  lemma RotationCookiesIff(cfg: Config, states: seq<State>, events: seq<Event>, i: nat, cookie: string, later: int)
    requires Trace(cfg, states, events) && i < |events| && events[i].Rotate?
    requires cfg.sessions.maxSessions > 0 || cfg.sessions.approvalRequired
    requires var l := AfterLoad(cfg, states[i], events[i].read);
      AllStorable(l.store) && GoesDown(l, events[i].rotation.down)
    requires events[i].rotation.at <= later && Spares(events[i].rotation.writing, SecretOf(cookie), None)
    ensures var l := AfterLoad(cfg, states[i], events[i].read);
      Sessions.IsActive(cfg.sessions, states[i + 1].store, cookie, later)
      <==> !Rotates(l, events[i].rotation) && Sessions.IsActive(cfg.sessions, l.store, cookie, later)
  {
    hide AfterLoad, AfterRotate, AllStorable, NoSecret, Spares, Sessions.IsActive, Inv, SessionRuns.WithinCapacity;
    var l := LoadedState(cfg, states, events, i);
    if Rotates(l, events[i].rotation) {
      RotateStep(cfg, states[i], events[i]);
      RotationCleans(cfg, l, events[i].rotation, SecretOf(cookie), None);
      NoSecretNoCookie(cfg, states[i + 1].store, cookie, later);
    } else {
      FailedWriteRestoresCookies(cfg, states, events, i, cookie, later);
    }
  }

  // ----- a sign-out undone -----

  /** One active device, seen at time zero. */
  function OneDevice(deviceLabel: string, changes: nat): Store {
    var r := Sessions.Rec("a", Sessions.Digest("s"), deviceLabel, Sessions.Active, 0, 0, None, None);
    var s := Sessions.Insert(NoSessions(), r);
    Sessions.InsertValid(NoSessions(), r);
    s.(changes := changes)
  }

  predicate Lasting(cfg: Sessions.Config) {
    !cfg.approvalRequired && cfg.maxSessions > 0 && cfg.maxAgeMs >= 0 && cfg.idleMs >= 0
  }

  lemma OneSwept(cfg: Config, deviceLabel: string, changes: nat)
    requires Lasting(cfg.sessions)
    ensures Swept(cfg, NoSessions(), 0) == NoSessions()
    ensures Swept(cfg, OneDevice(deviceLabel, changes), 0) == OneDevice(deviceLabel, changes)
  {
    var s := OneDevice(deviceLabel, changes);
    assert s.table.keys == ["a"] && s.table.vals == map["a" := 0];
    assert Sessions.LiveIds(cfg.sessions, s, 0) == {"a"};
  }

  lemma OneIsActive(cfg: Config, deviceLabel: string, changes: nat)
    requires Lasting(cfg.sessions)
    ensures Sessions.DecodeCookie("a.s") == Some(("a", "s"))
    ensures Sessions.IsActive(cfg.sessions, OneDevice(deviceLabel, changes), "a.s", 0)
  {
    Sessions.CookieRoundTrip("a", "s");
    assert "a" + ("." + "s") == "a.s";
  }

  lemma OneLogin(cfg: Config)
    requires Lasting(cfg.sessions)
    ensures Ops(cfg.sessions, NoSessions(), [Sessions.Login(0, "a", "s", "tablet", None)]) == OneDevice("tablet", 1)
    ensures Ops(cfg.sessions, OneDevice("tablet", 1), [Sessions.Rename("a", "phone")]) == OneDevice("phone", 2)
  {
  }

  lemma FirstStart(cfg: Config, token: string, listener: Address)
    requires Lasting(cfg.sessions)
    ensures var t := Step(cfg, Initial(Missing), Start(FirstRead(token), FirstUp(listener)));
      t.memory.Some? && t.store == NoSessions() && !t.blocked && t.bound.Some?
  {
    OneSwept(cfg, "", 0);
    hide Swept, Hydrated, Sessions.Serialized;
  }

  function FirstRead(token: string): Read {
    Read(true, token, Write(0, true))
  }

  function FirstUp(listener: Address): Up {
    Up(None, Some(listener), Write(0, true), Down(true, true), false, None)
  }

  function SignIn(): Event {
    Requests(Traffic([Sessions.Login(0, "a", "s", "tablet", None)], []))
  }

  /** A renaming that cannot be written, and the sign-out while it is tried. */
  function FailingRename(token: string): Event {
    Mutate(FirstRead(token), Sessions.Rename("a", "phone"), 0, Write(0, false),
           Traffic([Sessions.Revoke(0, "a")], []))
  }

  lemma RenamingDevices(cfg: Config, token: string, r: State)
    requires Lasting(cfg.sessions) && r.memory.Some? && r.store == OneDevice("tablet", 1)
    ensures WhileWritten(cfg, r, FailingRename(token)) == OneDevice("phone", 2)
  {
    OneSwept(cfg, "tablet", 1);
    OneSwept(cfg, "phone", 2);
    OneLogin(cfg);
    hide Swept, Ops, OneDevice, Sessions.Serialized;
  }

  lemma RenamingFails(cfg: Config, token: string, r: State)
    requires Lasting(cfg.sessions) && r.memory.Some? && r.store == OneDevice("tablet", 1)
    ensures AllStorable(r.store) && FailsToWrite(cfg, r, FailingRename(token))
  {
    OneSwept(cfg, "tablet", 1);
    assert Trim("phone") == "phone";
    hide Swept, Trim;
  }

  lemma OneSignsOut(cfg: Config)
    requires Lasting(cfg.sessions)
    ensures SignsOut(cfg, OneDevice("phone", 2), [Sessions.Revoke(0, "a")], 0, "a.s")
  {
    OneIsActive(cfg, "phone", 2);
    hide Sessions.IsActive, Issues;
    var none: seq<Sessions.Op> := [];
    assert [Sessions.Revoke(0, "a")][..0] == none &&
      Ops(cfg.sessions, OneDevice("phone", 2), none) == OneDevice("phone", 2);
    hide Ops;
  }

  /** A device signs out while its renaming is being written, and the write fails: it was signed in, its sign-out was
      accepted, and its cookie is good again. */
  lemma SignOutUndone(cfg: Config, token: string, listener: Address)
    requires Lasting(cfg.sessions)
    ensures var rename := FailingRename(token);
      var s0 := Initial(Missing);
      var s1 := Step(cfg, s0, Start(FirstRead(token), FirstUp(listener)));
      var s2 := Step(cfg, s1, SignIn());
      var s3 := Step(cfg, s2, rename);
      && Trace(cfg, [s0, s1, s2, s3], [Start(FirstRead(token), FirstUp(listener)), SignIn(), rename])
      && s2.bound.Some? && Sessions.IsActive(cfg.sessions, s2.store, "a.s", 0)
      && SignsOut(cfg, WhileWritten(cfg, s2, rename), rename.writing.ops, 0, "a.s")
      && StepResult(cfg, s2, rename).threw && Sessions.IsActive(cfg.sessions, s3.store, "a.s", 0)
  {
    var s0 := Initial(Missing);
    var e0, e1, e2 := Start(FirstRead(token), FirstUp(listener)), SignIn(), FailingRename(token);
    var s1 := Step(cfg, s0, e0);
    var s2 := Step(cfg, s1, e1);
    SignedIn(cfg, token, listener);
    RenamingDevices(cfg, token, s2);
    RenamingFails(cfg, token, s2);
    OneSignsOut(cfg);
    OneIsActive(cfg, "tablet", 1);
    ThreeSteps(cfg, Missing, e0, e1, e2);
    hide Step, StepResult, Sessions.IsActive, SignsOut, FailsToWrite, AllStorable, Trace, WhileWritten, OneDevice;
    RenameUndone(cfg, token, [s0, s1, s2, Step(cfg, s2, e2)], [e0, e1, e2], 2);
  }

  lemma SignedIn(cfg: Config, token: string, listener: Address)
    requires Lasting(cfg.sessions)
    ensures var s1 := Step(cfg, Initial(Missing), Start(FirstRead(token), FirstUp(listener)));
      var s2 := Step(cfg, s1, SignIn());
      s2.memory.Some? && s2.store == OneDevice("tablet", 1) && !s2.blocked && s2.bound.Some?
  {
    FirstStart(cfg, token, listener);
    OneLogin(cfg);
    hide AfterStart, AfterLoad, Ops;
  }

  lemma ThreeSteps(cfg: Config, disk: Disk, e0: Event, e1: Event, e2: Event)
    ensures var s0 := Initial(disk);
      var s1 := Step(cfg, s0, e0);
      var s2 := Step(cfg, s1, e1);
      Trace(cfg, [s0, s1, s2, Step(cfg, s2, e2)], [e0, e1, e2])
  {
    hide Step;
  }

  lemma RenameUndone(cfg: Config, token: string, states: seq<State>, events: seq<Event>, i: nat)
    requires Trace(cfg, states, events) && i < |events| && Lasting(cfg.sessions)
    requires states[i].memory.Some? && events[i] == FailingRename(token)
    requires AllStorable(states[i].store) && FailsToWrite(cfg, states[i], events[i])
    requires Sessions.IsActive(cfg.sessions, states[i].store, "a.s", 0)
    ensures StepResult(cfg, states[i], events[i]).threw
    ensures Sessions.IsActive(cfg.sessions, states[i + 1].store, "a.s", 0)
  {
    hide Step, StepResult, Sessions.IsActive, FailsToWrite, AllStorable;
    assert AfterLoad(cfg, states[i], events[i].read) == states[i];
    FailedWriteUndone(cfg, states, events, i);
    FailedWriteRestoresCookies(cfg, states, events, i, "a.s", 0);
  }
}
