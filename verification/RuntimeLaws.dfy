/** What the runtime's operations must bring about: up after a start, down after a stop, and after a restart of the
    process what the last of them left on disk. Stated through the results of steps, over runs and over restarts. */
module RuntimeLaws {
  import opened Text
  import OM = OrderedMap
  import Sessions
  import SessionRuns
  import L = SessionLaws
  import opened Runtime
  import opened RuntimeSessions

  predicate Enabled(r: State) {
    r.memory.Some? && r.memory.value.enabled
  }

  predicate EnabledOnDisk(r: State) {
    r.disk.Stored? && r.disk.file.enabled
  }

  // ----- starting and stopping -----

  /** A stop that returns has the proxy down and the flag off, in memory and on disk. */
  lemma StopTakes(cfg: Config, r: State, e: Event)
    requires Inv(r) && e.Stop? && !StepResult(cfg, r, e).threw
    ensures var t := Step(cfg, r, e);
      t.bound.None? && t.memory.Some? && !Enabled(t) && t.disk.Stored? && !EnabledOnDisk(t)
  {
    hide AfterLoad, AfterSave;
    var l := AfterLoad(cfg, r, e.read);
    if GoesDown(l, e.down) {
      SaveKeeps(cfg, SetMemory(AfterTeardown(l, e.down), l.memory.value.(enabled := false)).(failure := None), e.write);
    }
  }

  /** A start that returns with the proxy up, which was down before, has it listen where the bind put it, for the
      current token, and the flag on in memory and on disk. */
  lemma StartTakes(cfg: Config, r: State, e: Event)
    requires Inv(r) && e.Start? && AfterLoad(cfg, r, e.read).bound.None?
    requires !StepResult(cfg, r, e).threw && Step(cfg, r, e).bound.Some?
    ensures var t := Step(cfg, r, e);
      && Enabled(t) && EnabledOnDisk(t) && !t.blocked && !t.disposed && e.up.listener.Some?
      && t.bound == Some(Listener(Listen(cfg, t), e.up.listener.value, t.memory.value.token))
  {
    hide AfterLoad, AfterSave;
    var l := AfterLoad(cfg, r, e.read);
    StartSaves(cfg, l, e.up);
  }

  /** The save inside a start. */
  lemma StartSaves(cfg: Config, l: State, up: Up)
    requires l.memory.Some? && l.bound.None?
    ensures var t := AfterStart(cfg, l, up);
      if !l.disposed && !l.blocked && !(l.landing.Some? && up.early) && up.refusal.None? && up.listener.Some? then
        var b := Meanwhile(Bound(cfg, l, up.listener.value), if l.landing.Some? then up.late else None);
        if Writes(b, up.write) then
          && !t.threw && t.state.bound == Some(Listener(Listen(cfg, l), up.listener.value, l.memory.value.token))
          && t.state.memory == Some(l.memory.value.(enabled := true)) && Agrees(t.state) && !t.state.blocked
          && t.state.disposed == l.disposed
        else t.threw && t.state.blocked && t.state.memory == Some(l.memory.value.(enabled := false))
      else !t.threw && t.state.bound.None? && t.state.memory == l.memory && t.state.disk == l.disk
           && (l.blocked ==> t.state.blocked) && t.state.disposed == l.disposed
  {
    hide AfterSave;
    if up.listener.Some? {
      SaveKeeps(cfg, Meanwhile(Bound(cfg, l, up.listener.value), up.late), up.write);
    }
  }

  /** Nothing in the way: a start brings the proxy up. */
  lemma StartComesUp(cfg: Config, r: State, e: Event, at: Address)
    requires Inv(r) && e.Start? && !r.disposed && e.up.refusal.None? && e.up.listener == Some(at) && e.up.write.ok
    requires var l := AfterLoad(cfg, r, e.read); l.bound.None? && !l.blocked && l.landing.None?
    ensures !StepResult(cfg, r, e).threw
    ensures var t := Step(cfg, r, e);
      t.bound.Some? && t.bound.value.asked == Listen(cfg, t) && t.bound.value.at == at && Enabled(t) && EnabledOnDisk(t)
  {
    hide AfterSave, Hydrated;
    var l := AfterLoad(cfg, r, e.read);
    LoadSpares(cfg, r, e.read);
    hide AfterLoad;
    StartSaves(cfg, l, e.up);
  }

  lemma LoadSpares(cfg: Config, r: State, e: Read)
    ensures AfterLoad(cfg, r, e).disposed == r.disposed && AfterLoad(cfg, r, e).bound == r.bound
    ensures AfterLoad(cfg, r, e).landing == r.landing
  {
    hide Swept, Hydrated, Sessions.Serialized;
  }

  // ----- the flag over a run -----

  /** Up, with persistence working, means enabled. */
  predicate UpIsEnabled(r: State) {
    r.bound.Some? && !r.blocked ==> Enabled(r)
  }

  /** What a step makes of the flag, if persistence works afterwards: off by a stop that takes effect, on when the
      proxy ends up, else as it was; a first load takes it from the file. */
  ghost predicate FlagMoves(cfg: Config, r: State, e: Event) {
    var t := Step(cfg, r, e);
    (r.blocked ==> t.blocked)
    && (!t.blocked && t.memory.Some? ==>
          if e.Stop? && !StepResult(cfg, r, e).threw then t.bound.None? && !Enabled(t)
          else if t.bound.Some? then Enabled(t)
          else Enabled(t) <==> if r.memory.Some? then Enabled(r) else EnabledOnDisk(r))
    && (t.memory.None? ==> t.disk == r.disk && t.bound.None? && r.memory.None?)
  }

  lemma StartMovesFlag(cfg: Config, l: State, up: Up)
    requires l.memory.Some? && UpIsEnabled(l)
    ensures var t := AfterStart(cfg, l, up).state;
      && t.memory.Some? && (l.blocked ==> t.blocked) && UpIsEnabled(t)
      && (!t.blocked && t.bound.None? ==> (Enabled(t) <==> Enabled(l)))
  {
    hide AfterSave;
    if l.bound.None? {
      StartSaves(cfg, l, up);
    }
  }

  lemma SaveMovesNoFlag(cfg: Config, r: State, w: Write)
    requires r.memory.Some?
    ensures var t := AfterSave(cfg, r, w);
      t.memory == r.memory && t.bound == r.bound && (r.blocked ==> t.blocked) && (t.blocked <==> !Writes(r, w))
      && t.landing == r.landing
  {
    SaveKeeps(cfg, r, w);
  }

  /** The flag between a loaded state and what an operation makes of it. */
  predicate Carries(l: State, t: State) {
    && t.memory.Some? && (l.blocked ==> t.blocked) && UpIsEnabled(t)
    && (!t.blocked && t.bound.None? ==> (Enabled(t) <==> Enabled(l)))
  }

  lemma RotateCarries(cfg: Config, l: State, e: Rotation)
    requires l.memory.Some? && UpIsEnabled(l)
    ensures Carries(l, AfterRotate(cfg, l, e).state)
  {
    hide AfterSave, AfterStart, Swept, Ops, Events, Cleared, Hydrated, Sessions.Serialized;
    if GoesDown(l, e.down) {
      var rotated := Rotated(cfg, l, e);
      SaveMovesNoFlag(cfg, rotated, e.write);
      StartMovesFlag(cfg, AfterTraffic(cfg, AfterSave(cfg, rotated, e.write), e.writing), e.up);
    }
  }

  lemma SetListenCarries(cfg: Config, l: State, host: string, port: Option<int>, e: Change)
    requires l.memory.Some? && UpIsEnabled(l)
    ensures Carries(l, AfterSetListen(cfg, l, host, port, e).state)
  {
    hide AfterSave, AfterStart, Trim, AfterRollback;
    if ValidListen(host, port) {
      var changed := SetOverride(l, Some(Trim(host)), port).(failure := None);
      SaveMovesNoFlag(cfg, changed, e.write);
      var down := AfterTeardown(AfterSave(cfg, changed, e.write), e.down);
      StartMovesFlag(cfg, down, e.up);
      RollbackCarries(cfg, AfterStart(cfg, down, e.up).state, Listen(cfg, l), e);
    }
  }

  lemma RollbackCarries(cfg: Config, l: State, previous: Address, e: Change)
    requires l.memory.Some? && UpIsEnabled(l)
    ensures Carries(l, AfterRollback(cfg, l, previous, e).state)
  {
    hide AfterSave, AfterStart;
    var undone := SetOverride(Meanwhile(l, e.late), Some(previous.host), Some(previous.port));
    SaveMovesNoFlag(cfg, undone, e.undo);
    StartMovesFlag(cfg, AfterSave(cfg, undone, e.undo), e.again);
  }

  lemma MutateCarries(cfg: Config, l: State, op: Sessions.Op, at: int, w: Write, writing: Traffic)
    requires l.memory.Some? && UpIsEnabled(l)
    ensures Carries(l, AfterMutate(cfg, l, op, at, w, writing).state)
  {
    hide AfterSave, Ops, Events, Swept, Hydrated, Sessions.Serialized, Applies;
    var swept := l.(store := Swept(cfg, l.store, at));
    SaveMovesNoFlag(cfg, swept.(store := Ops(cfg.sessions, swept.store, [op])), w);
  }

  /** The first load takes the flag from the file. */
  lemma LoadMovesFlag(cfg: Config, r: State, e: Read)
    requires Inv(r) && UpIsEnabled(r)
    ensures var l := AfterLoad(cfg, r, e);
      && l.memory.Some? && UpIsEnabled(l) && (r.blocked ==> l.blocked)
      && (!l.blocked ==> (Enabled(l) <==> if r.memory.Some? then Enabled(r) else EnabledOnDisk(r)))
  {
    hide AfterSave, Hydrated;
    if r.memory.None? {
      SaveMovesNoFlag(cfg, Loaded(cfg, r, e), e.write);
    }
  }

  lemma FlagStep(cfg: Config, r: State, e: Event)
    requires Inv(r) && UpIsEnabled(r)
    ensures FlagMoves(cfg, r, e) && UpIsEnabled(Step(cfg, r, e))
  {
    if Loads(e) {
      LoadedFlagStep(cfg, r, e);
    } else {
      QuietFlagStep(cfg, r, e);
    }
  }

  lemma LoadedFlagStep(cfg: Config, r: State, e: Event)
    requires Inv(r) && UpIsEnabled(r) && Loads(e)
    ensures FlagMoves(cfg, r, e) && UpIsEnabled(Step(cfg, r, e))
  {
    hide AfterLoad, AfterSave, AfterStart, AfterRotate, AfterSetListen, AfterMutate;
    var l := AfterLoad(cfg, r, e.read);
    LoadMovesFlag(cfg, r, e.read);
    match e
    case Start(_, up) => StartMovesFlag(cfg, l, up);
    case Restore(_, _, up) => StartMovesFlag(cfg, l, up);
    case Stop(_, down, write) =>
      SaveMovesNoFlag(cfg, SetMemory(AfterTeardown(l, down), l.memory.value.(enabled := false)).(failure := None),
                      write);
    case Rotate(_, rotation) => RotateCarries(cfg, l, rotation);
    case SetListen(_, host, port, change) => SetListenCarries(cfg, l, host, port, change);
    case Mutate(_, op, at, write, writing) => MutateCarries(cfg, l, op, at, write, writing);
  }

  lemma QuietFlagStep(cfg: Config, r: State, e: Event)
    requires Inv(r) && UpIsEnabled(r) && !Loads(e)
    ensures FlagMoves(cfg, r, e) && UpIsEnabled(Step(cfg, r, e))
  {
    hide AfterSave, AfterLoad, Ops, Events, Swept, Hydrated, Sessions.Serialized;
    match e
    case Status(read) => LoadMovesFlag(cfg, r, read);
    case Glance(_) =>
    case Landing(_) =>
    case Flush(write) =>
      if r.memory.Some? { SaveMovesNoFlag(cfg, r, write); } else { SaveNothing(cfg, r, write); }
    case Requests(_) =>
    case Dispose(down, write) =>
      var gone := AfterTeardown(r.(disposed := true), down);
      if r.memory.Some? { SaveMovesNoFlag(cfg, gone, write); } else { SaveNothing(cfg, gone, write); }
  }

  /** What the starts and stops up to state `t` amount to: off after a stop that took effect, on once the proxy has
      been up since, and at first what the file says. */
  ghost predicate WantedUp(cfg: Config, states: seq<State>, events: seq<Event>, t: nat)
    requires t <= |events| < |states|
  {
    if t == 0 then EnabledOnDisk(states[0])
    else if events[t - 1].Stop? && !StepResult(cfg, states[t - 1], events[t - 1]).threw then false
    else states[t].bound.Some? || WantedUp(cfg, states, events, t - 1)
  }

  lemma {:induction false} FlagAlways(cfg: Config, states: seq<State>, events: seq<Event>, t: nat)
    requires Trace(cfg, states, events) && t <= |events|
    ensures UpIsEnabled(states[t])
    ensures states[t].memory.None? ==> (EnabledOnDisk(states[t]) <==> WantedUp(cfg, states, events, t))
    ensures states[t].memory.Some? && !states[t].blocked ==>
      (Enabled(states[t]) <==> WantedUp(cfg, states, events, t))
  {
    hide Step, StepResult;
    if t > 0 {
      FlagAlways(cfg, states, events, t - 1);
      InvAlways(cfg, states, events, t - 1);
      FlagStep(cfg, states[t - 1], events[t - 1]);
      assert states[t - 1 + 1] == Step(cfg, states[t - 1], events[t - 1]);
      if events[t - 1].Stop? && states[t].memory.None? {
        StopLoads(cfg, states[t - 1], events[t - 1]);
      }
    }
  }

  lemma StopLoads(cfg: Config, r: State, e: Event)
    requires e.Stop?
    ensures Step(cfg, r, e).memory.Some?
  {
    hide AfterLoad, AfterSave;
  }

  /** While persistence works, the flag in memory and - first loads being made behind the gate - on disk says what the
      last of the starts and stops to take effect was. */
  lemma FlagIsLastEffect(cfg: Config, states: seq<State>, events: seq<Event>, t: nat)
    requires Trace(cfg, states, events) && t <= |events| && states[t].memory.Some? && !states[t].blocked
    ensures Enabled(states[t]) <==> WantedUp(cfg, states, events, t)
    ensures (forall k :: 0 <= k < t ==> !events[k].Glance?) ==>
      (EnabledOnDisk(states[t]) <==> WantedUp(cfg, states, events, t))
  {
    hide Step, StepResult, WantedUp;
    FlagAlways(cfg, states, events, t);
    if forall k :: 0 <= k < t ==> !events[k].Glance? {
      MemoryAgreesWithDisk(cfg, states, events, t);
    }
  }

  // ----- a new process -----

  /** The runtime a new process makes over the file, having looked at it. */
  function Reopened(cfg: Config, disk: Disk, e: Read): State {
    Step(cfg, Initial(disk), Status(e))
  }

  /** What a first load makes of the file: it keeps the flag, the token and the listen override; a missing token is
      minted, and then there is no device; a file that cannot be read or understood is left alone, and persistence
      blocked. */
  lemma OpenedFromFile(cfg: Config, disk: Disk, e: Read)
    ensures var n := Reopened(cfg, disk, e);
      && n.memory.Some? && n.bound.None? && n.codes == OM.Empty()
      && (if e.readable && disk.Stored? then
            var f, m := disk.file, n.memory.value;
            && m.enabled == f.enabled && m.listenHost == f.listenHost && m.listenPort == f.listenPort
            && m.token == (if f.token.Some? then f.token.value else e.token)
            && (f.token.None? ==> n.store.table.vals == map[])
          else n.memory == Some(Memory(false, e.token, None, None)) && n.store.table.vals == map[])
      && (!e.readable || disk.Malformed? ==> n.blocked && n.disk == disk)
      && (e.readable && !disk.Malformed? && e.write.ok ==> !n.blocked && Agrees(n))
  {
    var l := Loaded(cfg, Initial(disk), e);
    SaveKeeps(cfg, l, e.write);
    SaveSweeps(cfg, l, e.write);
    hide AfterSave, Hydrated, Swept;
  }

  lemma SaveSweeps(cfg: Config, r: State, w: Write)
    ensures AfterSave(cfg, r, w).store.table.vals.Keys <= r.store.table.vals.Keys
  {
    hide Sessions.Serialized, Sessions.Expired;
  }

  /** On a fresh runtime restore brings the proxy up exactly when it is told to and the file says enabled, provided
      nothing is in the way of the start and both writes succeed. */
  lemma RestoredIff(cfg: Config, disk: Disk, e: Event)
    requires e.Restore? && e.read.write.ok && e.up.write.ok
    ensures Step(cfg, Initial(disk), e).bound.Some?
       <==> e.autoRestore && e.read.readable && disk.Stored? && disk.file.enabled
            && e.up.refusal.None? && e.up.listener.Some?
  {
    var l := AfterLoad(cfg, Initial(disk), e.read);
    OpenedFromFile(cfg, disk, e.read);
    LoadSpares(cfg, Initial(disk), e.read);
    StartSaves(cfg, l, e.up);
    assert l == Reopened(cfg, disk, e.read);
    hide AfterLoad, AfterStart, Agrees;
  }

  /** Whatever happens at the restart, nothing comes up over the file a stop has left. */
  lemma StoppedStaysDown(cfg: Config, r: State, e: Event, later: Event)
    requires Inv(r) && e.Stop? && !StepResult(cfg, r, e).threw && later.Restore?
    ensures Step(cfg, Initial(Step(cfg, r, e).disk), later).bound.None?
  {
    var disk := Step(cfg, r, e).disk;
    StopTakes(cfg, r, e);
    OpenedFromFile(cfg, disk, later.read);
    assert AfterLoad(cfg, Initial(disk), later.read) == Reopened(cfg, disk, later.read);
    hide AfterLoad, AfterStart, AfterStop;
  }

  /** And over the file of a start that took effect it comes up again. */
  lemma StartedComesBack(cfg: Config, r: State, e: Event, later: Event)
    requires Inv(r) && e.Start? && AfterLoad(cfg, r, e.read).bound.None?
    requires !StepResult(cfg, r, e).threw && Step(cfg, r, e).bound.Some?
    requires later.Restore? && later.autoRestore && later.read.readable && later.read.write.ok && later.up.write.ok
    requires later.up.refusal.None? && later.up.listener.Some?
    ensures Step(cfg, Initial(Step(cfg, r, e).disk), later).bound.Some?
  {
    hide Step, StepResult, AfterLoad;
    StartTakes(cfg, r, e);
    RestoredIff(cfg, Step(cfg, r, e).disk, later);
  }

  // ----- the devices across a restart -----

  lemma SweptCookies(cfg: Config, s: Store, at: int, cookie: string, later: int)
    requires at <= later
    ensures Sessions.IsActive(cfg.sessions, Swept(cfg, s, at), cookie, later)
       <==> Sessions.IsActive(cfg.sessions, s, cookie, later)
  {
  }

  lemma SavedFile(cfg: Config, r: State, w: Write)
    requires r.memory.Some? && Writes(r, w)
    ensures Step(cfg, r, Flush(w)).disk
         == Stored(DurableOf(r.memory.value, Sessions.Serialized(cfg.sessions, r.store, w.at)))
  {
    hide Swept, Sessions.Serialized;
  }

  lemma TakenUp(cfg: Config, m: Memory, data: seq<Sessions.Raw>, e: Read)
    requires e.readable
    ensures var n := Reopened(cfg, Stored(DurableOf(m, data)), e);
      n.memory == Some(m) && n.store == Swept(cfg, Hydrated(cfg, NoSessions(), data), e.write.at)
  {
    hide Swept, Hydrated, Sessions.Serialized;
  }

  /** What is saved, a new process takes up: flag, token, override, and every cookie is good to it exactly when it
      was to the old one. */
  lemma RestartKeepsDevices(cfg: Config, r: State, w: Write, e: Read, cookie: string, later: int)
    requires r.memory.Some? && Writes(r, w) && Restorable(cfg, r.store) && e.readable
    requires w.at <= later && e.write.at <= later
    ensures var n := Reopened(cfg, Step(cfg, r, Flush(w)).disk, e);
      && n.memory == r.memory
      && (Sessions.IsActive(cfg.sessions, n.store, cookie, later)
          <==> Sessions.IsActive(cfg.sessions, r.store, cookie, later))
  {
    hide Step, Reopened, Hydrated, Sessions.Sweep, Sessions.IsActive, Sessions.Serialized, Restorable, Writes;
    var data := Sessions.Serialized(cfg.sessions, r.store, w.at);
    var found := Hydrated(cfg, NoSessions(), data);
    SavedFile(cfg, r, w);
    TakenUp(cfg, r.memory.value, data, e);
    Restores(cfg, r.store, w.at, NoSessions());
    SessionRuns.RestoredCookies(cfg.sessions, r.store, found, w.at, cookie, later);
    SweptCookies(cfg, found, e.write.at, cookie, later);
  }

  /** The devices an owner's action leaves, before its write. */
  function ActedOn(cfg: Config, l: State, e: Event): Store
    requires e.Mutate?
  {
    Ops(cfg.sessions, Swept(cfg, l.store, e.at), [e.op])
  }

  /** An owner's action that is taken and returns has reached the disk: a new process finds the devices as the action
      has left them. */
  lemma ActionOutlivesProcess(cfg: Config, r: State, e: Event, read: Read, cookie: string, later: int)
    requires Inv(r) && e.Mutate? && Applies(Swept(cfg, AfterLoad(cfg, r, e.read).store, e.at), e.op)
    requires !StepResult(cfg, r, e).threw && Restorable(cfg, ActedOn(cfg, AfterLoad(cfg, r, e.read), e))
    requires read.readable && e.write.at <= later && read.write.at <= later
    ensures Sessions.IsActive(cfg.sessions, Reopened(cfg, Step(cfg, r, e).disk, read).store, cookie, later)
       <==> Sessions.IsActive(cfg.sessions, ActedOn(cfg, AfterLoad(cfg, r, e.read), e), cookie, later)
  {
    var l := AfterLoad(cfg, r, e.read);
    var changed := l.(store := ActedOn(cfg, l, e));
    ActionIsSaved(cfg, r, e);
    hide AfterLoad, AfterMutate, ActedOn, Reopened, Sessions.IsActive, Restorable, Applies, AfterSave;
    RestartKeepsDevices(cfg, changed, e.write, read, cookie, later);
  }

  lemma ActionIsSaved(cfg: Config, r: State, e: Event)
    requires Inv(r) && e.Mutate? && Applies(Swept(cfg, AfterLoad(cfg, r, e.read).store, e.at), e.op)
    requires !StepResult(cfg, r, e).threw
    ensures var changed := AfterLoad(cfg, r, e.read).(store := ActedOn(cfg, AfterLoad(cfg, r, e.read), e));
      Writes(changed, e.write) && Step(cfg, r, e).disk == Step(cfg, changed, Flush(e.write)).disk
  {
    hide AfterLoad, AfterSave, Applies, Swept, Ops, Events, Sessions.Serialized, Hydrated;
  }

  lemma OneOp(cfg: Config, s: Store, op: Sessions.Op)
    ensures Sessions.Valid(Sessions.Step(cfg.sessions, s, op))
    ensures Ops(cfg.sessions, s, [op]) == Sessions.Step(cfg.sessions, s, op)
  {
    SessionRuns.StepValid(cfg.sessions, s, op);
    hide Sessions.Step;
    assert [op][..0] == [] && Ops(cfg.sessions, s, []) == s;
  }

  /** So a device approved is in after a restart, for as long as its windows are open, */
  lemma ApprovalOutlivesProcess(cfg: Config, r: State, e: Event, read: Read, d: Sessions.Rec, cookie: string,
                                later: int)
    requires Inv(r) && cfg.sessions.idleMs >= 0 && e.Mutate? && e.op.Approve? && e.op.id == d.id
    requires L.Has(Swept(cfg, AfterLoad(cfg, r, e.read).store, e.at), d) && d.status == Sessions.Pending
    requires !StepResult(cfg, r, e).threw && Restorable(cfg, ActedOn(cfg, AfterLoad(cfg, r, e.read), e))
    requires read.readable && e.write.at <= later && read.write.at <= later && L.Names(cookie, d.id, d.secretHash)
    ensures Sessions.IsActive(cfg.sessions, Reopened(cfg, Step(cfg, r, e).disk, read).store, cookie, later)
       <==> L.InTime(cfg.sessions, d.createdAt, e.op.at, later)
  {
    var s := Swept(cfg, AfterLoad(cfg, r, e.read).store, e.at);
    OneOp(cfg, s, e.op);
    L.ApprovedIsLetIn(cfg.sessions, s, d, e.op.at, cookie, later);
    hide AfterLoad, AfterMutate, Reopened, Sessions.IsActive, Restorable, L.InTime, L.Names, Swept, Ops, Sessions.Step;
    ActionOutlivesProcess(cfg, r, e, read, cookie, later);
  }

  /** and one revoked is out. */
  lemma RevocationOutlivesProcess(cfg: Config, r: State, e: Event, read: Read, d: Sessions.Rec, cookie: string,
                                  later: int)
    requires Inv(r) && e.Mutate? && e.op.Revoke? && e.op.id == d.id
    requires L.Has(Swept(cfg, AfterLoad(cfg, r, e.read).store, e.at), d)
    requires !StepResult(cfg, r, e).threw && Restorable(cfg, ActedOn(cfg, AfterLoad(cfg, r, e.read), e))
    requires read.readable && e.write.at <= later && read.write.at <= later
    requires Sessions.DecodeCookie(cookie).Some? && Sessions.DecodeCookie(cookie).value.0 == d.id
    ensures !Sessions.IsActive(cfg.sessions, Reopened(cfg, Step(cfg, r, e).disk, read).store, cookie, later)
  {
    var s := Swept(cfg, AfterLoad(cfg, r, e.read).store, e.at);
    OneOp(cfg, s, e.op);
    L.RevokedIsShutOut(cfg.sessions, s, d, e.op.at, cookie, later);
    hide AfterLoad, AfterMutate, Reopened, Sessions.IsActive, Restorable, Swept, Ops, Sessions.Step;
    ActionOutlivesProcess(cfg, r, e, read, cookie, later);
  }

  /** The file holds nothing under that secret. */
  ghost predicate FileSpares(r: State, secret: string) {
    r.disk.Stored? ==> DataNoSecret(r.disk.file.sessions, secret)
  }

  lemma SaveSpares(cfg: Config, r: State, w: Write, secret: string)
    requires r.memory.Some? && NoSecret(r.store, secret) && (FileSpares(r, secret) || Writes(r, w))
    ensures FileSpares(AfterSave(cfg, r, w), secret)
  {
    SerializedNoSecret(cfg, r.store, w.at, secret);
    hide NoSecret, DataNoSecret, Swept, Sessions.Serialized;
  }

  lemma StartSpares(cfg: Config, r: State, up: Up, secret: string)
    requires r.memory.Some? && r.landing.None? && NoSecret(r.store, secret) && FileSpares(r, secret)
    ensures FileSpares(AfterStart(cfg, r, up).state, secret)
  {
    hide AfterSave, NoSecret, DataNoSecret;
    if up.listener.Some? {
      SaveSpares(cfg, Bound(cfg, r, up.listener.value), up.write, secret);
    }
  }

  lemma RotationSpares(cfg: Config, l: State, e: Rotation, secret: string)
    requires Inv(l) && l.memory.Some? && l.landing.None? && Rotates(l, e) && Spares(e.writing, secret, None)
    ensures FileSpares(AfterRotate(cfg, l, e).state, secret)
  {
    hide AfterSave, AfterStart, NoSecret, DataNoSecret, Spares, Swept, Hydrated, Ops, Events, Sessions.Serialized,
      Cleared;
    RotatedClean(cfg, l, e, secret, None);
    var rotated := Rotated(cfg, l, e);
    SaveKeeps(cfg, rotated, e.write);
    SaveClean(cfg, rotated, e.write, secret, None);
    SaveSpares(cfg, rotated, e.write, secret);
    var written := AfterTraffic(cfg, AfterSave(cfg, rotated, e.write), e.writing);
    TrafficClean(cfg, AfterSave(cfg, rotated, e.write), e.writing, secret, None);
    StartSpares(cfg, written, e.up, secret);
  }

  lemma OpenedSpares(cfg: Config, disk: Disk, read: Read, secret: string)
    requires disk.Stored? ==> DataNoSecret(disk.file.sessions, secret)
    ensures NoSecret(Reopened(cfg, disk, read).store, secret)
  {
    var l := Loaded(cfg, Initial(disk), read);
    if disk.Stored? {
      HydratedSecret(cfg, NoSessions(), disk.file.sessions, secret);
    }
    assert NoSecret(NoSessions(), secret);
    SweptNoSecret(cfg, l.store, read.write.at, secret);
    hide NoSecret, Hydrated, Swept, Sessions.Serialized;
  }

  /** After a rotation that reached the disk a new process has the new token, and no cookie of before is good to it
      either, unless its secret was handed out anew. */
  lemma RotationOutlivesProcess(cfg: Config, r: State, e: Event, read: Read, cookie: string, later: int)
    requires Inv(r) && e.Rotate? && Rotates(AfterLoad(cfg, r, e.read), e.rotation) && read.readable
    requires AfterLoad(cfg, r, e.read).landing.None? && Spares(e.rotation.writing, SecretOf(cookie), None)
    ensures var n := Reopened(cfg, Step(cfg, r, e).disk, read);
      n.memory.Some? && n.memory.value.token == e.rotation.token
      && !Sessions.IsActive(cfg.sessions, n.store, cookie, later)
  {
    hide AfterLoad, AfterRotate, NoSecret, DataNoSecret, Spares, Rotates, Sessions.IsActive;
    var l := AfterLoad(cfg, r, e.read);
    LoadKeeps(cfg, r, e.read);
    RotateStep(cfg, r, e);
    RotationTakes(cfg, l, e.rotation);
    RotationSpares(cfg, l, e.rotation, SecretOf(cookie));
    var disk := Step(cfg, r, e).disk;
    OpenedFromFile(cfg, disk, read);
    OpenedSpares(cfg, disk, read, SecretOf(cookie));
    hide Reopened;
    NoSecretNoCookie(cfg, Reopened(cfg, disk, read).store, cookie, later);
  }

  // ----- coming back up, and going down for good -----

  /** A running proxy comes back after a rotation for the new token, where the bind puts it, when nothing is in the
      way. */
  lemma RotatedComesBack(cfg: Config, r: State, e: Event, at: Address)
    requires Inv(r) && e.Rotate? && Rotates(AfterLoad(cfg, r, e.read), e.rotation) && !r.disposed
    requires var l := AfterLoad(cfg, r, e.read); l.bound.Some? && l.landing.None?
    requires e.rotation.up.refusal.None? && e.rotation.up.listener == Some(at) && e.rotation.up.write.ok
    ensures var t := Step(cfg, r, e);
      t.bound == Some(Listener(Listen(cfg, t), at, e.rotation.token)) && Enabled(t) && EnabledOnDisk(t)
    ensures StepResult(cfg, r, e).threw <==> !e.rotation.tunnelOk
  {
    var l, o := AfterLoad(cfg, r, e.read), e.rotation;
    LoadSpares(cfg, r, e.read);
    hide AfterLoad, AfterSave, AfterStart, Swept, Ops, Events, Hydrated, Sessions.Serialized, Cleared;
    var rotated := Rotated(cfg, l, o);
    SaveKeeps(cfg, rotated, o.write);
    StartSaves(cfg, AfterTraffic(cfg, AfterSave(cfg, rotated, o.write), o.writing), o.up);
  }

  /** So it does on a new address, with the override on disk. */
  lemma ChangedComesUp(cfg: Config, r: State, e: Event, at: Address)
    requires Inv(r) && e.SetListen? && !r.disposed && ValidListen(e.host, e.port) && e.change.write.ok
    requires var l := AfterLoad(cfg, r, e.read);
      && l.bound.Some? && !l.blocked && l.landing.None? && GoesDown(l, e.change.down)
      && Address(Trim(e.host), e.port.value) != Listen(cfg, l)
    requires e.change.up.refusal.None? && e.change.up.listener == Some(at) && e.change.up.write.ok
    ensures var t, l := Step(cfg, r, e), AfterLoad(cfg, r, e.read);
      && t.bound == Some(Listener(Address(Trim(e.host), e.port.value), at, l.memory.value.token)) && Enabled(t)
      && SavesListen(t, Some(Trim(e.host)), e.port)
  {
    hide AfterLoad, AfterSave, AfterStart, AfterSetListen, Listen, Trim, SavesListen, ValidListen, GoesDown;
    LoadSpares(cfg, r, e.read);
    ChangeComesUp(cfg, AfterLoad(cfg, r, e.read), e.host, e.port, e.change, at);
  }

  lemma ChangeComesUp(cfg: Config, l: State, host: string, port: Option<int>, e: Change, at: Address)
    requires l.memory.Some? && l.bound.Some? && !l.blocked && !l.disposed && l.landing.None?
    requires ValidListen(host, port) && Address(Trim(host), port.value) != Listen(cfg, l)
    requires e.write.ok && GoesDown(l, e.down)
    requires e.up.refusal.None? && e.up.listener == Some(at) && e.up.write.ok
    ensures var t := AfterSetListen(cfg, l, host, port, e).state;
      t.bound == Some(Listener(Address(Trim(host), port.value), at, l.memory.value.token)) && Enabled(t)
      && SavesListen(t, Some(Trim(host)), port)
  {
    hide AfterSave, AfterStart, AfterRollback, Trim;
    var changed := SetOverride(l, Some(Trim(host)), port).(failure := None);
    var saved := AfterSave(cfg, changed, e.write);
    SaveKeeps(cfg, changed, e.write);
    StartSaves(cfg, AfterTeardown(saved, e.down), e.up);
  }

  // ----- where it listens -----

  /** A running proxy was asked to listen where memory says. */
  predicate AsTold(cfg: Config, r: State) {
    r.bound.Some? ==> r.memory.Some? && r.bound.value.asked == Listen(cfg, r)
  }

  /** A change of address that is written although the old listener, which runs, does not go down. */
  predicate Stuck(cfg: Config, l: State, host: string, port: Option<int>, e: Change)
    requires l.memory.Some?
  {
    l.bound.Some? && ValidListen(host, port) && Address(Trim(host), port.value) != Listen(cfg, l)
    && !l.blocked && e.write.ok && !GoesDown(l, e.down)
  }

  lemma SaveAsTold(cfg: Config, r: State, w: Write)
    requires AsTold(cfg, r)
    ensures AsTold(cfg, AfterSave(cfg, r, w))
  {
    if r.memory.Some? {
      SaveKeeps(cfg, r, w);
    } else {
      SaveNothing(cfg, r, w);
    }
  }

  lemma StartAsTold(cfg: Config, l: State, up: Up)
    requires l.memory.Some? && AsTold(cfg, l)
    ensures AsTold(cfg, AfterStart(cfg, l, up).state)
  {
    hide AfterSave;
    if up.listener.Some? {
      SaveKeeps(cfg, Meanwhile(Bound(cfg, l, up.listener.value), up.late), up.write);
    }
  }

  lemma RotateAsTold(cfg: Config, l: State, e: Rotation)
    requires l.memory.Some? && AsTold(cfg, l)
    ensures AsTold(cfg, AfterRotate(cfg, l, e).state)
  {
    hide AfterSave, AfterStart, Swept, Ops, Events, Cleared, Hydrated, Sessions.Serialized;
    if GoesDown(l, e.down) {
      var rotated := Rotated(cfg, l, e);
      SaveKeeps(cfg, rotated, e.write);
      StartAsTold(cfg, AfterTraffic(cfg, AfterSave(cfg, rotated, e.write), e.writing), e.up);
    }
  }

  lemma SetListenAsTold(cfg: Config, l: State, host: string, port: Option<int>, e: Change)
    requires l.memory.Some? && AsTold(cfg, l)
    ensures AsTold(cfg, AfterSetListen(cfg, l, host, port, e).state) <==> !Stuck(cfg, l, host, port, e)
  {
    hide AfterSave, AfterStart, Trim, AfterRollback;
    if ValidListen(host, port) {
      var changed := SetOverride(l, Some(Trim(host)), port).(failure := None);
      SaveKeeps(cfg, changed, e.write);
      var down := AfterTeardown(AfterSave(cfg, changed, e.write), e.down);
      if GoesDown(l, e.down) {
        StartAsTold(cfg, down, e.up);
        if AfterStart(cfg, down, e.up).state.bound.None? {
          RollbackAsTold(cfg, AfterStart(cfg, down, e.up).state, Listen(cfg, l), e);
        }
      }
    }
  }

  lemma RollbackAsTold(cfg: Config, l: State, previous: Address, e: Change)
    requires l.memory.Some? && l.bound.None?
    ensures AsTold(cfg, AfterRollback(cfg, l, previous, e).state)
  {
    hide AfterSave, AfterStart;
    var undone := SetOverride(Meanwhile(l, e.late), Some(previous.host), Some(previous.port));
    SaveKeeps(cfg, undone, e.undo);
    StartAsTold(cfg, AfterSave(cfg, undone, e.undo), e.again);
  }

  lemma MutateAsTold(cfg: Config, l: State, op: Sessions.Op, at: int, w: Write, writing: Traffic)
    requires l.memory.Some? && AsTold(cfg, l)
    ensures AsTold(cfg, AfterMutate(cfg, l, op, at, w, writing).state)
  {
    hide AfterSave, Ops, Events, Swept, Hydrated, Sessions.Serialized, Applies;
    var swept := l.(store := Swept(cfg, l.store, at));
    SaveKeeps(cfg, swept.(store := Ops(cfg.sessions, swept.store, [op])), w);
  }

  lemma LoadAsTold(cfg: Config, r: State, e: Read)
    requires Inv(r) && AsTold(cfg, r)
    ensures AsTold(cfg, AfterLoad(cfg, r, e))
  {
    hide AfterSave, Hydrated;
    if r.memory.None? {
      SaveKeeps(cfg, Loaded(cfg, r, e), e.write);
    }
  }

  /** Which step makes the listener and memory part ways? Exactly a change of address that is written while the old
      listener stays. */
  lemma PartsIff(cfg: Config, r: State, e: Event)
    requires Inv(r) && AsTold(cfg, r)
    ensures AsTold(cfg, Step(cfg, r, e))
       <==> !(e.SetListen? && Stuck(cfg, AfterLoad(cfg, r, e.read), e.host, e.port, e.change))
  {
    if Loads(e) {
      hide AfterLoad, AfterSave, AfterStart, AfterRotate, AfterSetListen, AfterMutate, Stuck;
      LoadAsTold(cfg, r, e.read);
      var l := AfterLoad(cfg, r, e.read);
      match e
      case Start(_, up) => StartAsTold(cfg, l, up);
      case Restore(_, _, up) => StartAsTold(cfg, l, up);
      case Stop(_, down, write) =>
        SaveAsTold(cfg, SetMemory(AfterTeardown(l, down), l.memory.value.(enabled := false)).(failure := None), write);
      case Rotate(_, rotation) => RotateAsTold(cfg, l, rotation);
      case SetListen(_, host, port, change) => SetListenAsTold(cfg, l, host, port, change);
      case Mutate(_, op, at, write, writing) => MutateAsTold(cfg, l, op, at, write, writing);
    } else {
      QuietAsTold(cfg, r, e);
    }
  }

  lemma QuietAsTold(cfg: Config, r: State, e: Event)
    requires Inv(r) && AsTold(cfg, r) && !Loads(e)
    ensures AsTold(cfg, Step(cfg, r, e))
  {
    hide AfterSave, AfterLoad, Ops, Events, Swept, Hydrated, Sessions.Serialized;
    match e
    case Status(read) => LoadAsTold(cfg, r, read);
    case Flush(write) => SaveAsTold(cfg, r, write);
    case Dispose(down, write) => SaveAsTold(cfg, AfterTeardown(r.(disposed := true), down), write);
    case _ =>
  }

  /** So through a run without such a change a running proxy listens where it was told to, every rollback, rotation and
      restore included. */
  lemma {:induction false} ListensAsTold(cfg: Config, states: seq<State>, events: seq<Event>, t: nat)
    requires Trace(cfg, states, events) && t <= |events|
    requires forall k :: 0 <= k < t && events[k].SetListen? ==>
      !Stuck(cfg, AfterLoad(cfg, states[k], events[k].read), events[k].host, events[k].port, events[k].change)
    ensures AsTold(cfg, states[t])
  {
    hide Step, Stuck, AfterLoad;
    if t > 0 {
      ListensAsTold(cfg, states, events, t - 1);
      InvAlways(cfg, states, events, t - 1);
      PartsIff(cfg, states[t - 1], events[t - 1]);
      assert states[t - 1 + 1] == Step(cfg, states[t - 1], events[t - 1]);
    }
  }

  /** Once disposed and down, the runtime never listens again. */
  lemma {:induction false} DisposedStaysDown(cfg: Config, states: seq<State>, events: seq<Event>, i: nat, j: nat)
    requires Trace(cfg, states, events) && i <= j < |states| && Over(states[i])
    ensures Over(states[j])
    decreases j
  {
    hide Step;
    if i < j {
      DisposedStaysDown(cfg, states, events, i, j - 1);
      DisposedStep(cfg, states[j - 1], events[j - 1]);
      assert states[j - 1 + 1] == Step(cfg, states[j - 1], events[j - 1]);
    }
  }

  /** A disposal that returns is such a moment; the flag stays what it was, for the next process, and the file is the
      one a save would have left. */
  lemma DisposalTakes(cfg: Config, r: State, e: Event)
    requires Inv(r) && e.Dispose? && !StepResult(cfg, r, e).threw
    ensures var t := Step(cfg, r, e);
      t.disposed && t.bound.None? && t.memory == r.memory && t.disk == Step(cfg, r, Flush(e.write)).disk
  {
    hide Swept, Sessions.Serialized;
  }

  predicate Over(r: State) {
    r.disposed && r.bound.None?
  }

  lemma SaveStaysOver(cfg: Config, r: State, w: Write)
    requires Over(r)
    ensures Over(AfterSave(cfg, r, w))
  {
    hide Swept, Sessions.Serialized;
  }

  lemma StartStaysOver(cfg: Config, r: State, up: Up)
    requires Over(r) && r.memory.Some?
    ensures Over(AfterStart(cfg, r, up).state) && !AfterStart(cfg, r, up).threw
    ensures AfterStart(cfg, r, up).state.memory == r.memory
  {
    hide AfterSave;
  }

  lemma RotateStaysOver(cfg: Config, l: State, e: Rotation)
    requires Over(l) && l.memory.Some?
    ensures Over(AfterRotate(cfg, l, e).state)
  {
    hide AfterSave, AfterStart, Swept, Ops, Events, Cleared, Hydrated, Sessions.Serialized;
    if GoesDown(l, e.down) {
      SaveStaysOver(cfg, Rotated(cfg, l, e), e.write);
    }
  }

  lemma SetListenStaysOver(cfg: Config, l: State, host: string, port: Option<int>, e: Change)
    requires Over(l) && l.memory.Some?
    ensures Over(AfterSetListen(cfg, l, host, port, e).state)
  {
    hide AfterSave, AfterStart, AfterRollback, Trim;
    SaveStaysOver(cfg, SetOverride(l, Some(Trim(host)), port).(failure := None), e.write);
  }

  lemma MutateStaysOver(cfg: Config, l: State, op: Sessions.Op, at: int, w: Write, writing: Traffic)
    requires Over(l) && l.memory.Some?
    ensures Over(AfterMutate(cfg, l, op, at, w, writing).state)
  {
    hide AfterSave, Ops, Events, Swept, Hydrated, Sessions.Serialized, Applies;
    var swept := l.(store := Swept(cfg, l.store, at));
    SaveStaysOver(cfg, swept.(store := Ops(cfg.sessions, swept.store, [op])), w);
  }

  /** No operation takes back a disposal, or binds after it. */
  lemma DisposedStep(cfg: Config, r: State, e: Event)
    requires Over(r)
    ensures Over(Step(cfg, r, e))
  {
    if Loads(e) {
      hide AfterLoad, AfterSave, AfterStart, AfterRotate, AfterSetListen, AfterMutate;
      var l := AfterLoad(cfg, r, e.read);
      LoadSpares(cfg, r, e.read);
      match e
      case Start(_, up) => StartStaysOver(cfg, l, up);
      case Restore(_, _, up) => StartStaysOver(cfg, l, up);
      case Stop(_, down, write) =>
        SaveStaysOver(cfg, SetMemory(AfterTeardown(l, down), l.memory.value.(enabled := false)).(failure := None),
                      write);
      case Rotate(_, rotation) => RotateStaysOver(cfg, l, rotation);
      case SetListen(_, host, port, change) => SetListenStaysOver(cfg, l, host, port, change);
      case Mutate(_, op, at, write, writing) => MutateStaysOver(cfg, l, op, at, write, writing);
    } else {
      hide Swept, Hydrated, Ops, Events, Sessions.Serialized;
    }
  }
}
