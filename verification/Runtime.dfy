/** The plugin's runtime: the gated operations that change the enabled flag, the access token, the listen
    override, the device sessions and the state file, with every bind and write outcome left to the environment. */
module Runtime {
  import opened Text
  import OM = OrderedMap
  import Sessions
  import SessionRuns
  import Invites

  type Store = Sessions.ValidStore

  datatype Address = Address(host: string, port: int)

  datatype Config = Config(sessions: Sessions.Config, invites: Invites.Options, listen: Address)

  /** What the file says once read and normalized; a missing or short token is None. */
  datatype Durable = Durable(enabled: bool, token: Option<string>, listenHost: Option<string>, listenPort: Option<int>,
                             sessions: seq<Sessions.Raw>)

  datatype Disk = Missing | Malformed | Stored(file: Durable)

  datatype Memory = Memory(enabled: bool, token: string, listenHost: Option<string>, listenPort: Option<int>)

  /** A listening proxy keeps the token it was started with; `asked` is the address the bind was asked for, `at` the
      one it gave. */
  datatype Listener = Listener(asked: Address, at: Address, token: string)

  /** `landing` is the write of a first load that nothing behind the gate waits for, while it is under way. */
  datatype State = State(
    memory: Option<Memory>,
    store: Store,
    codes: Invites.Codes,
    blocked: bool,
    failure: Option<string>,
    bound: Option<Listener>,
    disposed: bool,
    disk: Disk,
    landing: Option<Durable>
  )

  function NoSessions(): Store {
    Sessions.Store([], OM.Empty(), 0)
  }

  function Initial(disk: Disk): State {
    State(None, NoSessions(), OM.Empty(), false, None, None, false, disk, None)
  }

  // ----- outcomes the environment chooses -----

  datatype Read = Read(readable: bool, token: string, write: Write)

  /** One save: the clock it serializes at, and whether the file is replaced. */
  datatype Write = Write(at: int, ok: bool)

  datatype Down = Down(tunnelStops: bool, closes: bool)

  /** `refusal` covers the self-loop, TLS and backend sign-in checks; `listener` is None when the bind fails. A first
      load's write may end meanwhile: with `early` it has failed when the start looks, by `late` it ends just before
      the start writes itself. */
  datatype Up = Up(refusal: Option<string>, listener: Option<Address>, write: Write, down: Down, early: bool,
                   late: Option<bool>)

  /** What devices do while an operation waits. */
  datatype Traffic = Traffic(ops: seq<Sessions.Op>, codes: seq<Invites.Event>)

  function Ops(cfg: Sessions.Config, s: Store, ops: seq<Sessions.Op>): Store {
    if ops == [] then s
    else
      var before := Ops(cfg, s, ops[..|ops| - 1]);
      SessionRuns.StepValid(cfg, before, ops[|ops| - 1]);
      Sessions.Step(cfg, before, ops[|ops| - 1])
  }

  function Events(o: Invites.Options, m: Invites.Codes, events: seq<Invites.Event>): Invites.Codes {
    if events == [] then m else Invites.Step(o, Events(o, m, events[..|events| - 1]), events[|events| - 1])
  }

  function AfterTraffic(cfg: Config, r: State, t: Traffic): State {
    r.(store := Ops(cfg.sessions, r.store, t.ops), codes := Events(cfg.invites, r.codes, t.codes))
  }

  function Swept(cfg: Config, s: Store, at: int): Store {
    SessionRuns.StepValid(cfg.sessions, s, Sessions.Serialize(at));
    Sessions.Sweep(cfg.sessions, s, at)
  }

  function Hydrated(cfg: Config, s: Store, data: seq<Sessions.Raw>): Store {
    SessionRuns.StepValid(cfg.sessions, s, Sessions.Hydrate(data));
    Sessions.AfterHydrate(cfg.sessions, s, data)
  }

  function Cleared(s: Store): Store {
    Sessions.AfterClear(s)
  }

  // ----- building blocks -----

  predicate Writes(r: State, w: Write) {
    !r.blocked && w.ok
  }

  /** A failed write blocks persistence from then on. */
  function AfterSave(cfg: Config, r: State, w: Write): (t: State)
    ensures t.memory == r.memory && t.landing == r.landing
  {
    if r.memory.None? || r.blocked then r
    else
      var m, data := r.memory.value, Sessions.Serialized(cfg.sessions, r.store, w.at);
      var swept := r.(store := Swept(cfg, r.store, w.at));
      if w.ok then swept.(disk := Stored(DurableOf(m, data)))
      else swept.(blocked := true)
  }

  /** What the first load makes of the file: a malformed or unreadable one blocks persistence; a missing token is
      minted, and then no stored device survives. */
  function Loaded(cfg: Config, r: State, e: Read): (l: State)
    ensures l.memory.Some?
  {
    var file := if e.readable && r.disk.Stored? then r.disk.file else Durable(false, None, None, None, []);
    var token := if file.token.Some? then file.token.value else e.token;
    r.(memory := Some(Memory(file.enabled, token, file.listenHost, file.listenPort)),
       store := if file.token.Some? then Hydrated(cfg, NoSessions(), file.sessions) else NoSessions(),
       blocked := !e.readable || r.disk.Malformed?)
  }

  /** Load behind the gate: the first one waits for its own write, later ones find the state there. */
  function AfterLoad(cfg: Config, r: State, e: Read): (l: State)
    ensures l.memory.Some?
  {
    if r.memory.Some? then r else AfterSave(cfg, Loaded(cfg, r, e), e.write)
  }

  /** A first load beside the gate, as status makes it: the state is there for everyone before its write is done. */
  function AfterGlance(cfg: Config, r: State, e: Read): (l: State)
    ensures l.memory.Some?
  {
    if r.memory.Some? then r
    else
      var l := Loaded(cfg, r, e);
      if l.blocked then l
      else
        l.(store := Swept(cfg, l.store, e.write.at),
           landing := Some(DurableOf(l.memory.value, Sessions.Serialized(cfg.sessions, l.store, e.write.at))))
  }

  function DurableOf(m: Memory, data: seq<Sessions.Raw>): Durable {
    Durable(m.enabled, Some(m.token), m.listenHost, m.listenPort, data)
  }

  /** That write lands with what the load had found, or fails. */
  function AfterLanding(r: State, ok: bool): State {
    if r.landing.None? then r
    else if ok then r.(disk := Stored(r.landing.value), landing := None)
    else r.(blocked := true, landing := None)
  }

  /** The write ends, one way or the other, or has not ended yet. */
  function Meanwhile(r: State, landing: Option<bool>): State {
    if landing.Some? then AfterLanding(r, landing.value) else r
  }

  /** Overrides win over the configuration; the empty host is no override. */
  function Effective(cfg: Config, host: Option<string>, port: Option<int>): Address {
    Address(if host.Some? && host.value != "" then host.value else cfg.listen.host,
            if port.Some? then port.value else cfg.listen.port)
  }

  function Listen(cfg: Config, r: State): Address
    requires r.memory.Some?
  {
    Effective(cfg, r.memory.value.listenHost, r.memory.value.listenPort)
  }

  /** The tunnel first, then the listener, which stays when either refuses. */
  predicate GoesDown(r: State, d: Down) {
    d.tunnelStops && (r.bound.None? || d.closes)
  }

  function AfterTeardown(r: State, d: Down): State {
    if GoesDown(r, d) then r.(bound := None) else r
  }

  datatype Result = Result(state: State, threw: bool)

  function SetMemory(r: State, m: Memory): State {
    r.(memory := Some(m))
  }

  // ----- the operations -----

  function AfterStart(cfg: Config, r: State, e: Up): (t: Result)
    requires r.memory.Some?
    ensures t.state.memory.Some?
  {
    Started(cfg, if e.early then AfterLanding(r, false) else r, e)
  }

  /** The proxy as it comes up, not yet written. */
  function Bound(cfg: Config, r: State, listener: Address): State
    requires r.memory.Some?
  {
    var m := r.memory.value;
    SetMemory(r, m.(enabled := true)).(bound := Some(Listener(Listen(cfg, r), listener, m.token)), failure := None)
  }

  function Started(cfg: Config, r: State, e: Up): (t: Result)
    requires r.memory.Some?
    ensures t.state.memory.Some?
  {
    if r.disposed then Result(r.(failure := Some("disposed")), false)
    else if r.bound.Some? then Result(r.(failure := None), false)
    else if r.blocked then Result(r.(failure := Some("state-invalid")), false)
    else if e.refusal.Some? then Result(r.(failure := e.refusal), false)
    else if e.listener.None? then Result(r.(failure := Some("listen-failed")), false)
    else
      var up := Meanwhile(Bound(cfg, r, e.listener.value), e.late);
      var saved := AfterSave(cfg, up, e.write);
      if Writes(up, e.write) then Result(saved, false)
      else Result(AfterTeardown(SetMemory(saved, r.memory.value.(enabled := false)), e.down), true)
  }

  function AfterStop(cfg: Config, r: State, d: Down, w: Write): Result
    requires r.memory.Some?
  {
    if !GoesDown(r, d) then Result(r, true)
    else
      var off := SetMemory(AfterTeardown(r, d), r.memory.value.(enabled := false)).(failure := None);
      Result(AfterSave(cfg, off, w), !Writes(off, w))
  }

  /** `at` serializes for the rollback; `closing` is the traffic until the listener is down, `writing` the
      traffic while the new state is written. */
  datatype Rotation = Rotation(at: int, closing: Traffic, down: Down, token: string, write: Write, writing: Traffic,
                               up: Up, tunnelOk: bool)

  /** Token replaced, every session and invite dropped, not yet written. */
  function Rotated(cfg: Config, r: State, e: Rotation): State
    requires r.memory.Some?
  {
    var closed := AfterTeardown(AfterTraffic(cfg, r.(store := Swept(cfg, r.store, e.at)), e.closing), e.down);
    SetMemory(closed, r.memory.value.(token := e.token)).(store := Cleared(closed.store), codes := OM.Empty())
  }

  function AfterRotate(cfg: Config, r: State, e: Rotation): Result
    requires r.memory.Some?
  {
    var previous := Sessions.Serialized(cfg.sessions, r.store, e.at);
    if !GoesDown(r, e.down) then
      Result(AfterTraffic(cfg, r.(store := Swept(cfg, r.store, e.at)), e.closing), true)
    else
      var rotated := Rotated(cfg, r, e);
      var written := AfterTraffic(cfg, AfterSave(cfg, rotated, e.write), e.writing);
      if !Writes(rotated, e.write) then
        Result(SetMemory(written, r.memory.value).(store := Hydrated(cfg, written.store, previous),
                                                   failure := Some("rotate-save-failed")), true)
      else if r.bound.None? then Result(written, !e.tunnelOk)
      else
        var up := AfterStart(cfg, written, e.up);
        Result(up.state, up.threw || !e.tunnelOk)
  }

  predicate ValidHost(host: string) {
    0 < |host| <= 253 && forall c :: c in host ==> !IsSpace(c) && c != '/' && c != '\\'
  }

  /** The port as Number() reads it; None when that is no integer. */
  predicate ValidListen(host: string, port: Option<int>) {
    ValidHost(Trim(host)) && port.Some? && 0 <= port.value <= 65535
  }

  /** By `late` a first load's write ends just before the rollback is written. */
  datatype Change = Change(write: Write, down: Down, up: Up, late: Option<bool>, undo: Write, again: Up, tunnelOk: bool)

  function SetOverride(r: State, host: Option<string>, port: Option<int>): State
    requires r.memory.Some?
  {
    SetMemory(r, r.memory.value.(listenHost := host, listenPort := port))
  }

  function AfterSetListen(cfg: Config, r: State, host: string, port: Option<int>, e: Change): Result
    requires r.memory.Some?
  {
    if !ValidListen(host, port) || Address(Trim(host), port.value) == Listen(cfg, r) then Result(r, false)
    else
      var changed := SetOverride(r, Some(Trim(host)), port).(failure := None);
      var saved := AfterSave(cfg, changed, e.write);
      if !Writes(changed, e.write) then
        Result(SetOverride(saved, r.memory.value.listenHost, r.memory.value.listenPort), true)
      else if !GoesDown(saved, e.down) then Result(saved, true)
      else if r.bound.None? then Result(AfterTeardown(saved, e.down), false)
      else
        var up := AfterStart(cfg, AfterTeardown(saved, e.down), e.up);
        if up.threw then up
        else if up.state.bound.Some? then Result(up.state, !e.tunnelOk)
        else AfterRollback(cfg, up.state, Listen(cfg, r), e)
  }

  /** The new address was refused: write the previous one back and start there again. */
  function AfterRollback(cfg: Config, r: State, previous: Address, e: Change): Result
    requires r.memory.Some?
  {
    var undone := SetOverride(Meanwhile(r, e.late), Some(previous.host), Some(previous.port));
    var saved := AfterSave(cfg, undone, e.undo);
    if !Writes(undone, e.undo) then Result(saved, true)
    else
      var again := AfterStart(cfg, saved, e.again);
      Result(again.state, again.threw || !e.tunnelOk)
  }

  /** Whether the owner's action on a device is taken; renaming to the label already borne is. */
  predicate Applies(s: Store, op: Sessions.Op) {
    match op
    case Approve(_, id) => id in s.table.vals && Sessions.At(s, id).status == Sessions.Pending
    case Revoke(_, id) => id in s.table.vals
    case Rename(id, name) => id in s.table.vals && 0 < |Trim(name)| <= 64
    case _ => false
  }

  function AfterMutate(cfg: Config, r: State, op: Sessions.Op, at: int, w: Write, writing: Traffic): Result
    requires r.memory.Some?
  {
    var previous := Sessions.Serialized(cfg.sessions, r.store, at);
    var swept := r.(store := Swept(cfg, r.store, at));
    if !Applies(swept.store, op) then Result(swept, false)
    else
      var changed := swept.(store := Ops(cfg.sessions, swept.store, [op]));
      var written := AfterTraffic(cfg, AfterSave(cfg, changed, w), writing);
      if Writes(changed, w) then Result(written, false)
      else Result(written.(store := Hydrated(cfg, written.store, previous)), true)
  }

  function AfterDispose(cfg: Config, r: State, d: Down, w: Write): Result {
    var gone := r.(disposed := true);
    if !GoesDown(gone, d) then Result(gone, true) else Result(AfterSave(cfg, AfterTeardown(gone, d), w), false)
  }

  // ----- runs -----

  /** The operations, each running alone behind the gate, and what happens between them. A first load's write that ends
      while an operation waits is part of that operation where the operation could notice; elsewhere it is the same
      as before or after it. */
  datatype Event =
    | Status(read: Read)
    | Glance(read: Read)
    | Landing(ok: bool)
    | Start(read: Read, up: Up)
    | Restore(read: Read, autoRestore: bool, up: Up)
    | Stop(read: Read, down: Down, write: Write)
    | Rotate(read: Read, rotation: Rotation)
    | SetListen(read: Read, host: string, port: Option<int>, change: Change)
    | Mutate(read: Read, op: Sessions.Op, at: int, write: Write, writing: Traffic)
    | Flush(write: Write)
    | Requests(traffic: Traffic)
    | Dispose(down: Down, write: Write)

  function StepResult(cfg: Config, r: State, e: Event): Result {
    match e
    case Status(read) => Result(AfterLoad(cfg, r, read), false)
    case Glance(read) => Result(AfterGlance(cfg, r, read), false)
    case Landing(ok) => Result(AfterLanding(r, ok), false)
    case Start(read, up) => AfterStart(cfg, AfterLoad(cfg, r, read), up)
    case Restore(read, autoRestore, up) =>
      var l := AfterLoad(cfg, r, read);
      if !autoRestore || !l.memory.value.enabled || l.disposed then Result(l, false) else AfterStart(cfg, l, up)
    case Stop(read, down, write) => AfterStop(cfg, AfterLoad(cfg, r, read), down, write)
    case Rotate(read, rotation) => AfterRotate(cfg, AfterLoad(cfg, r, read), rotation)
    case SetListen(read, host, port, change) => AfterSetListen(cfg, AfterLoad(cfg, r, read), host, port, change)
    case Mutate(read, op, at, write, writing) => AfterMutate(cfg, AfterLoad(cfg, r, read), op, at, write, writing)
    case Flush(write) => Result(AfterSave(cfg, r, write), false)
    case Requests(traffic) => Result(if r.memory.None? then r else AfterTraffic(cfg, r, traffic), false)
    case Dispose(down, write) => AfterDispose(cfg, r, down, write)
  }

  function Step(cfg: Config, r: State, e: Event): State {
    StepResult(cfg, r, e).state
  }

  ghost predicate Trace(cfg: Config, states: seq<State>, events: seq<Event>) {
    && |states| == |events| + 1
    && (exists disk :: states[0] == Initial(disk))
    && (forall t :: 0 <= t < |events| ==> states[t + 1] == Step(cfg, states[t], events[t]))
  }

  // ----- memory and disk -----

  /** The file says what memory says. */
  predicate Agrees(r: State) {
    r.memory.Some? && r.disk.Stored?
    && r.disk.file.enabled == r.memory.value.enabled && r.disk.file.token == Some(r.memory.value.token)
    && r.disk.file.listenHost == r.memory.value.listenHost && r.disk.file.listenPort == r.memory.value.listenPort
  }

  /** When a first load's write lands during the start, the start's own write goes over it. */
  predicate LandsUnder(r: State, e: Up) {
    r.landing.Some? && e.late == Some(true) ==> e.write.ok
  }

  /** Whatever listens accepts the current token only. */
  predicate Inv(r: State) {
    && (r.memory.None? ==> !r.blocked && r.bound.None? && r.landing.None?)
    && (r.bound.Some? ==> r.memory.Some? && r.bound.value.token == r.memory.value.token)
  }

  /** Persistence is marked blocked, or the file agrees, or the first load's write has still to land. */
  predicate Persisted(r: State) {
    r.memory.Some? ==> r.blocked || r.landing.Some? || Agrees(r)
  }

  /** What an operation keeps of both. */
  predicate Keeps(r: State, t: State) {
    Inv(t) && (t.landing == r.landing || t.landing.None?) && (Persisted(r) ==> Persisted(t))
  }

  lemma SaveKeeps(cfg: Config, r: State, w: Write)
    requires r.memory.Some?
    ensures var t := AfterSave(cfg, r, w);
      && t.memory == r.memory && t.bound == r.bound && t.disposed == r.disposed && t.codes == r.codes &&
        t.failure == r.failure
      && t.landing == r.landing
      && (if Writes(r, w) then Agrees(t) && !t.blocked else t.blocked && t.disk == r.disk)
  {
    hide Swept, Sessions.Serialized;
  }

  lemma LoadKeeps(cfg: Config, r: State, e: Read)
    requires Inv(r)
    ensures Keeps(r, AfterLoad(cfg, r, e))
  {
    hide AfterSave, Hydrated;
    if r.memory.None? {
      SaveKeeps(cfg, Loaded(cfg, r, e), e.write);
    }
  }

  lemma GlanceKeeps(cfg: Config, r: State, e: Read)
    requires Inv(r)
    ensures Inv(AfterGlance(cfg, r, e)) && (Persisted(r) ==> Persisted(AfterGlance(cfg, r, e)))
  {
    hide Hydrated, Swept, Sessions.Serialized;
  }

  lemma StartKeeps(cfg: Config, r: State, e: Up)
    requires Inv(r) && r.memory.Some?
    ensures var t := AfterStart(cfg, r, e).state;
      && Keeps(r, t) && t.memory.Some? && t.codes == r.codes
      && t.memory.value.(enabled := true) == r.memory.value.(enabled := true)
  {
    hide AfterSave;
    if e.listener.Some? {
      SaveKeeps(cfg, Meanwhile(Bound(cfg, r, e.listener.value), e.late), e.write);
    }
  }

  lemma StopKeeps(cfg: Config, r: State, d: Down, w: Write)
    requires Inv(r) && r.memory.Some?
    ensures Keeps(r, AfterStop(cfg, r, d, w).state)
  {
    hide AfterSave;
    if GoesDown(r, d) {
      SaveKeeps(cfg, SetMemory(AfterTeardown(r, d), r.memory.value.(enabled := false)).(failure := None), w);
    }
  }

  lemma RotateKeeps(cfg: Config, r: State, e: Rotation)
    requires Inv(r) && r.memory.Some?
    ensures Keeps(r, AfterRotate(cfg, r, e).state)
  {
    hide AfterSave, AfterStart, Ops, Events, Swept, Hydrated, Cleared, Sessions.Serialized;
    if GoesDown(r, e.down) {
      var rotated := Rotated(cfg, r, e);
      SaveKeeps(cfg, rotated, e.write);
      var written := AfterTraffic(cfg, AfterSave(cfg, rotated, e.write), e.writing);
      if Writes(rotated, e.write) {
        assert Inv(written);
        StartKeeps(cfg, written, e.up);
      }
    }
  }

  lemma SetListenKeeps(cfg: Config, r: State, host: string, port: Option<int>, e: Change)
    requires Inv(r) && r.memory.Some?
    ensures Keeps(r, AfterSetListen(cfg, r, host, port, e).state)
  {
    hide AfterSave, AfterStart, AfterRollback;
    if ValidListen(host, port) && Address(Trim(host), port.value) != Listen(cfg, r) {
      var changed := SetOverride(r, Some(Trim(host)), port).(failure := None);
      SaveKeeps(cfg, changed, e.write);
      var saved := AfterSave(cfg, changed, e.write);
      if Writes(changed, e.write) && GoesDown(saved, e.down) {
        StartKeeps(cfg, AfterTeardown(saved, e.down), e.up);
        RollbackKeeps(cfg, AfterStart(cfg, AfterTeardown(saved, e.down), e.up).state, Listen(cfg, r), e);
      }
    }
  }

  lemma RollbackKeeps(cfg: Config, r: State, previous: Address, e: Change)
    requires Inv(r) && r.memory.Some?
    ensures Keeps(r, AfterRollback(cfg, r, previous, e).state)
  {
    hide AfterSave, AfterStart;
    var undone := SetOverride(Meanwhile(r, e.late), Some(previous.host), Some(previous.port));
    SaveKeeps(cfg, undone, e.undo);
    if Writes(undone, e.undo) {
      StartKeeps(cfg, AfterSave(cfg, undone, e.undo), e.again);
    }
  }

  lemma MutateKeeps(cfg: Config, r: State, op: Sessions.Op, at: int, w: Write, writing: Traffic)
    requires Inv(r) && r.memory.Some?
    ensures Keeps(r, AfterMutate(cfg, r, op, at, w, writing).state)
  {
    hide AfterSave, Ops, Events, Swept, Hydrated, Sessions.Serialized, Applies;
    var swept := r.(store := Swept(cfg, r.store, at));
    SaveKeeps(cfg, swept.(store := Ops(cfg.sessions, swept.store, [op])), w);
  }

  /** The first load's write, if it lands now, carries what memory says. */
  predicate Reflects(r: State) {
    r.landing.Some? && r.memory.Some? ==> DurableOf(r.memory.value, r.landing.value.sessions) == r.landing.value
  }

  /** No step but the landing of a stale write takes agreement away. */
  lemma StepKeeps(cfg: Config, r: State, e: Event)
    requires Inv(r)
    ensures Inv(Step(cfg, r, e))
    ensures Persisted(r) && (e.Landing? && e.ok && !r.blocked ==> Reflects(r)) ==> Persisted(Step(cfg, r, e))
    ensures !e.Glance? ==> Step(cfg, r, e).landing == r.landing || Step(cfg, r, e).landing.None?
  {
    hide AfterLoad, AfterGlance, AfterSave, AfterStart, AfterStop, AfterRotate, AfterSetListen, AfterMutate, Ops,
      Events;
    match e
    case Status(read) => LoadKeeps(cfg, r, read);
    case Glance(read) => GlanceKeeps(cfg, r, read);
    case Landing(_) =>
    case Start(read, up) =>
      LoadKeeps(cfg, r, read);
      StartKeeps(cfg, AfterLoad(cfg, r, read), up);
    case Restore(read, autoRestore, up) =>
      LoadKeeps(cfg, r, read);
      StartKeeps(cfg, AfterLoad(cfg, r, read), up);
    case Stop(read, down, write) =>
      LoadKeeps(cfg, r, read);
      StopKeeps(cfg, AfterLoad(cfg, r, read), down, write);
    case Rotate(read, rotation) =>
      LoadKeeps(cfg, r, read);
      RotateKeeps(cfg, AfterLoad(cfg, r, read), rotation);
    case SetListen(read, host, port, change) =>
      LoadKeeps(cfg, r, read);
      SetListenKeeps(cfg, AfterLoad(cfg, r, read), host, port, change);
    case Mutate(read, op, at, write, writing) =>
      LoadKeeps(cfg, r, read);
      MutateKeeps(cfg, AfterLoad(cfg, r, read), op, at, write, writing);
    case Flush(write) =>
      if r.memory.Some? { SaveKeeps(cfg, r, write); } else { SaveNothing(cfg, r, write); }
    case Requests(_) =>
    case Dispose(down, write) =>
      var gone := AfterTeardown(r.(disposed := true), down);
      if r.memory.Some? { SaveKeeps(cfg, gone, write); } else { SaveNothing(cfg, gone, write); }
  }

  lemma SaveNothing(cfg: Config, r: State, w: Write)
    requires r.memory.None?
    ensures AfterSave(cfg, r, w) == r
  {
  }

  lemma {:induction false} InvAlways(cfg: Config, states: seq<State>, events: seq<Event>, t: nat)
    requires Trace(cfg, states, events) && t < |states|
    ensures Inv(states[t])
  {
    hide Step;
    if t > 0 {
      InvAlways(cfg, states, events, t - 1);
      StepKeeps(cfg, states[t - 1], events[t - 1]);
      assert states[t - 1 + 1] == Step(cfg, states[t - 1], events[t - 1]);
    }
  }

  /** Up to state `t`, a first load's write that landed carried what memory said at the time. */
  ghost predicate LandsFit(states: seq<State>, events: seq<Event>, t: nat)
    requires t <= |events| <= |states|
  {
    forall k :: 0 <= k < t && events[k].Landing? && events[k].ok && !states[k].blocked ==> Reflects(states[k])
  }

  /** Up to state `t`, whenever no first load's write was under way: blocked, or memory and disk agree. */
  ghost predicate SettledUpTo(states: seq<State>, t: nat)
    requires t < |states|
  {
    forall u :: 0 <= u <= t && states[u].memory.Some? && states[u].landing.None? ==>
      states[u].blocked || Agrees(states[u])
  }

  lemma {:induction false} PersistedAlways(cfg: Config, states: seq<State>, events: seq<Event>, t: nat)
    requires Trace(cfg, states, events) && t <= |events| && LandsFit(states, events, t)
    ensures Persisted(states[t])
  {
    hide Step, Agrees, Reflects;
    if t > 0 {
      PersistedAlways(cfg, states, events, t - 1);
      InvAlways(cfg, states, events, t - 1);
      StepKeeps(cfg, states[t - 1], events[t - 1]);
      assert states[t - 1 + 1] == Step(cfg, states[t - 1], events[t - 1]);
    }
  }

  /** Between operations, whatever binds and writes did: persistence is marked blocked, or the state file carries
      memory's enabled flag, token and listen override - through a whole run exactly when no first load beside the
      gate has its write land after an operation has changed what it wrote. */
  lemma MemoryAgreesIff(cfg: Config, states: seq<State>, events: seq<Event>, t: nat)
    requires Trace(cfg, states, events) && t <= |events|
    ensures SettledUpTo(states, t) <==> LandsFit(states, events, t)
  {
    hide Step, Reflects, Agrees;
    if LandsFit(states, events, t) {
      forall u | 0 <= u <= t ensures Persisted(states[u]) {
        PersistedAlways(cfg, states, events, u);
      }
    } else {
      var k :| 0 <= k < t && events[k].Landing? && events[k].ok && !states[k].blocked && !Reflects(states[k]);
      StaleLandingDisagrees(cfg, states[k], events[k]);
      assert states[k + 1] == Step(cfg, states[k], events[k]);
    }
  }

  lemma StaleLandingDisagrees(cfg: Config, r: State, e: Event)
    requires e.Landing? && e.ok && !r.blocked && !Reflects(r)
    ensures var t := Step(cfg, r, e); t.memory.Some? && t.landing.None? && !t.blocked && !Agrees(t)
  {
  }

  /** When the first load is made behind the gate, there is no such write. */
  lemma MemoryAgreesWithDisk(cfg: Config, states: seq<State>, events: seq<Event>, t: nat)
    requires Trace(cfg, states, events) && t <= |events| && states[t].memory.Some?
    requires forall k :: 0 <= k < t ==> !events[k].Glance?
    ensures states[t].blocked || Agrees(states[t])
  {
    hide Step, Agrees, Reflects;
    forall u | 0 <= u <= t ensures states[u].landing.None? {
      NoLanding(cfg, states, events, u);
    }
    forall k | 0 <= k < t ensures Reflects(states[k]) {
      NothingToReflect(states[k]);
    }
    PersistedAlways(cfg, states, events, t);
  }

  lemma NothingToReflect(r: State)
    requires r.landing.None?
    ensures Reflects(r)
  {
  }

  lemma {:induction false} NoLanding(cfg: Config, states: seq<State>, events: seq<Event>, t: nat)
    requires Trace(cfg, states, events) && t <= |events|
    requires forall k :: 0 <= k < t ==> !events[k].Glance?
    ensures states[t].landing.None?
  {
    hide Step;
    if t > 0 {
      NoLanding(cfg, states, events, t - 1);
      InvAlways(cfg, states, events, t - 1);
      LandingStep(cfg, states[t - 1], events[t - 1]);
      assert states[t - 1 + 1] == Step(cfg, states[t - 1], events[t - 1]);
    }
  }

  lemma LandingStep(cfg: Config, r: State, e: Event)
    requires Inv(r) && r.landing.None? && (e.Glance? ==> r.memory.Some?)
    ensures Step(cfg, r, e).landing.None?
  {
    hide Inv, Persisted, Reflects, AfterLoad, AfterStart, AfterStop, AfterRotate, AfterSetListen, AfterMutate,
      AfterDispose;
    StepKeeps(cfg, r, e);
  }

  /** A runtime whose first load nothing makes behind the gate: the state is looked at first, and the proxy started
      before that look's own write has landed. The file ends up saying disabled while the proxy runs, and nothing is
      marked blocked. The plugin's entry point restores behind the gate first, so that there it cannot happen. */
  lemma StaleLanding(cfg: Config, token: string, listener: Address)
    ensures var read := Read(true, token, Write(0, true));
      var up := Up(None, Some(listener), Write(0, true), Down(true, true), false, None);
      var events := [Glance(read), Start(read, up), Landing(true)];
      var s0 := Initial(Missing);
      var s1 := Step(cfg, s0, events[0]);
      var s2 := Step(cfg, s1, events[1]);
      var s3 := Step(cfg, s2, events[2]);
      && Trace(cfg, [s0, s1, s2, s3], events)
      && s3.memory.Some? && s3.memory.value.enabled && s3.bound.Some? && !s3.blocked && s3.landing.None?
      && s3.disk.Stored? && !s3.disk.file.enabled
  {
    hide Swept, Hydrated, Sessions.Serialized;
  }

  /** A listener never accepts anything but the current token. */
  lemma ListenerHasCurrentToken(cfg: Config, states: seq<State>, events: seq<Event>, t: nat)
    requires Trace(cfg, states, events) && t < |states| && states[t].bound.Some?
    ensures states[t].memory.Some? && states[t].bound.value.token == states[t].memory.value.token
  {
    hide Step;
    InvAlways(cfg, states, events, t);
  }

  predicate SavesListen(r: State, host: Option<string>, port: Option<int>) {
    r.disk.Stored? && r.disk.file.listenHost == host && r.disk.file.listenPort == port
  }

  /** Once blocked, with no first load's write under way, persistence stays blocked and the file is never touched: a
      malformed or unreadable one is not overwritten. */
  lemma {:induction false} BlockedForever(cfg: Config, states: seq<State>, events: seq<Event>, i: nat, j: nat)
    requires Trace(cfg, states, events) && i <= j < |states| && states[i].blocked && states[i].landing.None?
    ensures states[j].blocked && states[j].disk == states[i].disk && states[j].memory.Some? && states[j].landing.None?
    decreases j
  {
    hide Step;
    InvAlways(cfg, states, events, j);
    if i < j {
      BlockedForever(cfg, states, events, i, j - 1);
      InvAlways(cfg, states, events, j - 1);
      LandingStep(cfg, states[j - 1], events[j - 1]);
      BlockedStep(cfg, states[j - 1], events[j - 1]);
      assert states[j - 1 + 1] == Step(cfg, states[j - 1], events[j - 1]);
    }
  }

  lemma BlockedStep(cfg: Config, r: State, e: Event)
    requires r.blocked && r.memory.Some? && r.landing.None?
    ensures Step(cfg, r, e).blocked && Step(cfg, r, e).disk == r.disk
  {
    hide Ops, Events, Swept, Hydrated, Cleared, Sessions.Serialized, ValidListen, Applies;
  }

  // ----- changing the listen address -----

  /** The change takes: it is a change, it is written, and no running proxy fails to come back on it; a first load's
      write that has failed by then keeps it from coming back. */
  predicate Takes(cfg: Config, r: State, host: string, port: Option<int>, e: Change)
    requires r.memory.Some?
  {
    ValidListen(host, port) && !r.blocked && e.write.ok
    && (GoesDown(r, e.down) && r.bound.Some? ==>
      !r.disposed && !(r.landing.Some? && e.up.early) && e.up.refusal.None? && e.up.listener.Some?)
  }

  /** Where a change of the listen address ends, for every outcome of writes, binds and closes, a first load's write
      that ends meanwhile included: on the new address when it takes, else on the previous effective one. */
  lemma SetListenLands(cfg: Config, r: State, host: string, port: Option<int>, e: Change)
    requires Inv(r) && r.memory.Some?
    ensures var after := AfterSetListen(cfg, r, host, port, e).state;
      after.memory.Some?
      && Listen(cfg, after) == if Takes(cfg, r, host, port, e) then Address(Trim(host), port.value) else Listen(cfg, r)
  {
    hide AfterSave, Trim;
    if ValidListen(host, port) && Address(Trim(host), port.value) != Listen(cfg, r) {
      var changed := SetOverride(r, Some(Trim(host)), port).(failure := None);
      SaveKeeps(cfg, changed, e.write);
      var saved := AfterSave(cfg, changed, e.write);
      if Writes(changed, e.write) && GoesDown(saved, e.down) && r.bound.Some? {
        var down := AfterTeardown(saved, e.down);
        StartKeeps(cfg, down, e.up);
        var up := AfterStart(cfg, down, e.up);
        StartOutcome(cfg, down, e.up);
        if !up.threw && up.state.bound.None? {
          RollbackLands(cfg, up.state, Listen(cfg, r), e);
        }
      }
    }
  }

  lemma StartOutcome(cfg: Config, r: State, e: Up)
    requires Inv(r) && r.memory.Some? && r.bound.None? && !r.blocked
    ensures var up := AfterStart(cfg, r, e);
      && (!r.disposed && !(r.landing.Some? && e.early) && e.refusal.None? && e.listener.Some?
          <==> up.threw || up.state.bound.Some?)
      && (!up.threw && up.state.bound.None? ==>
        up.state.disk == r.disk && up.state.memory == r.memory
        && (up.state.blocked <==> r.landing.Some? && e.early)
        && (!up.state.blocked ==> up.state.landing == r.landing))
      && (up.threw ==> up.state.blocked)
  {
    hide AfterSave;
    if e.listener.Some? {
      SaveKeeps(cfg, Meanwhile(Bound(cfg, r, e.listener.value), e.late), e.write);
    }
  }

  /** The rollback is written, and no first load's write replaces it. */
  predicate RollbackWrites(r: State, e: Change) {
    var undone := Meanwhile(r, e.late);
    Writes(undone, e.undo) && LandsUnder(undone, e.again)
  }

  lemma RollbackLands(cfg: Config, r: State, previous: Address, e: Change)
    requires Inv(r) && r.memory.Some?
    requires previous.host == "" ==> cfg.listen.host == ""
    ensures var after := AfterRollback(cfg, r, previous, e).state;
      && after.memory.Some? && Listen(cfg, after) == previous
      && (RollbackWrites(r, e) ==> SavesListen(after, Some(previous.host), Some(previous.port)))
  {
    hide AfterSave;
    var undone := SetOverride(Meanwhile(r, e.late), Some(previous.host), Some(previous.port));
    SaveKeeps(cfg, undone, e.undo);
    if Writes(undone, e.undo) {
      var saved := AfterSave(cfg, undone, e.undo);
      StartKeeps(cfg, saved, e.again);
      if LandsUnder(saved, e.again) {
        StartKeepsListenOnDisk(cfg, saved, e.again);
      }
    }
  }

  lemma StartKeepsListenOnDisk(cfg: Config, r: State, e: Up)
    requires r.memory.Some? && Agrees(r) && LandsUnder(r, e)
    ensures SavesListen(AfterStart(cfg, r, e).state, r.memory.value.listenHost, r.memory.value.listenPort)
  {
    hide Swept, Sessions.Serialized;
  }

  /** No first load's write fails before the rollback is written, and none replaces it. */
  predicate Undisturbed(r: State, e: Change) {
    r.landing.Some? ==> !e.up.early && e.late != Some(false) && (e.late.Some? || LandsUnder(r, e.again))
  }

  /** A refused new bind, with the rollback written: the previous effective address is in memory and, as the
      explicit override it has become, on disk. */
  lemma RefusedBindRollsBack(cfg: Config, r: State, host: string, port: Option<int>, e: Change)
    requires Inv(r) && r.memory.Some? && ValidListen(host, port) && !r.blocked && e.write.ok
    requires r.bound.Some? && GoesDown(r, e.down) && !Takes(cfg, r, host, port, e) && e.undo.ok && Undisturbed(r, e)
    requires Address(Trim(host), port.value) != Listen(cfg, r)
    ensures var after, previous := AfterSetListen(cfg, r, host, port, e).state, Listen(cfg, r);
      && after.memory.Some? && Listen(cfg, after) == previous
      && SavesListen(after, Some(previous.host), Some(previous.port))
      && Effective(cfg, after.disk.file.listenHost, after.disk.file.listenPort) == previous
  {
    hide AfterSave, Trim, AfterRollback;
    var changed := SetOverride(r, Some(Trim(host)), port).(failure := None);
    SaveKeeps(cfg, changed, e.write);
    var down := AfterTeardown(AfterSave(cfg, changed, e.write), e.down);
    StartKeeps(cfg, down, e.up);
    StartOutcome(cfg, down, e.up);
    RollbackLands(cfg, AfterStart(cfg, down, e.up).state, Listen(cfg, r), e);
  }

  // ----- rotating the token -----

  /** No device in the table bears the secret. */
  ghost predicate NoSecret(s: Store, secret: string) {
    forall id :: id in s.table.vals ==> Sessions.At(s, id).secretHash != Sessions.Digest(secret)
  }

  ghost predicate DataNoSecret(data: seq<Sessions.Raw>, secret: string) {
    forall i :: 0 <= i < |data| ==> data[i].secretHash != Some(Sessions.Digest(secret))
  }

  /** The call hands out the secret. */
  ghost predicate Issues(op: Sessions.Op, secret: string) {
    match op
    case Login(_, _, s, _, _) => s == secret
    case Reissue(_, _, s, _) => s == secret
    case Hydrate(data) => !DataNoSecret(data, secret)
    case _ => false
  }

  lemma NoSecretNoCookie(cfg: Config, s: Store, cookie: string, at: int)
    requires Sessions.DecodeCookie(cookie).Some? ==> NoSecret(s, Sessions.DecodeCookie(cookie).value.1)
    ensures !Sessions.IsActive(cfg.sessions, s, cookie, at)
  {
  }

  lemma {:induction false} InsertedSecrets(s: Store, data: seq<Sessions.Raw>, n: nat, secret: string)
    requires n <= |data| && DataNoSecret(data, secret) && NoSecret(s, secret)
    ensures NoSecret(Sessions.InsertAll(s, data, n), secret)
  {
    if n > 0 {
      InsertedSecrets(s, data, n - 1, secret);
      var init: Store := Sessions.InsertAll(s, data, n - 1);
      if Sessions.Acceptable(data[n - 1]) {
        InsertedSecret(init, Sessions.FromRaw(data[n - 1]), secret);
      }
    }
  }

  lemma InsertedSecret(s: Store, r: Sessions.Rec, secret: string)
    requires NoSecret(s, secret) && r.secretHash != Sessions.Digest(secret)
    ensures Sessions.Valid(Sessions.Insert(s, r)) && NoSecret(Sessions.Insert(s, r), secret)
  {
  }

  lemma HydratedSecret(cfg: Config, s: Store, data: seq<Sessions.Raw>, secret: string)
    requires DataNoSecret(data, secret)
    ensures NoSecret(Hydrated(cfg, s, data), secret)
  {
    InsertedSecrets(s.(table := OM.Empty()), data, SessionRuns.Taken(cfg.sessions, data), secret);
  }

  lemma LoginSecret(cfg: Sessions.Config, s: Store, op: Sessions.Op, secret: string)
    requires op.Login? && !Issues(op, secret) && NoSecret(s, secret)
    ensures Sessions.Valid(Sessions.Step(cfg, s, op)) && NoSecret(Sessions.Step(cfg, s, op), secret)
  {
    SessionRuns.StepValid(cfg, s, op);
    if !Sessions.AtCapacity(cfg, s, op.at) {
      var swept := Sessions.Sweep(cfg, s, op.at);
      var r := Sessions.NewRecord(cfg, op.at, op.id, op.secret, op.deviceLabel, op.ip);
      InsertedSecret(swept, r, secret);
      SessionRuns.EvictKeeps(cfg, Sessions.Insert(swept, r), op.id);
    }
  }

  /** Nothing but handing it out puts a secret in the table. */
  lemma StepNoSecret(cfg: Config, s: Store, op: Sessions.Op, secret: string)
    requires NoSecret(s, secret) && !Issues(op, secret)
    ensures Sessions.Valid(Sessions.Step(cfg.sessions, s, op)) && NoSecret(Sessions.Step(cfg.sessions, s, op), secret)
  {
    hide Sessions.Step;
    SessionRuns.StepValid(cfg.sessions, s, op);
    if op.Login? {
      LoginSecret(cfg.sessions, s, op, secret);
    } else if op.Hydrate? {
      HydratedSecret(cfg, s, op.data, secret);
      assert Sessions.Step(cfg.sessions, s, op) == Hydrated(cfg, s, op.data) by { HydrateIsStep(cfg, s, op.data); }
    } else {
      var t := Sessions.Step(cfg.sessions, s, op);
      SessionRuns.StepMakesNone(cfg.sessions, s, op);
      forall id | id in t.table.vals ensures Sessions.At(t, id).secretHash != Sessions.Digest(secret) {
        var ref := t.table.vals[id];
        SessionRuns.StepEvolves(cfg.sessions, s, op, ref);
        SessionRuns.StepKeepsSecret(cfg.sessions, s, op, ref);
        assert Sessions.Linked(t, ref);
        assert Sessions.Linked(s, ref);
      }
    }
  }

  lemma HydrateIsStep(cfg: Config, s: Store, data: seq<Sessions.Raw>)
    ensures Sessions.Step(cfg.sessions, s, Sessions.Hydrate(data)) == Hydrated(cfg, s, data)
  {
  }

  lemma {:induction false} OpsNoSecret(cfg: Config, s: Store, ops: seq<Sessions.Op>, secret: string)
    requires NoSecret(s, secret) && forall op :: op in ops ==> !Issues(op, secret)
    ensures NoSecret(Ops(cfg.sessions, s, ops), secret)
  {
    if ops != [] {
      OpsNoSecret(cfg, s, ops[..|ops| - 1], secret);
      StepNoSecret(cfg, Ops(cfg.sessions, s, ops[..|ops| - 1]), ops[|ops| - 1], secret);
    }
  }

  lemma SerializedNoSecret(cfg: Config, s: Store, at: int, secret: string)
    requires NoSecret(s, secret)
    ensures DataNoSecret(Sessions.Serialized(cfg.sessions, s, at), secret)
  {
    var swept := Swept(cfg, s, at);
    var live := Sessions.LiveRecords(swept);
    forall i | 0 <= i < |live| ensures live[i].secretHash != Sessions.Digest(secret) {
      SessionRuns.LiveIsLinked(swept, live[i]);
    }
  }

  lemma SweptNoSecret(cfg: Config, s: Store, at: int, secret: string)
    requires NoSecret(s, secret)
    ensures NoSecret(Swept(cfg, s, at), secret)
  {
  }

  /** The code is not in the store. */
  predicate NoCode(m: Invites.Codes, code: string) {
    Invites.View(m, code).None?
  }

  lemma {:induction false} EventsNoCode(o: Invites.Options, m: Invites.Codes, events: seq<Invites.Event>, code: string)
    requires NoCode(m, code) && forall e :: e in events ==> !(e.Issue? && e.code == code)
    ensures NoCode(Events(o, m, events), code)
  {
    if events != [] {
      EventsNoCode(o, m, events[..|events| - 1], code);
      Invites.StepChange(o, Events(o, m, events[..|events| - 1]), events[|events| - 1], code);
    }
  }

  /** Neither the secret nor the code, if one is meant, is good for anything. */
  ghost predicate Clean(r: State, secret: string, code: Option<string>) {
    NoSecret(r.store, secret) && (code.Some? ==> NoCode(r.codes, code.value))
  }

  /** The traffic hands out neither the secret nor the code. */
  ghost predicate Spares(t: Traffic, secret: string, code: Option<string>) {
    (forall op :: op in t.ops ==> !Issues(op, secret))
    && (code.Some? ==> forall e :: e in t.codes ==> !(e.Issue? && e.code == code.value))
  }

  ghost predicate EventSpares(e: Event, secret: string, code: Option<string>) {
    match e
    case Rotate(_, rotation) => Spares(rotation.closing, secret, code) && Spares(rotation.writing, secret, code)
    case Mutate(_, op, _, _, writing) => !Issues(op, secret) && Spares(writing, secret, code)
    case Requests(traffic) => Spares(traffic, secret, code)
    case _ => true
  }

  lemma TrafficClean(cfg: Config, r: State, t: Traffic, secret: string, code: Option<string>)
    requires Clean(r, secret, code) && Spares(t, secret, code)
    ensures Clean(AfterTraffic(cfg, r, t), secret, code)
  {
    OpsNoSecret(cfg, r.store, t.ops, secret);
    if code.Some? {
      EventsNoCode(cfg.invites, r.codes, t.codes, code.value);
    }
  }

  lemma SaveClean(cfg: Config, r: State, w: Write, secret: string, code: Option<string>)
    requires Clean(r, secret, code)
    ensures Clean(AfterSave(cfg, r, w), secret, code)
  {
    hide Swept, Sessions.Serialized;
    SweptNoSecret(cfg, r.store, w.at, secret);
  }

  lemma StartClean(cfg: Config, r: State, e: Up, secret: string, code: Option<string>)
    requires r.memory.Some? && Clean(r, secret, code)
    ensures Clean(AfterStart(cfg, r, e).state, secret, code)
  {
    hide AfterSave, NoSecret;
    if e.listener.Some? {
      SaveClean(cfg, Meanwhile(Bound(cfg, if e.early then AfterLanding(r, false) else r, e.listener.value), e.late),
                e.write,
                secret, code);
    }
  }

  lemma SetListenClean(cfg: Config, r: State, host: string, port: Option<int>, e: Change, secret: string,
                       code: Option<string>)
    requires r.memory.Some? && Inv(r) && Clean(r, secret, code)
    ensures Clean(AfterSetListen(cfg, r, host, port, e).state, secret, code)
  {
    hide AfterSave, AfterStart, NoSecret, Trim;
    if ValidListen(host, port) {
      var changed := SetOverride(r, Some(Trim(host)), port).(failure := None);
      SaveKeeps(cfg, changed, e.write);
      SaveClean(cfg, changed, e.write, secret, code);
      var down := AfterTeardown(AfterSave(cfg, changed, e.write), e.down);
      StartClean(cfg, down, e.up, secret, code);
      if Writes(changed, e.write) {
        StartKeeps(cfg, down, e.up);
        var undone := SetOverride(Meanwhile(AfterStart(cfg, down, e.up).state, e.late), Some(Listen(cfg, r).host),
                                  Some(Listen(cfg, r).port));
        SaveKeeps(cfg, undone, e.undo);
        SaveClean(cfg, undone, e.undo, secret, code);
        StartClean(cfg, AfterSave(cfg, undone, e.undo), e.again, secret, code);
      }
    }
  }

  lemma RotateClean(cfg: Config, r: State, e: Rotation, secret: string, code: Option<string>)
    requires r.memory.Some? && Clean(r, secret, code)
    requires Spares(e.closing, secret, code) && Spares(e.writing, secret, code)
    ensures Clean(AfterRotate(cfg, r, e).state, secret, code)
  {
    hide AfterSave, AfterStart, NoSecret, Spares, Swept, Hydrated, Ops, Events, Sessions.Serialized, Cleared;
    SweptNoSecret(cfg, r.store, e.at, secret);
    TrafficClean(cfg, r.(store := Swept(cfg, r.store, e.at)), e.closing, secret, code);
    if GoesDown(r, e.down) {
      RotatedClean(cfg, r, e, secret, code);
      var rotated := Rotated(cfg, r, e);
      SaveKeeps(cfg, rotated, e.write);
      SaveClean(cfg, rotated, e.write, secret, code);
      var written := AfterTraffic(cfg, AfterSave(cfg, rotated, e.write), e.writing);
      TrafficClean(cfg, AfterSave(cfg, rotated, e.write), e.writing, secret, code);
      StartClean(cfg, written, e.up, secret, code);
      SerializedNoSecret(cfg, r.store, e.at, secret);
      HydratedSecret(cfg, written.store, Sessions.Serialized(cfg.sessions, r.store, e.at), secret);
    }
  }

  /** At the moment of rotation no device and no invite is left at all. */
  lemma RotatedClean(cfg: Config, r: State, e: Rotation, secret: string, code: Option<string>)
    requires r.memory.Some?
    ensures Clean(Rotated(cfg, r, e), secret, code)
  {
    hide Swept, Ops, Events;
  }

  lemma MutateClean(cfg: Config, r: State, op: Sessions.Op, at: int, w: Write, writing: Traffic, secret: string,
                    code: Option<string>)
    requires r.memory.Some? && Clean(r, secret, code) && !Issues(op, secret) && Spares(writing, secret, code)
    ensures Clean(AfterMutate(cfg, r, op, at, w, writing).state, secret, code)
  {
    hide AfterSave, NoSecret, Spares, Issues, Swept, Hydrated, Ops, Events, Sessions.Serialized, Applies;
    SweptNoSecret(cfg, r.store, at, secret);
    SerializedNoSecret(cfg, r.store, at, secret);
    var swept := r.(store := Swept(cfg, r.store, at));
    OpsNoSecret(cfg, swept.store, [op], secret);
    var changed := swept.(store := Ops(cfg.sessions, swept.store, [op]));
    SaveClean(cfg, changed, w, secret, code);
    TrafficClean(cfg, AfterSave(cfg, changed, w), writing, secret, code);
    HydratedSecret(cfg, AfterTraffic(cfg, AfterSave(cfg, changed, w), writing).store,
                   Sessions.Serialized(cfg.sessions, r.store, at), secret);
  }

  lemma StopDisposeClean(cfg: Config, r: State, e: Event, secret: string, code: Option<string>)
    requires r.memory.Some? && Clean(r, secret, code) && (e.Stop? || e.Dispose?)
    ensures Clean(Step(cfg, r, e), secret, code)
  {
    hide AfterSave, NoSecret;
    var off := SetMemory(AfterTeardown(r, e.down), r.memory.value.(enabled := false)).(failure := None);
    SaveClean(cfg, off, e.write, secret, code);
    SaveClean(cfg, AfterTeardown(r.(disposed := true), e.down), e.write, secret, code);
  }

  lemma LandingClean(r: State, ok: bool, secret: string, code: Option<string>)
    requires Clean(r, secret, code)
    ensures Clean(AfterLanding(r, ok), secret, code)
  {
  }

  lemma StepClean(cfg: Config, r: State, e: Event, secret: string, code: Option<string>)
    requires Inv(r) && r.memory.Some? && Clean(r, secret, code) && EventSpares(e, secret, code)
    ensures Clean(Step(cfg, r, e), secret, code) && Step(cfg, r, e).memory.Some?
  {
    hide AfterStart, AfterSetListen, AfterRotate, AfterMutate, AfterSave, Clean, Inv, Spares, Issues;
    StaysLoaded(cfg, r, e);
    match e
    case Status(_) =>
    case Glance(_) =>
    case Landing(ok) => LandingClean(r, ok, secret, code);
    case Start(_, up) => StartClean(cfg, r, up, secret, code);
    case Restore(_, _, up) => StartClean(cfg, r, up, secret, code);
    case Stop(_, _, _) => StopDisposeClean(cfg, r, e, secret, code);
    case Rotate(_, rotation) => RotateClean(cfg, r, rotation, secret, code);
    case SetListen(_, host, port, change) => SetListenClean(cfg, r, host, port, change, secret, code);
    case Mutate(_, op, at, write, writing) => MutateClean(cfg, r, op, at, write, writing, secret, code);
    case Flush(write) => SaveClean(cfg, r, write, secret, code);
    case Requests(traffic) => TrafficClean(cfg, r, traffic, secret, code);
    case Dispose(_, _) => StopDisposeClean(cfg, r, e, secret, code);
  }

  lemma StaysLoaded(cfg: Config, r: State, e: Event)
    requires r.memory.Some?
    ensures Step(cfg, r, e).memory.Some?
  {
    hide AfterSave, AfterStart, Swept, Hydrated, Ops, Events, Cleared, Sessions.Serialized, ValidListen, Applies;
  }

  /** The rotation reaches the disk. */
  predicate Rotates(r: State, e: Rotation) {
    GoesDown(r, e.down) && !r.blocked && e.write.ok
  }

  /** A rotation that returns has reached the disk, and one that does has the new token in memory and, unless a first
      load's write goes over it while the proxy restarts, on disk. */
  lemma RotationTakes(cfg: Config, r: State, e: Rotation)
    requires Inv(r) && r.memory.Some?
    ensures !AfterRotate(cfg, r, e).threw ==> Rotates(r, e)
    ensures Rotates(r, e) ==>
      var after := AfterRotate(cfg, r, e).state;
      && after.memory.Some? && after.memory.value.token == e.token
      && (LandsUnder(r, e.up) ==> after.disk.Stored? && after.disk.file.token == Some(e.token))
  {
    hide AfterSave, AfterStart, Swept, Hydrated, Ops, Events, Sessions.Serialized, Cleared;
    if GoesDown(r, e.down) {
      var rotated := Rotated(cfg, r, e);
      SaveKeeps(cfg, rotated, e.write);
      var written := AfterTraffic(cfg, AfterSave(cfg, rotated, e.write), e.writing);
      StartKeepsToken(cfg, written, e.up);
    }
  }

  lemma StartKeepsToken(cfg: Config, r: State, e: Up)
    requires r.memory.Some?
    ensures var after := AfterStart(cfg, r, e).state;
      && after.memory.Some? && after.memory.value.token == r.memory.value.token
      && (LandsUnder(r, e) && r.disk.Stored? && r.disk.file.token == Some(r.memory.value.token) ==>
            after.disk.Stored? && after.disk.file.token == Some(r.memory.value.token))
  {
    hide Swept, Sessions.Serialized;
  }

  lemma RotationCleans(cfg: Config, r: State, e: Rotation, secret: string, code: Option<string>)
    requires r.memory.Some? && Rotates(r, e) && Spares(e.writing, secret, code)
    ensures Clean(AfterRotate(cfg, r, e).state, secret, code)
  {
    hide AfterSave, AfterStart, NoSecret, Spares, Swept, Hydrated, Ops, Events, Sessions.Serialized, Cleared;
    RotatedClean(cfg, r, e, secret, code);
    var rotated := Rotated(cfg, r, e);
    SaveKeeps(cfg, rotated, e.write);
    SaveClean(cfg, rotated, e.write, secret, code);
    var written := AfterTraffic(cfg, AfterSave(cfg, rotated, e.write), e.writing);
    TrafficClean(cfg, AfterSave(cfg, rotated, e.write), e.writing, secret, code);
    StartClean(cfg, written, e.up, secret, code);
  }

  /** The secret inside a cookie; the empty text when it is no cookie. */
  function SecretOf(cookie: string): string {
    if Sessions.DecodeCookie(cookie).None? then "" else Sessions.DecodeCookie(cookie).value.1
  }

  lemma {:induction false} CleanFrom(cfg: Config, states: seq<State>, events: seq<Event>, i: nat, j: nat,
                                     secret: string, code: Option<string>)
    requires Trace(cfg, states, events) && i <= j < |states|
    requires states[i].memory.Some? && Clean(states[i], secret, code)
    requires forall k :: i <= k < j ==> EventSpares(events[k], secret, code)
    ensures Clean(states[j], secret, code) && states[j].memory.Some?
    decreases j
  {
    hide Step, Clean, EventSpares, Inv;
    if i < j {
      CleanFrom(cfg, states, events, i, j - 1, secret, code);
      InvAlways(cfg, states, events, j - 1);
      StepClean(cfg, states[j - 1], events[j - 1], secret, code);
      assert states[j - 1 + 1] == Step(cfg, states[j - 1], events[j - 1]);
    }
  }

  /** After a rotation that reached the disk no earlier cookie and no earlier invite is good for anything, then or
      at any later point of the run, unless its secret or code is handed out anew. */
  lemma RotationIsFinal(cfg: Config, states: seq<State>, events: seq<Event>, i: nat, j: nat,
                        cookie: string, code: string, at: int, ip: Option<string>)
    requires Trace(cfg, states, events) && i < j < |states|
    requires events[i].Rotate? && Rotates(AfterLoad(cfg, states[i], events[i].read), events[i].rotation)
    requires Spares(events[i].rotation.writing, SecretOf(cookie), Some(code))
    requires forall k :: i < k < j ==> EventSpares(events[k], SecretOf(cookie), Some(code))
    ensures !Sessions.IsActive(cfg.sessions, states[j].store, cookie, at)
    ensures Invites.ConsumeAnswer(cfg.invites, states[j].codes, code, ip, at) == Invites.Refused
  {
    hide AfterRotate, AfterLoad, Spares, EventSpares, Step, NoSecret, Inv, Sessions.IsActive;
    var secret := SecretOf(cookie);
    var loaded := AfterLoad(cfg, states[i], events[i].read);
    assert states[i + 1] == AfterRotate(cfg, loaded, events[i].rotation).state
      by { RotateStep(cfg, states[i], events[i]); }
    InvAlways(cfg, states, events, i);
    LoadKeeps(cfg, states[i], events[i].read);
    RotationTakes(cfg, loaded, events[i].rotation);
    RotationCleans(cfg, loaded, events[i].rotation, secret, Some(code));
    CleanFrom(cfg, states, events, i + 1, j, secret, Some(code));
    NoSecretNoCookie(cfg, states[j].store, cookie, at);
  }

  lemma RotateStep(cfg: Config, r: State, e: Event)
    requires e.Rotate?
    ensures Step(cfg, r, e) == AfterRotate(cfg, AfterLoad(cfg, r, e.read), e.rotation).state
  {
  }

  ghost predicate Restorable(cfg: Config, s: Store) {
    && SessionRuns.WithinCapacity(cfg.sessions, s) && (cfg.sessions.maxSessions > 0 || cfg.sessions.approvalRequired)
    && forall id :: id in s.table.vals ==> SessionRuns.Storable(Sessions.At(s, id))
  }

  /** A rotation whose write fails throws and is undone: the token, the flag and the listen override are as
      before, the devices are exactly the live unexpired ones there were, and the file is untouched. */
  lemma FailedRotationUndone(cfg: Config, r: State, e: Rotation)
    requires Inv(r) && r.memory.Some? && Restorable(cfg, r.store) && GoesDown(r, e.down) && !Rotates(r, e)
    ensures var after := AfterRotate(cfg, r, e);
      && after.threw && after.state.blocked && after.state.memory == r.memory && after.state.disk == r.disk
      && Sessions.Records(after.state.store) == Sessions.LiveRecords(Swept(cfg, r.store, e.at))
  {
    hide AfterSave, Swept, Ops, Events, Cleared, Sessions.Serialized, Sessions.AfterHydrate;
    var rotated := Rotated(cfg, r, e);
    SaveKeeps(cfg, rotated, e.write);
    var written := AfterTraffic(cfg, AfterSave(cfg, rotated, e.write), e.writing);
    Restores(cfg, r.store, e.at, written.store);
  }

  /** An owner's action whose write fails throws and is undone in the same way. */
  lemma FailedMutationUndone(cfg: Config, r: State, op: Sessions.Op, at: int, w: Write, writing: Traffic)
    requires Inv(r) && r.memory.Some? && Restorable(cfg, r.store) && (r.blocked || !w.ok)
    requires Applies(Swept(cfg, r.store, at), op)
    ensures var after := AfterMutate(cfg, r, op, at, w, writing);
      && after.threw && after.state.blocked && after.state.memory == r.memory && after.state.disk == r.disk
      && Sessions.Records(after.state.store) == Sessions.LiveRecords(Swept(cfg, r.store, at))
  {
    hide AfterSave, Swept, Ops, Events, Applies, Sessions.Serialized, Sessions.AfterHydrate;
    var swept := r.(store := Swept(cfg, r.store, at));
    var changed := swept.(store := Ops(cfg.sessions, swept.store, [op]));
    SaveKeeps(cfg, changed, w);
    Restores(cfg, r.store, at, AfterTraffic(cfg, AfterSave(cfg, changed, w), writing).store);
  }

  lemma Restores(cfg: Config, s: Store, at: int, other: Store)
    requires Restorable(cfg, s)
    ensures Sessions.Records(Hydrated(cfg, other, Sessions.Serialized(cfg.sessions, s, at))) ==
      Sessions.LiveRecords(Swept(cfg, s, at))
  {
    SessionRuns.HydrateRestores(cfg.sessions, s, at, other);
  }

  // ----- the closure -----

  /** The variables of the running plugin, and the state file. Each operation runs alone behind the gate; only
      device traffic gets in while it waits. */
  class RuntimeService {
    const cfg: Config
    var state: Option<Memory>
    var sessionStore: Store
    var inviteStore: Invites.Codes
    var statePersistenceBlocked: bool
    var lastFailure: Option<string>
    var bound: Option<Listener>
    var disposed: bool
    var disk: Disk
    /** The write of a first load made beside the gate, while it is under way. */
    var landing: Option<Durable>

    ghost function Now(): State
      reads this
    {
      State(state, sessionStore, inviteStore, statePersistenceBlocked, lastFailure, bound, disposed, disk, landing)
    }

    constructor (cfg: Config, disk: Disk)
      ensures this.cfg == cfg && Now() == Initial(disk)
    {
      this.cfg := cfg;
      state, sessionStore, inviteStore, statePersistenceBlocked := None, NoSessions(), OM.Empty(), false;
      lastFailure, bound, disposed, this.disk, landing := None, None, false, disk, None;
    }

    /** Waiting lets device traffic in. */
    method Await(t: Traffic)
      modifies this`sessionStore, this`inviteStore
      ensures Now() == AfterTraffic(cfg, old(Now()), t)
    {
      sessionStore := Ops(cfg.sessions, sessionStore, t.ops);
      inviteStore := Events(cfg.invites, inviteStore, t.codes);
    }

    /** The answer is whether the file was replaced. */
    method Save(w: Write) returns (written: bool)
      modifies this`sessionStore, this`statePersistenceBlocked, this`disk
      ensures Now() == AfterSave(cfg, old(Now()), w)
      ensures state.Some? ==> written == Writes(old(Now()), w)
    {
      if state.None? || statePersistenceBlocked {
        return false;
      }
      var m, data := state.value, Sessions.Serialized(cfg.sessions, sessionStore, w.at);
      sessionStore := Swept(cfg, sessionStore, w.at);
      if !w.ok {
        statePersistenceBlocked := true;
        return false;
      }
      disk := Stored(DurableOf(m, data));
      return true;
    }

    /** Everything the first load does before its write. */
    method Publish(e: Read)
      modifies this
      ensures Now() == Loaded(cfg, old(Now()), e)
    {
      var loaded := if e.readable && disk.Stored? then disk.file else Durable(false, None, None, None, []);
      statePersistenceBlocked := !e.readable || disk.Malformed?;
      var regenerated := loaded.token.None?;
      var token := if regenerated then e.token else loaded.token.value;
      state := Some(Memory(loaded.enabled, token, loaded.listenHost, loaded.listenPort));
      sessionStore := NoSessions();
      if !regenerated {
        sessionStore := Hydrated(cfg, sessionStore, loaded.sessions);
      }
    }

    method Load(e: Read)
      modifies this
      ensures Now() == AfterLoad(cfg, old(Now()), e)
    {
      hide Loaded;
      if state.Some? {
        return;
      }
      Publish(e);
      if !statePersistenceBlocked {
        var _ := Save(e.write);
      }
    }

    /** The same beside the gate, up to the write, which others no longer wait for. */
    method LoadBesideGate(e: Read)
      modifies this
      ensures Now() == AfterGlance(cfg, old(Now()), e)
    {
      hide Loaded, Swept, Sessions.Serialized;
      if state.Some? {
        return;
      }
      Publish(e);
      if !statePersistenceBlocked {
        landing := Some(DurableOf(state.value, Sessions.Serialized(cfg.sessions, sessionStore, e.write.at)));
        sessionStore := Swept(cfg, sessionStore, e.write.at);
      }
    }

    method LandWrite(ok: bool)
      modifies this
      ensures Now() == AfterLanding(old(Now()), ok)
    {
      if landing.None? {
        return;
      }
      if ok {
        disk := Stored(landing.value);
      } else {
        statePersistenceBlocked := true;
      }
      landing := None;
    }

    /** The answer is whether tunnel and listener are down; a refused close keeps the listener. */
    method Teardown(d: Down) returns (down: bool)
      modifies this`bound
      ensures Now() == AfterTeardown(old(Now()), d) && down == GoesDown(old(Now()), d)
    {
      if !d.tunnelStops {
        return false;
      }
      if bound.None? {
        return true;
      }
      if !d.closes {
        return false;
      }
      bound := None;
      return true;
    }

    method FailStart(reason: Option<string>)
      modifies this`lastFailure
      ensures Now() == old(Now()).(failure := reason)
    {
      lastFailure := reason;
    }

    method SetEnabled(on: bool)
      requires state.Some?
      modifies this`state
      ensures state.Some? && Now() == SetMemory(old(Now()), old(state).value.(enabled := on))
    {
      state := Some(state.value.(enabled := on));
    }

    method Start(e: Up) returns (threw: bool)
      requires state.Some?
      modifies this
      ensures Result(Now(), threw) == AfterStart(cfg, old(Now()), e)
    {
      hide AfterSave;
      if e.early {
        LandWrite(false);
      }
      if disposed {
        FailStart(Some("disposed"));
        return false;
      }
      if bound.Some? {
        lastFailure := None;
        return false;
      }
      var asked := Effective(cfg, state.value.listenHost, state.value.listenPort);
      if statePersistenceBlocked {
        FailStart(Some("state-invalid"));
        return false;
      }
      if e.refusal.Some? {
        FailStart(e.refusal);
        return false;
      }
      if e.listener.None? {
        FailStart(Some("listen-failed"));
        return false;
      }
      bound := Some(Listener(asked, e.listener.value, state.value.token));
      lastFailure := None;
      SetEnabled(true);
      if e.late.Some? {
        LandWrite(e.late.value);
      }
      var written := Save(e.write);
      if !written {
        SetEnabled(false);
        var _ := Teardown(e.down);
        return true;
      }
      return false;
    }

    method Stop(d: Down, w: Write) returns (threw: bool)
      requires state.Some?
      modifies this
      ensures Result(Now(), threw) == AfterStop(cfg, old(Now()), d, w)
    {
      var down := Teardown(d);
      if !down {
        return true;
      }
      SetEnabled(false);
      lastFailure := None;
      var written := Save(w);
      return !written;
    }

    method RotateToken(e: Rotation) returns (threw: bool)
      requires state.Some?
      modifies this
      ensures Result(Now(), threw) == AfterRotate(cfg, old(Now()), e)
    {
      hide Swept, Hydrated, Ops, Events, Cleared, Sessions.Serialized;
      var restart := bound.Some?;
      var previousToken := state.value.token;
      var previousSessions := Sessions.Serialized(cfg.sessions, sessionStore, e.at);
      sessionStore := Swept(cfg, sessionStore, e.at);
      Await(e.closing);
      var down := Teardown(e.down);
      if !down {
        return true;
      }
      state := Some(state.value.(token := e.token));
      sessionStore := Cleared(sessionStore);
      inviteStore := OM.Empty();
      assert Now() == Rotated(cfg, old(Now()), e);
      var written := Save(e.write);
      Await(e.writing);
      if !written {
        state := Some(state.value.(token := previousToken));
        sessionStore := Hydrated(cfg, sessionStore, previousSessions);
        lastFailure := Some("rotate-save-failed");
        return true;
      }
      if restart {
        threw := Start(e.up);
        return threw || !e.tunnelOk;
      }
      return !e.tunnelOk;
    }

    method Override(host: Option<string>, port: Option<int>)
      requires state.Some?
      modifies this`state
      ensures Now() == SetOverride(old(Now()), host, port)
    {
      state := Some(state.value.(listenHost := host, listenPort := port));
    }

    method ChangeListen(host: string, port: Option<int>, e: Change) returns (threw: bool)
      requires state.Some?
      modifies this
      ensures Result(Now(), threw) == AfterSetListen(cfg, old(Now()), host, port, e)
    {
      hide AfterSave, AfterStart, Trim;
      if !ValidListen(host, port) {
        return false;
      }
      var previous := Effective(cfg, state.value.listenHost, state.value.listenPort);
      if Address(Trim(host), port.value) == previous {
        return false;
      }
      var wasRunning := bound.Some?;
      var previousHost, previousPort := state.value.listenHost, state.value.listenPort;
      Override(Some(Trim(host)), port);
      lastFailure := None;
      var written := Save(e.write);
      if !written {
        Override(previousHost, previousPort);
        return true;
      }
      var down := Teardown(e.down);
      if !down {
        return true;
      }
      if !wasRunning {
        return false;
      }
      threw := Start(e.up);
      if threw {
        return true;
      }
      if bound.Some? {
        return !e.tunnelOk;
      }
      threw := RollBack(previous, e);
    }

    /** Back to the previous address. */
    method RollBack(previous: Address, e: Change) returns (threw: bool)
      requires state.Some?
      modifies this
      ensures Result(Now(), threw) == AfterRollback(cfg, old(Now()), previous, e)
    {
      hide AfterSave, AfterStart;
      if e.late.Some? {
        LandWrite(e.late.value);
      }
      Override(Some(previous.host), Some(previous.port));
      var written := Save(e.undo);
      if !written {
        return true;
      }
      threw := Start(e.again);
      return threw || !e.tunnelOk;
    }

    method MutateSession(op: Sessions.Op, at: int, w: Write, writing: Traffic) returns (threw: bool)
      requires state.Some?
      modifies this
      ensures Result(Now(), threw) == AfterMutate(cfg, old(Now()), op, at, w, writing)
    {
      hide Swept, Hydrated, Ops, Events, Sessions.Serialized, Applies;
      var previousSessions := Sessions.Serialized(cfg.sessions, sessionStore, at);
      sessionStore := Swept(cfg, sessionStore, at);
      if !Applies(sessionStore, op) {
        return false;
      }
      sessionStore := Ops(cfg.sessions, sessionStore, [op]);
      var written := Save(w);
      Await(writing);
      if !written {
        sessionStore := Hydrated(cfg, sessionStore, previousSessions);
        return true;
      }
      return false;
    }

    method DisposeRuntime(d: Down, w: Write) returns (threw: bool)
      modifies this
      ensures Result(Now(), threw) == AfterDispose(cfg, old(Now()), d, w)
    {
      disposed := true;
      var down := Teardown(d);
      if !down {
        return true;
      }
      var _ := Save(w);
      return false;
    }
  }
}
