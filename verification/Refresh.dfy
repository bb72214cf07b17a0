/** The refresh coordinator of the client: a single-flight, rate-limited machine driven by connection and
    visibility events, timers and settlements. Each event is one step; the closure itself follows as a class. */
module Refresh {
  import opened Text

  const RECOVERY_REFRESH_INTERVAL_MS := 5000

  datatype Carrier = Connected | Connecting | Disconnected | Unknown

  datatype Visibility = Visible | Hidden | Prerender

  datatype Snapshot = Snapshot(state: Carrier, refreshing: bool, refreshFailed: bool)

  /** Queued until its microtask runs; that calls the refresh callback, or skips it. */
  datatype Phase = Queued | Running | Skipped | Settled

  /** One attempt: `finished` says its promise has resolved, `timer` that its timeout is armed. */
  datatype Attempt = Attempt(automatic: bool, startedAt: int, phase: Phase, timer: bool, timedOut: bool, finished: bool)

  /** The closure's variables, the page as it is now, and `pending`: the connection observers that have
      published a recovery and will ask for a refresh once the listeners they called return. */
  datatype State = State(
    disposed: bool,
    lastRefreshAt: Option<int>,
    recoveryTimer: Option<int>,
    snapshot: Snapshot,
    flight: Option<nat>,
    attempts: seq<Attempt>,
    visibility: Option<Visibility>,
    page: Option<Visibility>,
    pending: nat
  )

  function Initial(carrier: Carrier, page: Option<Visibility>): State {
    State(false, None, None, Snapshot(carrier, false, false), None, [], page, page, 0)
  }

  function Publish(s: State, next: Snapshot): State {
    if s.disposed then s else s.(snapshot := next)
  }

  function AfterRequest(s: State, automatic: bool, now: int): State {
    if s.disposed then s
    else if s.flight.Some? then s.(recoveryTimer := None)
    else
      Publish(s.(recoveryTimer := None, lastRefreshAt := Some(now), flight := Some(|s.attempts|),
                 attempts := s.attempts + [Attempt(automatic, now, Queued, true, false, false)]),
              s.snapshot.(refreshing := true, refreshFailed := false))
  }

  /** Milliseconds still to wait; not positive when an automatic start is due. */
  function Delay(s: State, now: int): int {
    if s.lastRefreshAt.None? then 0 else s.lastRefreshAt.value + RECOVERY_REFRESH_INTERVAL_MS - now
  }

  /** `now` is the clock as the delay reads it, `later` as the start reads it. */
  function AfterRecovery(s: State, now: int, later: int): State {
    if s.disposed || s.page == Some(Hidden) || s.flight.Some? then s
    else if Delay(s, now) <= 0 then AfterRequest(s, true, later)
    else if s.recoveryTimer.None? then s.(recoveryTimer := Some(Delay(s, now)))
    else s
  }

  predicate CarrierRecovered(s: State, carrier: Carrier) {
    !s.disposed && carrier == Connected && s.snapshot.state != Connected
  }

  function AfterObserve(s: State, carrier: Carrier): State {
    if s.disposed then s
    else
      var more := if CarrierRecovered(s, carrier) then 1 else 0;
      Publish(s, s.snapshot.(state := carrier)).(pending := s.pending + more)
  }

  predicate PageRecovered(s: State) {
    s.page == Some(Visible) && s.visibility != Some(Visible)
  }

  function AfterVisibility(s: State, now: int, later: int): State {
    var t := s.(visibility := s.page, recoveryTimer := if s.page == Some(Hidden) then None else s.recoveryTimer);
    if PageRecovered(s) then AfterRecovery(t, now, later) else t
  }

  function WithAttempt(s: State, i: nat, a: Attempt): State
    requires i < |s.attempts|
  {
    s.(attempts := s.attempts[i := a])
  }

  /** The microtask: call the callback unless disposed, or automatic on a hidden page. */
  function AfterBegin(s: State, i: nat): State
    requires i < |s.attempts|
  {
    var go := !s.disposed && (!s.attempts[i].automatic || s.page != Some(Hidden));
    WithAttempt(s, i, s.attempts[i].(phase := if go then Running else Skipped))
  }

  function AfterTimeout(s: State, i: nat): State
    requires i < |s.attempts|
  {
    var t := WithAttempt(s, i, s.attempts[i].(timer := false, timedOut := true, finished := true));
    Publish(t, s.snapshot.(refreshing := false, refreshFailed := true))
  }

  function AfterSettle(s: State, i: nat, failed: bool): State
    requires i < |s.attempts|
  {
    var t := WithAttempt(s, i, s.attempts[i].(timer := false, phase := Settled, finished := true))
             .(flight := if s.flight == Some(i) then None else s.flight);
    if s.attempts[i].timedOut then t else Publish(t, s.snapshot.(refreshing := false, refreshFailed := failed))
  }

  function AfterDispose(s: State): State {
    if s.disposed then s
    else
      var t := s.(disposed := true, recoveryTimer := None, flight := None);
      if s.flight.Some? && s.flight.value < |s.attempts| then
        WithAttempt(t, s.flight.value, s.attempts[s.flight.value].(timer := false, finished := true))
      else t
  }

  // ----- events -----

  datatype Event =
    | Refresh(now: int)
    | Carry(carrier: Carrier)
    | Resume(now: int, later: int)
    | Turn(page: Visibility)
    | SeeVisibility(now: int, later: int)
    | RecoveryFires(now: int, later: int)
    | Begin(i: nat)
    | TimeoutFires(i: nat)
    | Settle(i: nat, failed: bool)
    | Dispose

  /** Timers fire only while armed, at any time from then on. Microtasks, timers and settlements wait until
      the running listeners have returned. */
  predicate Enabled(s: State, e: Event) {
    match e
    case Resume(now, later) => s.pending > 0 && now <= later
    case SeeVisibility(now, later) => !s.disposed && s.page.Some? && now <= later
    case RecoveryFires(now, later) => s.pending == 0 && s.recoveryTimer.Some? && now <= later
    case Begin(i) => s.pending == 0 && i < |s.attempts| && s.attempts[i].phase == Queued
    case TimeoutFires(i) => s.pending == 0 && i < |s.attempts| && s.attempts[i].timer
    case Settle(i, failed) =>
      && s.pending == 0 && i < |s.attempts|
      && (s.attempts[i].phase == Running || (s.attempts[i].phase == Skipped && !failed))
    case Turn(_) => s.page.Some?
    case _ => true
  }

  function Step(s: State, e: Event): State
    requires Enabled(s, e)
  {
    match e
    case Refresh(now) => AfterRequest(s, false, now)
    case Carry(carrier) => AfterObserve(s, carrier)
    case Resume(now, later) => AfterRecovery(s.(pending := s.pending - 1), now, later)
    case Turn(page) => s.(page := Some(page))
    case SeeVisibility(now, later) => AfterVisibility(s, now, later)
    case RecoveryFires(now, later) => AfterRecovery(s.(recoveryTimer := None), now, later)
    case Begin(i) => AfterBegin(s, i)
    case TimeoutFires(i) => AfterTimeout(s, i)
    case Settle(i, failed) => AfterSettle(s, i, failed)
    case Dispose => AfterDispose(s)
  }

  ghost predicate Trace(states: seq<State>, events: seq<Event>) {
    && |states| == |events| + 1
    && (exists carrier, page :: states[0] == Initial(carrier, page))
    && (forall t :: 0 <= t < |events| ==> Enabled(states[t], events[t]) && states[t + 1] == Step(states[t], events[t]))
  }

  // ----- what every step keeps -----

  /** The attempt number `i` is what the coordinator is waiting for. */
  predicate InFlight(s: State, i: nat) {
    s.flight == Some(i)
  }

  ghost predicate AttemptsOk(s: State) {
    forall i :: 0 <= i < |s.attempts| ==>
      var a := s.attempts[i];
      && (a.phase != Settled ==> i == |s.attempts| - 1 && (InFlight(s, i) || s.disposed))
      && (a.timer ==> InFlight(s, i) && !a.timedOut)
      && (!a.finished ==> InFlight(s, i) && a.timer)
      && (InFlight(s, i) ==> a.phase != Settled && (a.timedOut <==> !a.timer))
  }

  ghost predicate SpacedOut(s: State) {
    && (forall i :: 1 <= i < |s.attempts| && s.attempts[i].automatic ==>
      s.attempts[i].startedAt >= s.attempts[i - 1].startedAt + RECOVERY_REFRESH_INTERVAL_MS)
    && s.lastRefreshAt == (if s.attempts == [] then None else Some(s.attempts[|s.attempts| - 1].startedAt))
  }

  predicate Busy(s: State) {
    s.flight.Some? && s.flight.value < |s.attempts| && !s.attempts[s.flight.value].timedOut
  }

  ghost predicate SnapshotOk(s: State) {
    && (s.disposed || s.snapshot.refreshing == Busy(s))
    && (s.snapshot.refreshing ==> !s.snapshot.refreshFailed)
  }

  ghost predicate Inv(s: State) {
    && (s.flight.Some? ==> s.flight.value == |s.attempts| - 1)
    && (s.recoveryTimer.Some? ==> s.flight.None?)
    && (s.disposed ==> s.flight.None? && s.recoveryTimer.None?)
    && AttemptsOk(s) && SpacedOut(s) && SnapshotOk(s)
  }

  lemma RequestKeeps(s: State, automatic: bool, now: int)
    requires Inv(s)
    requires automatic && !s.disposed && s.flight.None? ==> Delay(s, now) <= 0
    ensures Inv(AfterRequest(s, automatic, now))
  {
    var t := AfterRequest(s, automatic, now);
    assert forall i :: 0 <= i < |s.attempts| ==> t.attempts[i] == s.attempts[i];
  }

  lemma RecoveryKeeps(s: State, now: int, later: int)
    requires Inv(s) && now <= later
    ensures Inv(AfterRecovery(s, now, later))
  {
    hide AfterRequest, AttemptsOk, SpacedOut, SnapshotOk;
    if !s.disposed && s.flight.None? && Delay(s, now) <= 0 {
      RequestKeeps(s, true, later);
    } else {
      Irrelevant(s, AfterRecovery(s, now, later));
    }
  }

  /** The invariant speaks of the attempts, the flight and the snapshot's busy part. */
  lemma Irrelevant(s: State, t: State)
    requires Inv(s)
    requires t.disposed == s.disposed && t.flight == s.flight && t.attempts == s.attempts
    requires t.lastRefreshAt == s.lastRefreshAt && t.snapshot.(state := Unknown) == s.snapshot.(state := Unknown)
    requires t.recoveryTimer.Some? ==> s.flight.None? && !s.disposed
    ensures Inv(t)
  {
  }

  lemma BeginKeeps(s: State, i: nat)
    requires Inv(s) && Enabled(s, Begin(i))
    ensures Inv(AfterBegin(s, i))
  {
    var t := AfterBegin(s, i);
    assert forall k :: 0 <= k < |s.attempts| && k != i ==> t.attempts[k] == s.attempts[k];
  }

  lemma TimeoutKeeps(s: State, i: nat)
    requires Inv(s) && Enabled(s, TimeoutFires(i))
    ensures Inv(AfterTimeout(s, i))
  {
    var t := AfterTimeout(s, i);
    assert InFlight(s, i);
    assert forall k :: 0 <= k < |s.attempts| && k != i ==> t.attempts[k] == s.attempts[k];
  }

  lemma SettleKeeps(s: State, i: nat, failed: bool)
    requires Inv(s) && Enabled(s, Settle(i, failed))
    ensures Inv(AfterSettle(s, i, failed))
  {
    var t := AfterSettle(s, i, failed);
    assert forall k :: 0 <= k < |s.attempts| && k != i ==> t.attempts[k] == s.attempts[k];
    assert s.disposed || InFlight(s, i);
  }

  lemma DisposeKeeps(s: State)
    requires Inv(s)
    ensures Inv(AfterDispose(s))
  {
    var t := AfterDispose(s);
    assert |t.attempts| == |s.attempts|;
    assert forall k :: 0 <= k < |s.attempts| && s.flight != Some(k) ==> t.attempts[k] == s.attempts[k];
  }

  lemma StepKeeps(s: State, e: Event)
    requires Inv(s) && Enabled(s, e)
    ensures Inv(Step(s, e))
  {
    hide AfterRequest, AfterRecovery, AfterBegin, AfterTimeout, AfterSettle, AfterDispose;
    hide AttemptsOk, SpacedOut, SnapshotOk;
    match e
    case Refresh(now) => RequestKeeps(s, false, now);
    case Carry(carrier) => Irrelevant(s, AfterObserve(s, carrier));
    case Resume(now, later) =>
      Irrelevant(s, s.(pending := s.pending - 1));
      RecoveryKeeps(s.(pending := s.pending - 1), now, later);
    case Turn(page) => Irrelevant(s, s.(page := Some(page)));
    case SeeVisibility(now, later) =>
      var t := s.(visibility := s.page, recoveryTimer := if s.page == Some(Hidden) then None else s.recoveryTimer);
      Irrelevant(s, t);
      RecoveryKeeps(t, now, later);
    case RecoveryFires(now, later) =>
      Irrelevant(s, s.(recoveryTimer := None));
      RecoveryKeeps(s.(recoveryTimer := None), now, later);
    case Begin(i) => BeginKeeps(s, i);
    case TimeoutFires(i) => TimeoutKeeps(s, i);
    case Settle(i, failed) => SettleKeeps(s, i, failed);
    case Dispose => DisposeKeeps(s);
  }

  lemma {:induction false} InvAlways(states: seq<State>, events: seq<Event>, t: nat)
    requires Trace(states, events) && t < |states|
    ensures Inv(states[t])
  {
    hide Step;
    if t > 0 {
      InvAlways(states, events, t - 1);
      StepKeeps(states[t - 1], events[t - 1]);
      assert states[t - 1 + 1] == Step(states[t - 1], events[t - 1]);
    }
  }

  // ----- the main results -----

  /** One callback at a time, even past its timeout: an attempt that has not settled is the last one made,
      and it is in flight unless the coordinator was disposed. */
  lemma OneCallback(states: seq<State>, events: seq<Event>, t: nat, i: nat, j: nat)
    requires Trace(states, events) && t < |states|
    requires i < |states[t].attempts| && j < |states[t].attempts|
    requires states[t].attempts[i].phase == Running && states[t].attempts[j].phase != Settled
    ensures i == j && (states[t].flight == Some(i) || states[t].disposed)
  {
    hide Step;
    InvAlways(states, events, t);
  }

  /** An automatic start comes at least five seconds after the start before it, of whichever kind. */
  lemma AutomaticStartsSpaced(states: seq<State>, events: seq<Event>, t: nat, i: nat)
    requires Trace(states, events) && t < |states|
    requires 1 <= i < |states[t].attempts| && states[t].attempts[i].automatic
    ensures states[t].attempts[i].startedAt >= states[t].attempts[i - 1].startedAt + RECOVERY_REFRESH_INTERVAL_MS
  {
    hide Step;
    InvAlways(states, events, t);
  }

  /** The snapshot says refreshing exactly while an attempt that has not timed out is in flight; a failure is
      never shown at the same time; and no recovery timer is armed beside a flight. */
  lemma SnapshotTells(states: seq<State>, events: seq<Event>, t: nat)
    requires Trace(states, events) && t < |states| && !states[t].disposed
    ensures states[t].snapshot.refreshing <==> Busy(states[t])
    ensures states[t].snapshot.refreshing ==> !states[t].snapshot.refreshFailed
    ensures states[t].recoveryTimer.Some? ==> states[t].flight.None?
  {
    hide Step;
    InvAlways(states, events, t);
  }

  /** A promise handed out either has resolved or has its timeout armed, and dispose resolves it. */
  lemma PromisesResolve(states: seq<State>, events: seq<Event>, t: nat, i: nat)
    requires Trace(states, events) && t < |states| && i < |states[t].attempts|
    ensures states[t].attempts[i].finished || (states[t].attempts[i].timer && !states[t].disposed)
    ensures states[t].attempts[i].phase == Settled ==> states[t].attempts[i].finished
  {
    hide Step;
    InvAlways(states, events, t);
  }

  /** A callback begins only before dispose, and an automatic one only on a page that is not hidden. */
  lemma NeverBeginsHidden(states: seq<State>, events: seq<Event>, t: nat, i: nat)
    requires Trace(states, events) && t < |events| && i < |states[t + 1].attempts|
    requires states[t + 1].attempts[i].phase == Running
    requires i < |states[t].attempts| ==> states[t].attempts[i].phase != Running
    ensures !states[t].disposed
    ensures states[t + 1].attempts[i].automatic ==> states[t].page != Some(Hidden)
  {
    assert states[t + 1] == Step(states[t], events[t]);
  }

  ghost predicate Quiet(s: State) {
    && s.recoveryTimer.None? && s.flight.None?
    && (forall i :: 0 <= i < |s.attempts| ==> !s.attempts[i].timer && s.attempts[i].finished)
  }

  lemma QuietStep(s: State, e: Event)
    requires Inv(s) && Enabled(s, e) && s.disposed
    ensures Step(s, e).disposed && Step(s, e).snapshot == s.snapshot && |Step(s, e).attempts| == |s.attempts|
    ensures forall i :: 0 <= i < |s.attempts| && Step(s, e).attempts[i].phase == Running ==>
      s.attempts[i].phase == Running
    ensures Quiet(s)
  {
  }

  /** After dispose no timer is armed, every promise has resolved, no callback begins, and the snapshot stays. */
  lemma {:induction false} SilentAfterDispose(states: seq<State>, events: seq<Event>, t: nat, u: nat)
    requires Trace(states, events) && t <= u < |states| && states[t].disposed
    ensures states[u].disposed && states[u].snapshot == states[t].snapshot && Quiet(states[u])
    ensures |states[u].attempts| == |states[t].attempts|
    ensures forall i :: 0 <= i < |states[u].attempts| && states[u].attempts[i].phase == Running ==>
      states[t].attempts[i].phase == Running
    decreases u
  {
    hide Step;
    InvAlways(states, events, u);
    if t < u {
      SilentAfterDispose(states, events, t, u - 1);
      InvAlways(states, events, u - 1);
      QuietStep(states[u - 1], events[u - 1]);
      assert states[u - 1 + 1] == Step(states[u - 1], events[u - 1]);
    }
  }

  // ----- automatic starts and recovery edges -----

  /** Step `t` is a recovery edge: the carrier connects again, or the page becomes visible. */
  predicate Edge(s: State, e: Event) {
    match e
    case Carry(carrier) => CarrierRecovered(s, carrier)
    case SeeVisibility(_, _) => PageRecovered(s)
    case _ => false
  }

  predicate Starts(s: State, t: State) {
    |s.attempts| < |t.attempts|
  }

  predicate StartsAutomatically(s: State, t: State) {
    Starts(s, t) && t.attempts[|t.attempts| - 1].automatic
  }

  /** An edge no later than step `t` - itself included when `t` is one - that no start has followed before `t`. */
  ghost predicate Owed(states: seq<State>, events: seq<Event>, t: nat)
    requires t < |events| < |states|
  {
    exists j :: 0 <= j <= t && Edge(states[j], events[j])
                && forall k :: 0 <= k < t && Starts(states[k], states[k + 1]) ==> k < j
  }

  /** The same for edges strictly before `t`. */
  ghost predicate OwedBefore(states: seq<State>, events: seq<Event>, t: nat)
    requires t <= |events| < |states|
  {
    exists j :: 0 <= j < t && Edge(states[j], events[j])
                && forall k :: 0 <= k < t && Starts(states[k], states[k + 1]) ==> k < j
  }

  ghost predicate Waiting(s: State) {
    s.recoveryTimer.Some? || (s.pending > 0 && s.flight.None? && !s.disposed)
  }

  /** What one step does to the need for an edge. */
  lemma EdgeStep(s: State, e: Event)
    requires Inv(s) && Enabled(s, e)
    ensures var t := Step(s, e);
      && (StartsAutomatically(s, t) ==> Edge(s, e) || Waiting(s))
      && (Starts(s, t) ==> !Waiting(t))
      && (Waiting(t) ==> Waiting(s) || Edge(s, e))
      && |s.attempts| <= |t.attempts|
  {
    hide AttemptsOk, SpacedOut, SnapshotOk;
  }

  lemma {:induction false} WaitingIsOwed(states: seq<State>, events: seq<Event>, t: nat)
    requires Trace(states, events) && t <= |events| && Waiting(states[t])
    ensures OwedBefore(states, events, t)
  {
    hide Step, Waiting, Edge, Starts, StartsAutomatically;
    if t == 0 {
      NothingOwedAtFirst(states, events);
    } else {
      InvAlways(states, events, t - 1);
      EdgeStep(states[t - 1], events[t - 1]);
      assert states[t - 1 + 1] == Step(states[t - 1], events[t - 1]);
      assert !Starts(states[t - 1], states[t - 1 + 1]);
      if Edge(states[t - 1], events[t - 1]) {
        assert forall k :: 0 <= k < t && Starts(states[k], states[k + 1]) ==> k < t - 1;
      } else {
        WaitingIsOwed(states, events, t - 1);
        var j :| 0 <= j < t - 1 && Edge(states[j], events[j])
                 && forall k :: 0 <= k < t - 1 && Starts(states[k], states[k + 1]) ==> k < j;
        assert forall k :: 0 <= k < t && Starts(states[k], states[k + 1]) ==> k < j;
      }
    }
  }

  lemma NothingOwedAtFirst(states: seq<State>, events: seq<Event>)
    requires Trace(states, events)
    ensures !Waiting(states[0])
  {
  }

  /** Every automatic start answers a recovery edge of its own: one that came after every earlier start. */
  lemma StartOwnsEdge(states: seq<State>, events: seq<Event>, t: nat)
    requires Trace(states, events) && t < |events| && StartsAutomatically(states[t], states[t + 1])
    ensures Owed(states, events, t)
  {
    hide Step, Waiting, Edge, Starts, StartsAutomatically;
    InvAlways(states, events, t);
    EdgeStep(states[t], events[t]);
    if Edge(states[t], events[t]) {
    } else {
      WaitingIsOwed(states, events, t);
    }
  }

  /** There are never more automatic starts than recovery edges. */
  function Edges(states: seq<State>, events: seq<Event>, t: nat): nat
    requires t <= |events| < |states|
  {
    if t == 0 then 0 else Edges(states, events, t - 1) + if Edge(states[t - 1], events[t - 1]) then 1 else 0
  }

  function AutomaticStarts(states: seq<State>, t: nat): nat
    requires t < |states|
  {
    if t == 0 then 0
    else AutomaticStarts(states, t - 1) + if StartsAutomatically(states[t - 1], states[t]) then 1 else 0
  }

  lemma {:induction false} StartsWithinEdges(states: seq<State>, events: seq<Event>, t: nat)
    requires Trace(states, events) && t <= |events|
    ensures AutomaticStarts(states, t) + (if Waiting(states[t]) then 1 else 0) <= Edges(states, events, t)
  {
    hide Step, Waiting, Edge, StartsAutomatically;
    if t == 0 {
      NothingOwedAtFirst(states, events);
    } else {
      StartsWithinEdges(states, events, t - 1);
      InvAlways(states, events, t - 1);
      EdgeStep(states[t - 1], events[t - 1]);
      assert states[t - 1 + 1] == Step(states[t - 1], events[t - 1]);
      assert StartsAutomatically(states[t - 1], states[t]) ==> Starts(states[t - 1], states[t])
        by { AutomaticIsStart(states[t - 1], states[t]); }
    }
  }

  lemma AutomaticIsStart(s: State, t: State)
    ensures StartsAutomatically(s, t) ==> Starts(s, t)
  {
  }

  // ----- the closure -----

  class CockpitConnection {
    var disposed: bool
    var lastRefreshAt: Option<int>
    var recoveryTimer: Option<int>
    var snapshot: Snapshot
    var flight: Option<nat>
    var attempts: seq<Attempt>
    var visibility: Option<Visibility>
    /** The document's own visibility, which the browser changes. */
    var page: Option<Visibility>
    /** Observers between publishing a recovery and asking for the refresh. */
    var pending: nat

    ghost function Now(): State
      reads this
    {
      State(disposed, lastRefreshAt, recoveryTimer, snapshot, flight, attempts, visibility, page, pending)
    }

    constructor (carrier: Carrier, page: Option<Visibility>)
      ensures Now() == Initial(carrier, page)
    {
      disposed, lastRefreshAt, recoveryTimer, flight, attempts := false, None, None, None, [];
      snapshot := Snapshot(carrier, false, false);
      this.page, visibility, pending := page, page, 0;
    }

    method PublishNext(next: Snapshot)
      modifies this`snapshot
      ensures Now() == Publish(old(Now()), next)
    {
      if disposed || next == snapshot {
        return;
      }
      snapshot := next;
    }

    method RequestRefresh(automatic: bool, now: int)
      modifies this
      ensures Now() == AfterRequest(old(Now()), automatic, now)
    {
      if disposed {
        return;
      }
      recoveryTimer := None;
      if flight != None {
        return;
      }
      lastRefreshAt := Some(now);
      flight := Some(|attempts|);
      attempts := attempts + [Attempt(automatic, now, Queued, true, false, false)];
      PublishNext(snapshot.(refreshing := true, refreshFailed := false));
    }

    method RequestRecoveryRefresh(now: int, later: int)
      modifies this
      ensures Now() == AfterRecovery(old(Now()), now, later)
    {
      if disposed || page == Some(Hidden) || flight != None {
        return;
      }
      var delay := if lastRefreshAt == None then 0 else lastRefreshAt.value + RECOVERY_REFRESH_INTERVAL_MS - now;
      if delay <= 0 {
        RequestRefresh(true, later);
      } else if recoveryTimer == None {
        recoveryTimer := Some(delay);
      }
    }

    method RecoveryTimerFires(now: int, later: int)
      requires Enabled(Now(), RecoveryFires(now, later))
      modifies this
      ensures Now() == Step(old(Now()), RecoveryFires(now, later))
    {
      recoveryTimer := None;
      RequestRecoveryRefresh(now, later);
    }

    /** Up to the listeners' return; the answer says whether a refresh will be asked for then. */
    method ObserveConnection(state: Carrier) returns (recovered: bool)
      modifies this
      ensures Now() == Step(old(Now()), Carry(state)) && recovered == Edge(old(Now()), Carry(state))
    {
      if disposed {
        return false;
      }
      recovered := state == Connected && snapshot.state != Connected;
      PublishNext(snapshot.(state := state));
      if recovered {
        pending := pending + 1;
      }
    }

    method ObserveConnectionReturns(now: int, later: int)
      requires Enabled(Now(), Resume(now, later))
      modifies this
      ensures Now() == Step(old(Now()), Resume(now, later))
    {
      pending := pending - 1;
      RequestRecoveryRefresh(now, later);
    }

    method ObserveVisibility(now: int, later: int)
      requires Enabled(Now(), SeeVisibility(now, later))
      modifies this
      ensures Now() == Step(old(Now()), SeeVisibility(now, later))
    {
      var next := page;
      var recovered := next == Some(Visible) && visibility != Some(Visible);
      visibility := next;
      if next == Some(Hidden) {
        recoveryTimer := None;
      }
      if recovered {
        RequestRecoveryRefresh(now, later);
      }
    }

    /** The microtask of attempt `i`; the answer says whether the callback is called. */
    method BeginAttempt(i: nat) returns (called: bool)
      requires Enabled(Now(), Begin(i))
      modifies this
      ensures Now() == Step(old(Now()), Begin(i)) && called == (attempts[i].phase == Running)
    {
      called := !disposed && (!attempts[i].automatic || page != Some(Hidden));
      attempts := attempts[i := attempts[i].(phase := if called then Running else Skipped)];
    }

    method AttemptTimesOut(i: nat)
      requires Enabled(Now(), TimeoutFires(i))
      modifies this
      ensures Now() == Step(old(Now()), TimeoutFires(i))
    {
      attempts := attempts[i := attempts[i].(timer := false)];
      attempts := attempts[i := attempts[i].(timedOut := true)];
      attempts := attempts[i := attempts[i].(finished := true)];
      PublishNext(snapshot.(refreshing := false, refreshFailed := true));
    }

    method SettleAttempt(i: nat, failed: bool)
      requires Enabled(Now(), Settle(i, failed))
      modifies this
      ensures Now() == Step(old(Now()), Settle(i, failed))
    {
      attempts := attempts[i := attempts[i].(timer := false, phase := Settled)];
      if flight == Some(i) {
        flight := None;
      }
      attempts := attempts[i := attempts[i].(finished := true)];
      if !attempts[i].timedOut {
        PublishNext(snapshot.(refreshing := false, refreshFailed := failed));
      }
    }

    method DisposeConnection()
      requires flight.Some? ==> flight.value < |attempts|
      modifies this
      ensures Now() == Step(old(Now()), Dispose)
    {
      if disposed {
        return;
      }
      disposed := true;
      recoveryTimer := None;
      if flight.Some? {
        var i := flight.value;
        attempts := attempts[i := attempts[i].(timer := false, finished := true)];
      }
      flight := None;
    }
  }
}
