/** The login handler between the throttle, the invites and the device sessions. A request reserves an attempt,
    waits for its body and a delay while other requests run, and then finishes in one go or falls into the catch. */
module LoginFlow {
  import opened Text
  import OM = OrderedMap
  import T = LoginThrottle
  import I = Invites
  import S = Sessions
  import R = SessionRuns

  datatype Config = Config(policy: T.Policy, invites: I.Options, sessions: S.Config)

  /** `open` holds the requests that have reserved an attempt and not discharged it, with the address charged. */
  datatype Gate = Gate(buckets: T.Buckets, codes: I.Codes, store: S.ValidStore, open: map<nat, string>)

  /** The posted form; `tokenMatches` is the constant-time comparison with the access token. */
  datatype Form = Form(invite: string, tokenMatches: bool, deviceLabel: string)

  /** The clock as the tracker, its pruning, the invite store and the session store read it, and what is drawn;
      `drawn` is false when the random source throws. */
  datatype Draws = Draws(now: int, pruneAt: int, consumeAt: int, at: int, id: string, secret: string, drawn: bool)

  /** Broken: the handler throws half-way, in the session store. */
  datatype Outcome = Denied | Created(id: string) | Reissued(id: string) | RetryGone | NoCapacity | Broken

  function Consumed(cfg: Config, g: Gate, remote: string, f: Form, d: Draws): I.Consumed {
    I.ConsumeAnswer(cfg.invites, g.codes, f.invite, Some(remote), d.consumeAt)
  }

  function LoginOutcome(cfg: Config, g: Gate, d: Draws): Outcome {
    if S.AtCapacity(cfg.sessions, g.store, d.at) then NoCapacity else if !d.drawn then Broken else Created(d.id)
  }

  function OutcomeOf(cfg: Config, g: Gate, remote: string, f: Form, d: Draws): Outcome {
    if f.invite == "" then if f.tokenMatches then LoginOutcome(cfg, g, d) else Denied
    else
      match Consumed(cfg, g, remote, f, d)
      case Refused => Denied
      case First => LoginOutcome(cfg, g, d)
      case Retry(None) => RetryGone
      case Retry(Some(id)) =>
        if !S.Reissuable(cfg.sessions, g.store, d.at, id) then RetryGone
        else if !d.drawn then Broken
        else Reissued(id)
  }

  // ----- the calls a step makes -----

  datatype Event =
    | Arrive(request: nat, remote: string, now: int)
    | Finish(request: nat, form: Form, draws: Draws)
    | Abort(request: nat, remote: string, now: int)
    | Owner(call: I.Event)
    | Device(op: S.Op)

  predicate Enabled(g: Gate, e: Event) {
    match e
    case Finish(request, _, _) => request in g.open
    case Abort(request, _, _) => request in g.open
    case Owner(call) => call.Issue? || call.Prune? || call.Clear?
    case _ => true
  }

  function Result(cfg: Config, g: Gate, e: Event): Outcome
    requires Enabled(g, e) && e.Finish?
  {
    OutcomeOf(cfg, g, g.open[e.request], e.form, e.draws)
  }

  function TrackerCalls(cfg: Config, g: Gate, e: Event): seq<T.Event>
    requires Enabled(g, e)
  {
    match e
    case Arrive(_, remote, now) => [T.Reserve(remote, now)]
    case Finish(request, f, d) =>
      if Result(cfg, g, e).Denied? then [T.Fail(g.open[request], d.now), T.Prune(d.pruneAt)]
      else [T.Success(g.open[request], d.now)]
    case Abort(_, remote, now) => [T.Fail(remote, now)]
    case _ => []
  }

  function InviteCalls(cfg: Config, g: Gate, e: Event): seq<I.Event>
    requires Enabled(g, e)
  {
    match e
    case Finish(request, f, d) =>
      if f.invite == "" then []
      else
        [I.Consume(f.invite, Some(g.open[request]), d.consumeAt)]
        + if Result(cfg, g, e).Created? then [I.Bind(f.invite, Result(cfg, g, e).id)] else []
    case Owner(call) => [call]
    case _ => []
  }

  function StoreCalls(cfg: Config, g: Gate, e: Event): seq<S.Op>
    requires Enabled(g, e)
  {
    match e
    case Finish(request, f, d) =>
      var remote := g.open[request];
      if Result(cfg, g, e).Created? || Result(cfg, g, e).NoCapacity? then
        [S.Login(d.at, d.id, d.secret, f.deviceLabel, Some(remote))]
      else if Result(cfg, g, e).Broken? then [S.List(d.at)]
      else if f.invite != "" && Consumed(cfg, g, remote, f, d).Retry? &&
        Consumed(cfg, g, remote, f, d).sessionId.Some? then
        [S.Reissue(d.at, Consumed(cfg, g, remote, f, d).sessionId.value, d.secret, Some(remote))]
      else []
    case Device(op) => [op]
    case _ => []
  }

  function Track(p: T.Policy, m: T.Buckets, calls: seq<T.Event>): T.Buckets {
    if calls == [] then m else T.Step(p, Track(p, m, calls[..|calls| - 1]), calls[|calls| - 1])
  }

  function Redeem(o: I.Options, m: I.Codes, calls: seq<I.Event>): I.Codes {
    if calls == [] then m else I.Step(o, Redeem(o, m, calls[..|calls| - 1]), calls[|calls| - 1])
  }

  function Operate(cfg: S.Config, s: S.ValidStore, calls: seq<S.Op>): S.ValidStore {
    if calls == [] then s
    else
      var before := Operate(cfg, s, calls[..|calls| - 1]);
      R.StepValid(cfg, before, calls[|calls| - 1]);
      S.Step(cfg, before, calls[|calls| - 1])
  }

  predicate Admitted(cfg: Config, g: Gate, e: Event) {
    e.Arrive? && T.Admits(cfg.policy, g.buckets, e.remote, e.now)
  }

  function Step(cfg: Config, g: Gate, e: Event): Gate
    requires Enabled(g, e)
  {
    Gate(Track(cfg.policy, g.buckets, TrackerCalls(cfg, g, e)),
         Redeem(cfg.invites, g.codes, InviteCalls(cfg, g, e)),
         Operate(cfg.sessions, g.store, StoreCalls(cfg, g, e)),
         if Admitted(cfg, g, e) then g.open[e.request := e.remote]
         else if e.Finish? || e.Abort? then g.open - {e.request}
         else g.open)
  }

  /** What the calls of a step come to for the throttle. */
  lemma TrackerStep(cfg: Config, g: Gate, e: Event)
    requires Enabled(g, e)
    ensures Track(cfg.policy, g.buckets, TrackerCalls(cfg, g, e)) ==
      match e
      case Arrive(_, remote, now) => T.AfterReserve(cfg.policy, g.buckets, remote, now)
      case Finish(request, f, d) =>
        if Result(cfg, g, e).Denied? then
          T.AfterPrune(cfg.policy, T.AfterFail(cfg.policy, g.buckets, g.open[request], d.now), d.pruneAt)
        else T.AfterSuccess(g.buckets, g.open[request])
      case Abort(_, remote, now) => T.AfterFail(cfg.policy, g.buckets, remote, now)
      case _ => g.buckets
  {
    hide T.AfterReserve, T.AfterFail, T.AfterPrune, T.AfterSuccess, OutcomeOf;
    var calls := TrackerCalls(cfg, g, e);
    if |calls| == 1 {
      assert calls[..0] == [];
    } else if |calls| == 2 {
      assert calls[..1] == [calls[0]] && calls[..1][..0] == [];
      assert Track(cfg.policy, g.buckets, []) == g.buckets;
      assert Track(cfg.policy, g.buckets, calls[..1]) == T.Step(cfg.policy, g.buckets, calls[0]);
    }
  }

  /** For the invites. */
  lemma InviteStep(cfg: Config, g: Gate, e: Event)
    requires Enabled(g, e) && e.Finish?
    ensures Redeem(cfg.invites, g.codes, InviteCalls(cfg, g, e)) ==
      if e.form.invite == "" then g.codes
      else
        var m := I.AfterConsume(cfg.invites, g.codes, e.form.invite, Some(g.open[e.request]), e.draws.consumeAt);
        if Result(cfg, g, e).Created? then I.AfterBind(m, e.form.invite, Result(cfg, g, e).id) else m
  {
    hide I.AfterConsume, I.AfterBind, OutcomeOf;
    var calls := InviteCalls(cfg, g, e);
    if |calls| == 1 {
      assert calls[..0] == [];
    } else if |calls| == 2 {
      assert calls[..1] == [calls[0]] && calls[..1][..0] == [];
      assert Redeem(cfg.invites, g.codes, []) == g.codes;
      assert Redeem(cfg.invites, g.codes, calls[..1]) == I.Step(cfg.invites, g.codes, calls[0]);
    }
  }

  /** For the device sessions. */
  lemma StoreStep(cfg: Config, g: Gate, e: Event)
    requires Enabled(g, e)
    ensures var calls := StoreCalls(cfg, g, e);
      Operate(cfg.sessions, g.store, calls) == if calls == [] then g.store else S.Step(cfg.sessions, g.store, calls[0])
  {
    hide S.Step, OutcomeOf;
    var calls := StoreCalls(cfg, g, e);
    if calls != [] {
      assert |calls| == 1 && calls[..0] == [];
    }
  }

  /** A run from empty throttle and invites; requests have numbers of their own. */
  ghost predicate Trace(cfg: Config, states: seq<Gate>, events: seq<Event>) {
    && |states| == |events| + 1
    && states[0].buckets == OM.Empty() && states[0].codes == OM.Empty() && states[0].open == map[]
    && (forall t :: 0 <= t < |events| ==>
      Enabled(states[t], events[t]) && states[t + 1] == Step(cfg, states[t], events[t]))
    && (forall i, j :: 0 <= i < j < |events| && events[i].Arrive? && events[j].Arrive? ==>
        events[i].request != events[j].request)
  }

  // ----- runs of the parts -----

  /** Every throttle call made before step `t`, in order. */
  function TrackerHistory(cfg: Config, states: seq<Gate>, events: seq<Event>, t: nat): seq<T.Event>
    requires t <= |events| < |states| && forall k :: 0 <= k < |events| ==> Enabled(states[k], events[k])
  {
    if t == 0 then [] else TrackerHistory(cfg, states, events, t - 1) + TrackerCalls(cfg, states[t - 1], events[t - 1])
  }

  function InviteHistory(cfg: Config, states: seq<Gate>, events: seq<Event>, t: nat): seq<I.Event>
    requires t <= |events| < |states| && forall k :: 0 <= k < |events| ==> Enabled(states[k], events[k])
  {
    if t == 0 then [] else InviteHistory(cfg, states, events, t - 1) + InviteCalls(cfg, states[t - 1], events[t - 1])
  }

  lemma {:induction false} TrackAfter(p: T.Policy, a: seq<T.Event>, b: seq<T.Event>)
    ensures T.Run(p, a + b) == Track(p, T.Run(p, a), b)
  {
    hide T.Step;
    if b == [] {
      assert a + b == a;
    } else {
      TrackAfter(p, a, b[..|b| - 1]);
      assert (a + b)[..|a + b| - 1] == a + b[..|b| - 1];
    }
  }

  lemma {:induction false} RedeemAfter(o: I.Options, a: seq<I.Event>, b: seq<I.Event>)
    ensures I.Run(o, a + b) == Redeem(o, I.Run(o, a), b)
  {
    hide I.Step;
    if b == [] {
      assert a + b == a;
    } else {
      RedeemAfter(o, a, b[..|b| - 1]);
      assert (a + b)[..|a + b| - 1] == a + b[..|b| - 1];
    }
  }

  /** The throttle in a run of the handler is the throttle after the calls made so far. */
  lemma {:induction false} ThrottleIsItsHistory(cfg: Config, states: seq<Gate>, events: seq<Event>, t: nat)
    requires Trace(cfg, states, events) && t <= |events|
    ensures states[t].buckets == T.Run(cfg.policy, TrackerHistory(cfg, states, events, t))
  {
    hide TrackerCalls, InviteCalls, StoreCalls, Track, Redeem, Operate;
    if t > 0 {
      ThrottleIsItsHistory(cfg, states, events, t - 1);
      TrackAfter(cfg.policy, TrackerHistory(cfg, states, events, t - 1),
                 TrackerCalls(cfg, states[t - 1], events[t - 1]));
      assert states[t - 1 + 1] == Step(cfg, states[t - 1], events[t - 1]);
    }
  }

  lemma {:induction false} InvitesAreTheirHistory(cfg: Config, states: seq<Gate>, events: seq<Event>, t: nat)
    requires Trace(cfg, states, events) && t <= |events|
    ensures states[t].codes == I.Run(cfg.invites, InviteHistory(cfg, states, events, t))
  {
    hide TrackerCalls, InviteCalls, StoreCalls, Track, Redeem, Operate;
    if t > 0 {
      InvitesAreTheirHistory(cfg, states, events, t - 1);
      RedeemAfter(cfg.invites, InviteHistory(cfg, states, events, t - 1),
                  InviteCalls(cfg, states[t - 1], events[t - 1]));
      assert states[t - 1 + 1] == Step(cfg, states[t - 1], events[t - 1]);
    }
  }

  // ----- reservations -----

  function Admissions(cfg: Config, states: seq<Gate>, events: seq<Event>, request: nat, t: nat): nat
    requires t <= |events| < |states|
  {
    if t == 0 then 0
    else
      Admissions(cfg, states, events, request, t - 1)
      + if Admitted(cfg, states[t - 1], events[t - 1]) && events[t - 1].request == request then 1 else 0
  }

  /** The throttle calls made by the steps of one request, in order. */
  function CallsOf(cfg: Config, states: seq<Gate>, events: seq<Event>, request: nat, t: nat): seq<T.Event>
    requires t <= |events| < |states| && forall k :: 0 <= k < |events| ==> Enabled(states[k], events[k])
  {
    if t == 0 then []
    else
      var before := CallsOf(cfg, states, events, request, t - 1);
      if Serves(events[t - 1], request) then before + TrackerCalls(cfg, states[t - 1], events[t - 1]) else before
  }

  predicate Serves(e: Event, request: nat) {
    (e.Arrive? || e.Finish? || e.Abort?) && e.request == request
  }

  /** How many of the calls discharge an attempt. */
  function Discharging(calls: seq<T.Event>): nat {
    if calls == [] then 0
    else
      var last := calls[|calls| - 1];
      Discharging(calls[..|calls| - 1]) + if last.Fail? || last.Success? then 1 else 0
  }

  lemma DischargingOne(calls: seq<T.Event>, e: T.Event)
    ensures Discharging(calls + [e]) == Discharging(calls) + if e.Fail? || e.Success? then 1 else 0
  {
    assert (calls + [e])[..|calls + [e]| - 1] == calls;
  }

  /** A step makes one discharging call when it ends a request, and none otherwise. */
  lemma StepDischarges(cfg: Config, g: Gate, e: Event, calls: seq<T.Event>)
    requires Enabled(g, e)
    ensures Discharging(calls + TrackerCalls(cfg, g, e)) == Discharging(calls) + if e.Finish? || e.Abort? then 1 else 0
  {
    hide Discharging, OutcomeOf;
    var now := TrackerCalls(cfg, g, e);
    if |now| == 0 {
      assert calls + now == calls;
    } else if |now| == 1 {
      assert now == [now[0]];
      DischargingOne(calls, now[0]);
    } else {
      assert calls + now == (calls + [now[0]]) + [now[1]];
      DischargingOne(calls, now[0]);
      DischargingOne(calls + [now[0]], now[1]);
    }
  }

  predicate ArrivedBefore(events: seq<Event>, request: nat, t: nat)
    requires t <= |events|
  {
    exists k :: 0 <= k < t && events[k].Arrive? && events[k].request == request
  }

  /** Of the throttle calls a request makes, exactly one is a fail or a success once it has been admitted and is no
      longer waiting; a request that was not admitted makes none. */
  lemma {:induction false} DischargedOnce(cfg: Config, states: seq<Gate>, events: seq<Event>, request: nat, t: nat)
    requires Trace(cfg, states, events) && t <= |events|
    ensures Admissions(cfg, states, events, request, t)
         == Discharging(CallsOf(cfg, states, events, request, t)) + if request in states[t].open then 1 else 0
    ensures Admissions(cfg, states, events, request, t) <= 1
    ensures !ArrivedBefore(events, request, t) ==> Admissions(cfg, states, events, request, t) == 0
  {
    hide TrackerCalls, InviteCalls, StoreCalls, Track, Redeem, Operate, Discharging;
    if t == 0 {
      assert Discharging([]) == 0 by { NoneDischarging(); }
    } else {
      DischargedOnce(cfg, states, events, request, t - 1);
      StepDischarges(cfg, states[t - 1], events[t - 1], CallsOf(cfg, states, events, request, t - 1));
      assert states[t - 1 + 1] == Step(cfg, states[t - 1], events[t - 1]);
      if Admitted(cfg, states[t - 1], events[t - 1]) && events[t - 1].request == request {
        assert !ArrivedBefore(events, request, t - 1);
      }
      if ArrivedBefore(events, request, t - 1) {
        assert ArrivedBefore(events, request, t);
      }
    }
  }

  lemma NoneDischarging()
    ensures Discharging([]) == 0
  {
  }

  predicate ReservedAt(events: seq<Event>, request: nat, remote: string, t: nat)
    requires t <= |events|
  {
    exists k :: 0 <= k < t && events[k].Arrive? && events[k].request == request && events[k].remote == remote
  }

  /** A request that waits is charged to the address it reserved from. */
  lemma {:induction false} ChargedWhereReserved(cfg: Config, states: seq<Gate>, events: seq<Event>, request: nat,
                                                t: nat)
    requires Trace(cfg, states, events) && t <= |events| && request in states[t].open
    ensures ReservedAt(events, request, states[t].open[request], t)
  {
    hide TrackerCalls, InviteCalls, StoreCalls, Track, Redeem, Operate;
    if t > 0 {
      assert states[t - 1 + 1] == Step(cfg, states[t - 1], events[t - 1]);
      var before, e := states[t - 1], events[t - 1];
      if request in before.open && !(Admitted(cfg, before, e) && e.request == request) {
        ChargedWhereReserved(cfg, states, events, request, t - 1);
        var k :| 0 <= k < t - 1 && events[k].Arrive? && events[k].request == request
                 && events[k].remote == states[t - 1].open[request];
        assert events[k].remote == states[t].open[request];
      }
    }
  }

  /** The catch works the address out anew. A reservation held in an open window is turned into a failure if and only
      if it is the same address still. */
  lemma AbortDischargesIff(p: T.Policy, m: T.Buckets, reserved: string, remote: string, now: int)
    requires reserved in m.vals && !T.WindowOver(p, m.vals[reserved], now) && m.vals[reserved].inFlight > 0
    ensures var held, after := m.vals[reserved], T.View(T.AfterFail(p, m, remote, now), reserved);
      (after.Some? && after.value.inFlight == held.inFlight - 1 && after.value.failures == held.failures + 1)
      <==> remote == reserved
    ensures T.View(T.AfterFail(p, m, remote, now), reserved) != T.View(m, reserved) <==> remote == reserved
  {
  }

  // ----- the balance of the throttle's calls -----

  datatype Sums = Sums(admitted: nat, fails: nat, successes: nat) {
    function Plus(more: Sums): Sums {
      Sums(admitted + more.admitted, fails + more.fails, successes + more.successes)
    }
  }

  /** All addresses, or one. */
  predicate Concerns(ip: Option<string>, of: string) {
    ip.None? || ip.value == of
  }

  function One(yes: bool): nat {
    if yes then 1 else 0
  }

  function SumOf(p: T.Policy, m: T.Buckets, e: T.Event, ip: Option<string>): Sums {
    match e
    case Reserve(of, now) => Sums(One(Concerns(ip, of) && T.Admits(p, m, of, now)), 0, 0)
    case Fail(of, _) => Sums(0, One(Concerns(ip, of)), 0)
    case Success(of, _) => Sums(0, 0, One(Concerns(ip, of)))
    case _ => Sums(0, 0, 0)
  }

  /** Admitted reservations, failures and successes among the calls, each judged where it stands. */
  function SumsOf(p: T.Policy, calls: seq<T.Event>, ip: Option<string>): Sums {
    if calls == [] then Sums(0, 0, 0)
    else
      var init := calls[..|calls| - 1];
      SumsOf(p, init, ip).Plus(SumOf(p, T.Run(p, init), calls[|calls| - 1], ip))
  }

  lemma SumsOne(p: T.Policy, calls: seq<T.Event>, e: T.Event, ip: Option<string>)
    ensures SumsOf(p, calls + [e], ip) == SumsOf(p, calls, ip).Plus(SumOf(p, T.Run(p, calls), e, ip))
  {
    assert (calls + [e])[..|calls + [e]| - 1] == calls;
  }

  /** The waiting requests charged to the address. */
  function Waiting(open: map<nat, string>, ip: Option<string>): set<nat> {
    set request | request in open && Concerns(ip, open[request])
  }

  lemma WaitingMore(open: map<nat, string>, request: nat, of: string, ip: Option<string>)
    requires request !in open
    ensures |Waiting(open[request := of], ip)| == |Waiting(open, ip)| + One(Concerns(ip, of))
  {
    var more := Waiting(open[request := of], ip);
    assert more == if Concerns(ip, of) then Waiting(open, ip) + {request} else Waiting(open, ip);
  }

  lemma WaitingLess(open: map<nat, string>, request: nat, ip: Option<string>)
    requires request in open
    ensures |Waiting(open - {request}, ip)| + One(Concerns(ip, open[request])) == |Waiting(open, ip)|
  {
    var less := Waiting(open - {request}, ip);
    assert Waiting(open, ip) == if Concerns(ip, open[request]) then less + {request} else less;
  }

  /** What a step adds to the sums. */
  function StepSums(cfg: Config, g: Gate, e: Event, ip: Option<string>): Sums
    requires Enabled(g, e)
  {
    match e
    case Arrive(_, remote, now) => Sums(One(Concerns(ip, remote) && T.Admits(cfg.policy, g.buckets, remote, now)), 0, 0)
    case Finish(request, _, _) =>
      if Result(cfg, g, e).Denied? then Sums(0, One(Concerns(ip, g.open[request])), 0)
      else Sums(0, 0, One(Concerns(ip, g.open[request])))
    case Abort(_, remote, _) => Sums(0, One(Concerns(ip, remote)), 0)
    case _ => Sums(0, 0, 0)
  }

  lemma StepSumsHold(cfg: Config, g: Gate, e: Event, calls: seq<T.Event>, ip: Option<string>)
    requires Enabled(g, e) && g.buckets == T.Run(cfg.policy, calls)
    ensures SumsOf(cfg.policy, calls + TrackerCalls(cfg, g, e), ip) ==
      SumsOf(cfg.policy, calls, ip).Plus(StepSums(cfg, g, e, ip))
  {
    hide SumsOf, T.Run, T.Admits, OutcomeOf;
    var now := TrackerCalls(cfg, g, e);
    if |now| == 0 {
      assert calls + now == calls;
    } else if |now| == 1 {
      assert now == [now[0]];
      SumsOne(cfg.policy, calls, now[0], ip);
    } else {
      assert calls + now == (calls + [now[0]]) + [now[1]];
      SumsOne(cfg.policy, calls, now[0], ip);
      SumsOne(cfg.policy, calls + [now[0]], now[1], ip);
    }
  }

  /** Aborts that charge the address for a reservation made elsewhere, up to step `t`. */
  function ChargedForOthers(states: seq<Gate>, events: seq<Event>, ip: Option<string>, t: nat): nat
    requires t <= |events| < |states| && forall k :: 0 <= k < |events| ==> Enabled(states[k], events[k])
  {
    if t == 0 then 0
    else
      var g, e := states[t - 1], events[t - 1];
      ChargedForOthers(states, events, ip, t - 1)
      + One(e.Abort? && Concerns(ip, e.remote) && !Concerns(ip, g.open[e.request]))
  }

  /** Aborts of a reservation made from the address that charge another one. */
  function ChargedElsewhere(states: seq<Gate>, events: seq<Event>, ip: Option<string>, t: nat): nat
    requires t <= |events| < |states| && forall k :: 0 <= k < |events| ==> Enabled(states[k], events[k])
  {
    if t == 0 then 0
    else
      var g, e := states[t - 1], events[t - 1];
      ChargedElsewhere(states, events, ip, t - 1)
      + One(e.Abort? && !Concerns(ip, e.remote) && Concerns(ip, g.open[e.request]))
  }

  function HistorySums(cfg: Config, states: seq<Gate>, events: seq<Event>, ip: Option<string>, t: nat): Sums
    requires t <= |events| < |states| && forall k :: 0 <= k < |events| ==> Enabled(states[k], events[k])
  {
    SumsOf(cfg.policy, TrackerHistory(cfg, states, events, t), ip)
  }

  lemma OpenStep(cfg: Config, g: Gate, e: Event)
    requires Enabled(g, e)
    ensures Step(cfg, g, e).open ==
      if e.Arrive? && T.Admits(cfg.policy, g.buckets, e.remote, e.now) then g.open[e.request := e.remote]
      else if e.Finish? || e.Abort? then g.open - {e.request}
      else g.open
  {
    hide TrackerCalls, InviteCalls, StoreCalls, Track, Redeem, Operate, T.Admits;
  }

  lemma WaitingStep(cfg: Config, g: Gate, e: Event, ip: Option<string>)
    requires Enabled(g, e) && (e.Arrive? ==> e.request !in g.open)
    ensures var next := |Waiting(Step(cfg, g, e).open, ip)|;
      match e
      case Arrive(request, remote, now) =>
        next == |Waiting(g.open, ip)| + One(Concerns(ip, remote) && T.Admits(cfg.policy, g.buckets, remote, now))
      case Finish(request, _, _) => next + One(Concerns(ip, g.open[request])) == |Waiting(g.open, ip)|
      case Abort(request, _, _) => next + One(Concerns(ip, g.open[request])) == |Waiting(g.open, ip)|
      case _ => next == |Waiting(g.open, ip)|
  {
    hide Step, T.Admits, Waiting;
    OpenStep(cfg, g, e);
    if e.Arrive? {
      WaitingMore(g.open, e.request, e.remote, ip);
    } else if e.Finish? || e.Abort? {
      WaitingLess(g.open, e.request, ip);
    }
  }

  /** Over every run and for every address: the reservations admitted are the failures, the successes and the
      requests still waiting, up to the aborts whose address had changed. */
  lemma {:induction false} ReservationsBalance(cfg: Config, states: seq<Gate>, events: seq<Event>,
                                               ip: Option<string>, t: nat)
    requires Trace(cfg, states, events) && t <= |events|
    ensures var sums := HistorySums(cfg, states, events, ip, t);
      sums.admitted + ChargedForOthers(states, events, ip, t)
      == sums.fails + sums.successes + |Waiting(states[t].open, ip)| + ChargedElsewhere(states, events, ip, t)
  {
    hide TrackerCalls, Step, SumsOf, T.Run, T.Admits, Result;
    if t == 0 {
      assert SumsOf(cfg.policy, [], ip) == Sums(0, 0, 0) by { NoSums(cfg.policy, ip); }
      assert Waiting(states[0].open, ip) == {};
    } else {
      var g, e := states[t - 1], events[t - 1];
      ReservationsBalance(cfg, states, events, ip, t - 1);
      ThrottleIsItsHistory(cfg, states, events, t - 1);
      StepSumsHold(cfg, g, e, TrackerHistory(cfg, states, events, t - 1), ip);
      if e.Arrive? {
        FreshArrival(cfg, states, events, t - 1);
      }
      WaitingStep(cfg, g, e, ip);
      assert states[t - 1 + 1] == Step(cfg, g, e);
    }
  }

  lemma NoSums(p: T.Policy, ip: Option<string>)
    ensures SumsOf(p, [], ip) == Sums(0, 0, 0)
  {
  }

  lemma FreshArrival(cfg: Config, states: seq<Gate>, events: seq<Event>, t: nat)
    requires Trace(cfg, states, events) && t < |events| && events[t].Arrive?
    ensures events[t].request !in states[t].open
  {
    hide Step;
    if events[t].request in states[t].open {
      ChargedWhereReserved(cfg, states, events, events[t].request, t);
    }
  }

  /** Taken together, every admitted reservation is failed, succeeded or still waiting: the calls made on the throttle
      discharge each exactly once. */
  lemma EveryAdmissionDischarged(cfg: Config, states: seq<Gate>, events: seq<Event>, t: nat)
    requires Trace(cfg, states, events) && t <= |events|
    ensures var sums := HistorySums(cfg, states, events, None, t);
      sums.admitted == sums.fails + sums.successes + |states[t].open|
  {
    hide Step, HistorySums;
    ReservationsBalance(cfg, states, events, None, t);
    NoneElsewhere(states, events, t);
    assert Waiting(states[t].open, None) == states[t].open.Keys;
    OpenCount(states[t].open);
  }

  lemma {:induction false} NoneElsewhere(states: seq<Gate>, events: seq<Event>, t: nat)
    requires t <= |events| < |states| && forall k :: 0 <= k < |events| ==> Enabled(states[k], events[k])
    ensures ChargedForOthers(states, events, None, t) == 0 && ChargedElsewhere(states, events, None, t) == 0
  {
    if t > 0 {
      NoneElsewhere(states, events, t - 1);
    }
  }

  lemma OpenCount(open: map<nat, string>)
    ensures |open.Keys| == |open|
  {
  }

  /** At one address the account is even. */
  ghost predicate Even(cfg: Config, states: seq<Gate>, events: seq<Event>, ip: string, t: nat)
    requires t <= |events| < |states| && forall k :: 0 <= k < |events| ==> Enabled(states[k], events[k])
  {
    var sums := HistorySums(cfg, states, events, Some(ip), t);
    sums.admitted == sums.fails + sums.successes + |Waiting(states[t].open, Some(ip))|
  }

  function ReservedFrom(g: Gate, e: Event): string
    requires Enabled(g, e) && (e.Finish? || e.Abort?)
  {
    g.open[e.request]
  }

  /** Every abort so far came from the address it had reserved from. */
  ghost predicate AbortsAtHome(states: seq<Gate>, events: seq<Event>, t: nat)
    requires t <= |events| < |states| && forall k :: 0 <= k < |events| ==> Enabled(states[k], events[k])
  {
    forall k :: 0 <= k < t && events[k].Abort? ==> ReservedFrom(states[k], events[k]) == events[k].remote
  }

  lemma {:induction false} HomeAborts(states: seq<Gate>, events: seq<Event>, ip: Option<string>, t: nat)
    requires t <= |events| < |states| && forall k :: 0 <= k < |events| ==> Enabled(states[k], events[k])
    requires AbortsAtHome(states, events, t)
    ensures ChargedForOthers(states, events, ip, t) == 0 && ChargedElsewhere(states, events, ip, t) == 0
  {
    if t > 0 {
      HomeAborts(states, events, ip, t - 1);
    }
  }

  /** The accounts of all addresses stay even through the run exactly when every abort comes from the address it
      reserved from. */
  lemma EvenIffAbortsAtHome(cfg: Config, states: seq<Gate>, events: seq<Event>, t: nat)
    requires Trace(cfg, states, events) && t <= |events|
    ensures (forall u, ip :: 0 <= u <= t ==> Even(cfg, states, events, ip, u)) <==> AbortsAtHome(states, events, t)
  {
    hide Step, HistorySums, Waiting;
    if AbortsAtHome(states, events, t) {
      forall u, ip | 0 <= u <= t ensures Even(cfg, states, events, ip, u) {
        HomeAborts(states, events, Some(ip), u);
        ReservationsBalance(cfg, states, events, Some(ip), u);
      }
    } else {
      var k := FirstStray(states, events, t);
      var ip := states[k].open[events[k].request];
      HomeAborts(states, events, Some(ip), k);
      ReservationsBalance(cfg, states, events, Some(ip), k + 1);
      assert !Even(cfg, states, events, ip, k + 1);
    }
  }

  lemma {:induction false} FirstStray(states: seq<Gate>, events: seq<Event>, t: nat) returns (k: nat)
    requires t <= |events| < |states| && forall k :: 0 <= k < |events| ==> Enabled(states[k], events[k])
    requires !AbortsAtHome(states, events, t)
    ensures k < t && AbortsAtHome(states, events, k)
    ensures events[k].Abort? && ReservedFrom(states[k], events[k]) != events[k].remote
  {
    if AbortsAtHome(states, events, t - 1) {
      k := t - 1;
    } else {
      k := FirstStray(states, events, t - 1);
    }
  }

  /** A request from "a" whose body fails while the trusted address has become "b": nothing waits any more, yet the
      attempt of "a" stays in flight, and "b", which never reserved one, has a failure. */
  lemma StrayAbort(cfg: Config, store: S.ValidStore)
    requires cfg.policy == T.Policy(5, 300000)
    ensures var g0 := Gate(OM.Empty(), OM.Empty(), store, map[]);
      var events := [Arrive(0, "a", 1000), Abort(0, "b", 2000)];
      var g1 := Step(cfg, g0, events[0]);
      Enabled(g1, events[1]) &&
      var g2 := Step(cfg, g1, events[1]);
      && Trace(cfg, [g0, g1, g2], events) && g2.open == map[]
      && T.View(g2.buckets, "a") == Some(T.Bucket(0, 1, 1000, None))
      && T.View(g2.buckets, "b") == Some(T.Bucket(1, 0, 2000, None))
  {
    var g0 := Gate(OM.Empty(), OM.Empty(), store, map[]);
    var events := [Arrive(0, "a", 1000), Abort(0, "b", 2000)];
    var g1 := Step(cfg, g0, events[0]);
    TrackerStep(cfg, g0, events[0]);
    NoCalls(cfg, g0);
    hide Track, Redeem, Operate;
    assert T.Admits(cfg.policy, g0.buckets, "a", 1000);
    assert g1.open == map[0 := "a"];
    var g2 := Step(cfg, g1, events[1]);
    TrackerStep(cfg, g1, events[1]);
    NoCalls(cfg, g1);
    assert g2.open == map[];
  }

  /** Attempts admitted from an address over any run of the handler keep within the throttle's bound, as long as
      no login from it succeeds and the tracker's cap does not evict it. */
  lemma LoginsBounded(cfg: Config, states: seq<Gate>, events: seq<Event>, t: nat, ip: string, a: int, length: nat)
    requires Trace(cfg, states, events) && t <= |events| && cfg.policy.Valid()
    requires T.Unforgiven(cfg.policy, TrackerHistory(cfg, states, events, t), ip)
    ensures AdmittedFrom(cfg, states, events, t, ip, a, a + length)
         <= cfg.policy.maxAttempts * (length / cfg.policy.lockoutMs + 2)
  {
    hide AdmittedFrom, TrackerHistory, T.Admissions, T.Unforgiven, Step;
    AdmittedInHistory(cfg, states, events, t, ip, a, a + length);
    T.AdmissionsBounded(cfg.policy, TrackerHistory(cfg, states, events, t), ip, a, length);
  }

  function AdmittedFrom(cfg: Config, states: seq<Gate>, events: seq<Event>, t: nat, ip: string, a: int, b: int): nat
    requires t <= |events| < |states|
  {
    if t == 0 then 0
    else
      var e := events[t - 1];
      AdmittedFrom(cfg, states, events, t - 1, ip, a, b)
      + if Admitted(cfg, states[t - 1], e) && e.remote == ip && a <= e.now <= b then 1 else 0
  }

  lemma AdmissionsOne(p: T.Policy, calls: seq<T.Event>, e: T.Event, ip: string, a: int, b: int)
    ensures T.Admissions(p, calls + [e], ip, a, b)
         == T.Admissions(p, calls, ip, a, b)
            + if T.AdmitsNow(p, T.Run(p, calls), e, ip) && a <= e.time <= b then 1 else 0
  {
    assert (calls + [e])[..|calls + [e]| - 1] == calls;
  }

  lemma {:induction false} AdmittedInHistory(cfg: Config, states: seq<Gate>, events: seq<Event>, t: nat, ip: string,
                                             a: int, b: int)
    requires Trace(cfg, states, events) && t <= |events|
    ensures AdmittedFrom(cfg, states, events, t, ip, a, b)
         == T.Admissions(cfg.policy, TrackerHistory(cfg, states, events, t), ip, a, b)
  {
    hide InviteCalls, StoreCalls, Track, Redeem, Operate, T.Admits, T.Run, T.Admissions, Result;
    if t == 0 {
      assert T.Admissions(cfg.policy, [], ip, a, b) == 0 by { NoAdmissions(cfg.policy, ip, a, b); }
    } else {
      AdmittedInHistory(cfg, states, events, t - 1, ip, a, b);
      ThrottleIsItsHistory(cfg, states, events, t - 1);
      var calls := TrackerHistory(cfg, states, events, t - 1);
      var now := TrackerCalls(cfg, states[t - 1], events[t - 1]);
      if |now| == 1 {
        AdmissionsOne(cfg.policy, calls, now[0], ip, a, b);
        assert now == [now[0]];
      } else if |now| == 2 {
        AdmissionsOne(cfg.policy, calls, now[0], ip, a, b);
        AdmissionsOne(cfg.policy, calls + [now[0]], now[1], ip, a, b);
        assert calls + now == (calls + [now[0]]) + [now[1]];
      } else {
        assert calls + now == calls;
      }
    }
  }

  lemma NoAdmissions(p: T.Policy, ip: string, a: int, b: int)
    ensures T.Admissions(p, [], ip, a, b) == 0
  {
  }

  // ----- invites and devices -----

  /** The step finishes a login by this invite. */
  predicate ByInvite(e: Event, code: string) {
    code != "" && e.Finish? && e.form.invite == code
  }

  /** Only finishing logins call the invite store for a client; the first such call of a step is its consume. */
  lemma {:induction false} HistoryGrows(cfg: Config, states: seq<Gate>, events: seq<Event>, i: nat, j: nat)
    requires Trace(cfg, states, events) && i <= j <= |events|
    ensures InviteHistory(cfg, states, events, i) <= InviteHistory(cfg, states, events, j)
    decreases j
  {
    hide Step, InviteCalls;
    if i < j {
      HistoryGrows(cfg, states, events, i, j - 1);
    }
  }

  function Place(cfg: Config, states: seq<Gate>, events: seq<Event>, i: nat): nat
    requires i <= |events| < |states| && forall k :: 0 <= k < |events| ==> Enabled(states[k], events[k])
  {
    |InviteHistory(cfg, states, events, i)|
  }

  /** Where the calls of step `i` stand in the history, and what its consume answered. */
  lemma ConsumeAt(cfg: Config, states: seq<Gate>, events: seq<Event>, i: nat, code: string)
    requires Trace(cfg, states, events) && i < |events| && ByInvite(events[i], code)
    ensures var all, n := InviteHistory(cfg, states, events, |events|), Place(cfg, states, events, i);
      && n < |all| && all[n].Consume? && all[n].code == code
      && all[n] == I.Consume(code, Some(states[i].open[events[i].request]), events[i].draws.consumeAt)
      && I.AnswerAt(cfg.invites, all, n)
         == Consumed(cfg, states[i], states[i].open[events[i].request], events[i].form, events[i].draws)
      && (Result(cfg, states[i], events[i]).Created? ==>
            n + 1 < |all| && all[n + 1] == I.Bind(code, Result(cfg, states[i], events[i]).id))
      && Place(cfg, states, events, i + 1) == n + if Result(cfg, states[i], events[i]).Created? then 2 else 1
  {
    hide Step, Result, I.ConsumeAnswer;
    HistoryGrows(cfg, states, events, i + 1, |events|);
    HistoryGrows(cfg, states, events, i, |events|);
    InvitesAreTheirHistory(cfg, states, events, i);
    var all, n := InviteHistory(cfg, states, events, |events|), Place(cfg, states, events, i);
    assert all[..n] == InviteHistory(cfg, states, events, i);
    var upto := InviteHistory(cfg, states, events, i + 1);
    assert upto[n] == all[n];
    if n + 1 < |upto| {
      assert upto[n + 1] == all[n + 1];
    }
  }

  lemma {:induction false} PlacesAscend(cfg: Config, states: seq<Gate>, events: seq<Event>, i: nat, j: nat)
    requires Trace(cfg, states, events) && i <= j <= |events|
    ensures Place(cfg, states, events, i) <= Place(cfg, states, events, j)
  {
    HistoryGrows(cfg, states, events, i, j);
  }

  /** Every call in the history was made by some step. */
  lemma {:induction false} MadeBy(cfg: Config, states: seq<Gate>, events: seq<Event>, n: nat, t: nat) returns (i: nat)
    requires Trace(cfg, states, events) && t <= |events| && n < Place(cfg, states, events, t)
    ensures i < t && Place(cfg, states, events, i) <= n < Place(cfg, states, events, i + 1)
    ensures InviteHistory(cfg, states, events, t)[n]
         == InviteCalls(cfg, states[i], events[i])[n - Place(cfg, states, events, i)]
  {
    hide Step, InviteCalls;
    if n < Place(cfg, states, events, t - 1) {
      i := MadeBy(cfg, states, events, n, t - 1);
    } else {
      i := t - 1;
    }
  }

  predicate Mints(e: Event) {
    e.Owner? && e.call.Issue?
  }

  /** Codes are minted fresh. */
  ghost predicate MintsFresh(events: seq<Event>) {
    forall i, j :: 0 <= i < j < |events| && Mints(events[i]) && Mints(events[j]) ==>
      events[i].call.code != events[j].call.code
  }

  /** An issue in the history is the owner's own step. */
  lemma IssueMadeBy(cfg: Config, states: seq<Gate>, events: seq<Event>, n: nat) returns (i: nat)
    requires Trace(cfg, states, events) && n < |InviteHistory(cfg, states, events, |events|)|
    requires InviteHistory(cfg, states, events, |events|)[n].Issue?
    ensures i < |events| && events[i].Owner? && events[i].call == InviteHistory(cfg, states, events, |events|)[n]
    ensures Place(cfg, states, events, i) == n
  {
    hide Step, Result;
    i := MadeBy(cfg, states, events, n, |events|);
  }

  lemma HistoryMintsFresh(cfg: Config, states: seq<Gate>, events: seq<Event>)
    requires Trace(cfg, states, events) && MintsFresh(events)
    ensures I.FreshlyMinted(InviteHistory(cfg, states, events, |events|))
  {
    hide Step, InviteHistory;
    var all := InviteHistory(cfg, states, events, |events|);
    forall m, n | 0 <= m < n < |all| && all[m].Issue? && all[n].Issue? ensures all[m].code != all[n].code {
      var i := IssueMadeBy(cfg, states, events, m);
      var j := IssueMadeBy(cfg, states, events, n);
      if j < i {
        PlacesAscend(cfg, states, events, j, i);
      }
    }
  }

  /** The login is the first use of its invite. */
  predicate FirstUse(cfg: Config, g: Gate, e: Event)
    requires Enabled(g, e) && e.Finish?
  {
    e.form.invite != "" && Consumed(cfg, g, g.open[e.request], e.form, e.draws).First?
  }

  lemma CreatedIsFirst(cfg: Config, states: seq<Gate>, events: seq<Event>, i: nat, code: string)
    requires Trace(cfg, states, events) && i < |events| && ByInvite(events[i], code)
    requires Result(cfg, states[i], events[i]).Created? || FirstUse(cfg, states[i], events[i])
    ensures FirstUse(cfg, states[i], events[i])
    ensures var all, n := InviteHistory(cfg, states, events, |events|), Place(cfg, states, events, i);
      n < |all| && all[n].Consume? && I.AnswerAt(cfg.invites, all, n) == I.First
  {
    ConsumeAt(cfg, states, events, i, code);
  }

  /** Of all logins by an invite, whatever becomes of them, at most one is its first use. */
  lemma FirstUseOnce(cfg: Config, states: seq<Gate>, events: seq<Event>, i: nat, j: nat, code: string)
    requires Trace(cfg, states, events) && MintsFresh(events) && i < |events| && j < |events|
    requires ByInvite(events[i], code) && ByInvite(events[j], code)
    requires FirstUse(cfg, states[i], events[i]) && FirstUse(cfg, states[j], events[j])
    ensures i == j
  {
    hide Step, InviteHistory, Result, FirstUse;
    HistoryMintsFresh(cfg, states, events);
    var all := InviteHistory(cfg, states, events, |events|);
    CreatedIsFirst(cfg, states, events, i, code);
    CreatedIsFirst(cfg, states, events, j, code);
    ConsumeAt(cfg, states, events, i, code);
    ConsumeAt(cfg, states, events, j, code);
    if i < j {
      PlacesAscend(cfg, states, events, i + 1, j);
      I.AtMostOneFirstUse(cfg.invites, all, Place(cfg, states, events, i), Place(cfg, states, events, j));
    } else if j < i {
      PlacesAscend(cfg, states, events, j + 1, i);
      I.AtMostOneFirstUse(cfg.invites, all, Place(cfg, states, events, j), Place(cfg, states, events, i));
    }
  }

  /** At most one device record is ever created through an invite. */
  lemma InviteCreatesOnce(cfg: Config, states: seq<Gate>, events: seq<Event>, i: nat, j: nat, code: string)
    requires Trace(cfg, states, events) && MintsFresh(events) && i < |events| && j < |events|
    requires ByInvite(events[i], code) && ByInvite(events[j], code)
    requires Result(cfg, states[i], events[i]).Created? && Result(cfg, states[j], events[j]).Created?
    ensures i == j
  {
    hide Step, Result, FirstUse;
    CreatedIsFirst(cfg, states, events, i, code);
    CreatedIsFirst(cfg, states, events, j, code);
    FirstUseOnce(cfg, states, events, i, j, code);
  }

  /** The step that put a binding in the history created that device, and its own consume stands just before. */
  lemma BindMadeBy(cfg: Config, states: seq<Gate>, events: seq<Event>, n: nat) returns (i: nat)
    requires Trace(cfg, states, events) && n < |InviteHistory(cfg, states, events, |events|)|
    requires InviteHistory(cfg, states, events, |events|)[n].Bind?
    ensures i < |events| && n == Place(cfg, states, events, i) + 1
    ensures var call := InviteHistory(cfg, states, events, |events|)[n];
      ByInvite(events[i], call.code) && Result(cfg, states[i], events[i]) == Created(call.sessionId)
  {
    hide Step, Result;
    i := MadeBy(cfg, states, events, n, |events|);
  }

  /** Once an invite has had a first use, whatever session a later retry is offered is the one that use created. */
  lemma RetryOffersOwn(cfg: Config, states: seq<Gate>, events: seq<Event>, j: nat, code: string) returns (i: nat)
    requires Trace(cfg, states, events) && MintsFresh(events) && j < |events| && ByInvite(events[j], code)
    requires var c := Consumed(cfg, states[j], states[j].open[events[j].request], events[j].form, events[j].draws);
      c.Retry? && c.sessionId.Some?
    ensures i < j && ByInvite(events[i], code)
    ensures var c := Consumed(cfg, states[j], states[j].open[events[j].request], events[j].form, events[j].draws);
      Result(cfg, states[i], events[i]) == Created(c.sessionId.value)
    ensures I.KnownIp(Some(states[i].open[events[i].request])).Some?
            && states[i].open[events[i].request] == states[j].open[events[j].request]
    ensures events[j].draws.consumeAt - events[i].draws.consumeAt <= cfg.invites.retryGraceMs
  {
    hide Step, InviteHistory, Result, I.ConsumeAnswer, I.AnswerAt, I.FreshlyMinted, MintsFresh, Enabled;
    HistoryMintsFresh(cfg, states, events);
    var all := InviteHistory(cfg, states, events, |events|);
    ConsumeAt(cfg, states, events, j, code);
    var issue, first, bind := I.RetryIsSameClient(cfg.invites, all, Place(cfg, states, events, j));
    i := BindMadeBy(cfg, states, events, bind);
    ConsumeAt(cfg, states, events, i, code);
    CreatedIsFirst(cfg, states, events, i, code);
    var own := Place(cfg, states, events, i);
    if first < own {
      I.AtMostOneFirstUse(cfg.invites, all, first, own);
    } else if own < first {
      I.AtMostOneFirstUse(cfg.invites, all, own, first);
    }
    if j < i {
      PlacesAscend(cfg, states, events, j, i);
    }
  }

  /** A later acceptance through an invite only rotates the credential of the device its one first use created:
      same known address, within the grace. */
  lemma InviteReissuesOwn(cfg: Config, states: seq<Gate>, events: seq<Event>, j: nat, code: string) returns (i: nat)
    requires Trace(cfg, states, events) && MintsFresh(events) && j < |events| && ByInvite(events[j], code)
    requires Result(cfg, states[j], events[j]).Reissued?
    ensures i < j && ByInvite(events[i], code)
    ensures Result(cfg, states[i], events[i]) == Created(Result(cfg, states[j], events[j]).id)
    ensures states[i].open[events[i].request] == states[j].open[events[j].request] != ""
    ensures events[j].draws.consumeAt - events[i].draws.consumeAt <= cfg.invites.retryGraceMs
  {
    hide Step, Consumed;
    i := RetryOffersOwn(cfg, states, events, j, code);
  }

  /** A first use that creates no device - refused for lack of room, or broken off by the random source - spends the
      invite for good: no other login by it gets a session. */
  lemma UncreatedSpendsInvite(cfg: Config, states: seq<Gate>, events: seq<Event>, i: nat, j: nat, code: string)
    requires Trace(cfg, states, events) && MintsFresh(events) && i < |events| && j < |events| && i != j
    requires ByInvite(events[i], code) && ByInvite(events[j], code)
    requires FirstUse(cfg, states[i], events[i]) && !Result(cfg, states[i], events[i]).Created?
    ensures Result(cfg, states[j], events[j]).Denied? || Result(cfg, states[j], events[j]).RetryGone?
  {
    hide Step, InviteHistory, I.ConsumeAnswer;
    if FirstUse(cfg, states[j], events[j]) {
      FirstUseOnce(cfg, states, events, i, j, code);
    }
    var c := Consumed(cfg, states[j], states[j].open[events[j].request], events[j].form, events[j].draws);
    if c.Retry? && c.sessionId.Some? {
      var k := RetryOffersOwn(cfg, states, events, j, code);
      CreatedIsFirst(cfg, states, events, k, code);
      FirstUseOnce(cfg, states, events, k, i, code);
    }
  }

  /** Only a created outcome adds a device record; every other one leaves the records there are. */
  lemma OnlyCreatedAdds(cfg: Config, g: Gate, e: Event)
    requires Enabled(g, e) && e.Finish?
    ensures var before, after := g.store.objects, Step(cfg, g, e).store.objects;
      && |after| == |before| + (if Result(cfg, g, e).Created? then 1 else 0)
      && (Result(cfg, g, e).Created? ==> after[|before|].id == Result(cfg, g, e).id && after[..|before|] == before)
  {
    hide TrackerCalls, InviteCalls, Track, Redeem, Operate, S.Step, S.AtCapacity, S.Reissuable;
    StoreStep(cfg, g, e);
    var calls := StoreCalls(cfg, g, e);
    if calls != [] {
      OneOp(cfg.sessions, g.store, calls[0]);
    }
  }

  lemma OneOp(cfg: S.Config, s: S.ValidStore, op: S.Op)
    requires op.Login? || op.Reissue? || op.List?
    ensures var after := S.Step(cfg, s, op).objects;
      && |after| == |s.objects| + (if op.Login? && !S.AtCapacity(cfg, s, op.at) then 1 else 0)
      && (op.Login? && !S.AtCapacity(cfg, s, op.at) ==>
        after[|s.objects|].id == op.id && after[..|s.objects|] == s.objects)
  {
    hide S.Expired, S.LiveIds;
    if op.Login? && !S.AtCapacity(cfg, s, op.at) {
      var added := S.Insert(S.Sweep(cfg, s, op.at), S.NewRecord(cfg, op.at, op.id, op.secret, op.deviceLabel, op.ip));
      S.InsertValid(S.Sweep(cfg, s, op.at), S.NewRecord(cfg, op.at, op.id, op.secret, op.deviceLabel, op.ip));
      R.EvictKeeps(cfg, added, op.id);
    }
  }

  lemma NoCalls(cfg: Config, g: Gate)
    ensures Redeem(cfg.invites, g.codes, []) == g.codes && Operate(cfg.sessions, g.store, []) == g.store
  {
  }

  // ----- the handler -----

  class LoginHandler {
    const cfg: Config
    var buckets: T.Buckets
    var codes: I.Codes
    var store: S.ValidStore
    /** The requests under way, with the address each has reserved for. */
    ghost var open: map<nat, string>

    ghost function Now(): Gate
      reads this
    {
      Gate(buckets, codes, store, open)
    }

    constructor (cfg: Config, store: S.ValidStore)
      ensures this.cfg == cfg && Now() == Gate(OM.Empty(), OM.Empty(), store, map[])
    {
      this.cfg, this.store := cfg, store;
      buckets, codes, open := OM.Empty(), OM.Empty(), map[];
    }

    /** Up to the first wait; the answer is the retry-after in seconds, zero when the request goes on. */
    method Begin(request: nat, remote: string, now: int) returns (retryAfter: int)
      requires cfg.policy.Valid()
      modifies this
      ensures Now() == Step(cfg, old(Now()), Arrive(request, remote, now))
      ensures retryAfter <= 0 <==> Admitted(cfg, old(Now()), Arrive(request, remote, now))
    {
      hide Track, Redeem, Operate;
      TrackerStep(cfg, Now(), Arrive(request, remote, now));
      NoCalls(cfg, Now());
      retryAfter := T.ReserveAnswer(cfg.policy, buckets, remote, now);
      if T.Admits(cfg.policy, buckets, remote, now) {
        open := open[request := remote];
      }
      buckets := T.AfterReserve(cfg.policy, buckets, remote, now);
    }

    /** From the end of the waits: the body that was read, or None when reading it failed; `late` is an error while
        answering. `remote` is the handler's own variable, `again` the address the catch works out. */
    method Resume(request: nat, remote: string, body: Option<Form>, d: Draws, late: bool, again: string, againAt: int)
      returns (outcome: Option<Outcome>)
      requires request in open && open[request] == remote
      modifies this
      ensures Now() == Step(cfg, old(Now()),
                            if body.None? then Abort(request, again, againAt) else Finish(request, body.value, d))
      ensures outcome.Some? ==> body.Some? && outcome.value == OutcomeOf(cfg, old(Now()), remote, body.value, d)
      ensures outcome.None? <==> body.None? || late || OutcomeOf(cfg, old(Now()), remote, body.value, d).Broken?
    {
      hide Track, Redeem, Operate, OutcomeOf, T.AfterFail;
      TrackerStep(cfg, Now(), Abort(request, again, againAt));
      NoCalls(cfg, Now());
      var reserved := true;
      var thrown := body.None?;
      outcome := None;
      if body.Some? {
        var answer := Process(request, remote, body.value, d);
        reserved := false;
        thrown := answer.Broken? || late;
        outcome := if thrown then None else Some(answer);
      } else {
        open := open - {request};
      }
      if thrown && reserved {
        buckets := T.AfterFail(cfg.policy, buckets, again, againAt);
      }
    }

    method Process(request: nat, remote: string, f: Form, d: Draws) returns (outcome: Outcome)
      requires request in open && open[request] == remote
      modifies this
      ensures Now() == Step(cfg, old(Now()), Finish(request, f, d))
      ensures outcome == OutcomeOf(cfg, old(Now()), remote, f, d)
    {
      hide Track, Redeem, Operate, I.AfterConsume, I.AfterBind, I.ConsumeAnswer;
      hide T.AfterFail, T.AfterPrune, T.AfterSuccess, S.AfterLogin, S.AfterReissue, S.AtCapacity, S.Reissuable;
      TrackerStep(cfg, Now(), Finish(request, f, d));
      InviteStep(cfg, Now(), Finish(request, f, d));
      StoreStep(cfg, Now(), Finish(request, f, d));
      var usedInvite := f.invite != "";
      var consumed := I.Refused;
      if usedInvite {
        consumed := I.ConsumeAnswer(cfg.invites, codes, f.invite, Some(remote), d.consumeAt);
        codes := I.AfterConsume(cfg.invites, codes, f.invite, Some(remote), d.consumeAt);
      }
      var authed := if usedInvite then consumed != I.Refused else f.tokenMatches;
      if !authed {
        buckets := T.AfterFail(cfg.policy, buckets, remote, d.now);
        open := open - {request};
        buckets := T.AfterPrune(cfg.policy, buckets, d.pruneAt);
        return Denied;
      }
      buckets := T.AfterSuccess(buckets, remote);
      open := open - {request};
      if usedInvite && consumed.Retry? {
        if consumed.sessionId.None? {
          return RetryGone;
        }
        var id := consumed.sessionId.value;
        outcome := if S.Reissuable(cfg.sessions, store, d.at, id) then Reissued(id) else RetryGone;
        if outcome.Reissued? && !d.drawn {
          R.StepValid(cfg.sessions, store, S.List(d.at));
          store := S.Sweep(cfg.sessions, store, d.at);
          return Broken;
        }
        R.StepValid(cfg.sessions, store, S.Reissue(d.at, id, d.secret, Some(remote)));
        store := S.AfterReissue(cfg.sessions, store, d.at, id, d.secret, Some(remote));
        return outcome;
      }
      outcome := if S.AtCapacity(cfg.sessions, store, d.at) then NoCapacity else Created(d.id);
      if outcome.Created? && !d.drawn {
        R.StepValid(cfg.sessions, store, S.List(d.at));
        store := S.Sweep(cfg.sessions, store, d.at);
        return Broken;
      }
      R.StepValid(cfg.sessions, store, S.Login(d.at, d.id, d.secret, f.deviceLabel, Some(remote)));
      store := S.AfterLogin(cfg.sessions, store, d.at, d.id, d.secret, f.deviceLabel, Some(remote));
      if outcome.NoCapacity? {
        return outcome;
      }
      if usedInvite {
        codes := I.AfterBind(codes, f.invite, d.id);
      }
      return outcome;
    }
  }
}
