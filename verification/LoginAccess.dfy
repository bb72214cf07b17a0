/** Who the login handler lets in: nobody without the token or a minted invite, and everybody with one of them while
    there is room. Stated over runs, through the store, the invites and the throttle calls a step leaves behind. */
module LoginAccess {
  import opened Text
  import OM = OrderedMap
  import T = LoginThrottle
  import I = Invites
  import S = Sessions
  import R = SessionRuns
  import L = SessionLaws
  import opened LoginFlow

  // ----- nobody else -----

  /** An owner minted the code before step `t`, and it has not run out at that moment. */
  ghost predicate Minted(cfg: Config, events: seq<Event>, t: nat, code: string, at: int) {
    exists k :: 0 <= k < t && k < |events| && Mints(events[k]) && events[k].call.code == code
                && at < events[k].call.expiryClock + cfg.invites.ttlMs
  }

  /** What the request presents entitles it to a session. */
  ghost predicate Entitled(cfg: Config, events: seq<Event>, t: nat)
    requires t < |events| && events[t].Finish?
  {
    var f := events[t].form;
    if f.invite == "" then f.tokenMatches else Minted(cfg, events, t, f.invite, events[t].draws.consumeAt)
  }

  /** The throttle calls step `t` makes. */
  function CallsAt(cfg: Config, states: seq<Gate>, events: seq<Event>, t: nat): seq<T.Event>
    requires Trace(cfg, states, events) && t < |events|
  {
    TrackerHistory(cfg, states, events, t + 1)[|TrackerHistory(cfg, states, events, t)|..]
  }

  lemma CallsAtIs(cfg: Config, states: seq<Gate>, events: seq<Event>, t: nat)
    requires Trace(cfg, states, events) && t < |events|
    ensures CallsAt(cfg, states, events, t) == TrackerCalls(cfg, states[t], events[t])
  {
    hide Step, TrackerCalls;
  }

  /** An accepted invite has been minted, and has not run out. */
  lemma AcceptedIsMinted(cfg: Config, states: seq<Gate>, events: seq<Event>, t: nat)
    requires Trace(cfg, states, events) && t < |events| && events[t].Finish? && events[t].form.invite != ""
    requires !Consumed(cfg, states[t], states[t].open[events[t].request], events[t].form, events[t].draws).Refused?
    ensures Minted(cfg, events, t, events[t].form.invite, events[t].draws.consumeAt)
  {
    hide Step, InviteHistory, I.AnswerAt, I.ConsumeAnswer, Result;
    var code := events[t].form.invite;
    ConsumeAt(cfg, states, events, t, code);
    var all, n := InviteHistory(cfg, states, events, |events|), Place(cfg, states, events, t);
    var issue;
    if I.AnswerAt(cfg.invites, all, n) == I.First {
      issue := I.FirstIsInTime(cfg.invites, all, n);
    } else {
      var first, bind;
      issue, first, bind := I.RetryIsSameClient(cfg.invites, all, n);
    }
    var k := IssueMadeBy(cfg, states, events, issue);
    if t <= k {
      PlacesAscend(cfg, states, events, t, k);
    }
  }

  /** Without the right token or a minted invite that has not run out, a login changes nothing about the devices: no
      record is made, no secret is rotated. It is charged as a failure to the address that reserved the attempt, and
      to no other, and there is no success. */
  lemma OthersAreTurnedAway(cfg: Config, states: seq<Gate>, events: seq<Event>, t: nat)
    requires Trace(cfg, states, events) && t < |events| && events[t].Finish? && !Entitled(cfg, events, t)
    ensures states[t + 1].store == states[t].store
    ensures CallsAt(cfg, states, events, t)
         == [T.Fail(states[t].open[events[t].request], events[t].draws.now), T.Prune(events[t].draws.pruneAt)]
    ensures Result(cfg, states[t], events[t]) == Denied
  {
    hide TrackerHistory, InviteHistory, Track, Redeem, Operate, I.ConsumeAnswer, Minted;
    var g, e := states[t], events[t];
    if e.form.invite != "" && !Consumed(cfg, g, g.open[e.request], e.form, e.draws).Refused? {
      AcceptedIsMinted(cfg, states, events, t);
    }
    CallsAtIs(cfg, states, events, t);
    StoreStep(cfg, g, e);
    assert states[t + 1] == Step(cfg, g, e);
  }

  /** What the failure does to the account of that address: the reserved attempt becomes a failed one. */
  lemma FailureIsCharged(cfg: Config, states: seq<Gate>, events: seq<Event>, t: nat)
    requires Trace(cfg, states, events) && t < |events| && events[t].Finish? && !Entitled(cfg, events, t)
    requires |states[t].buckets.keys| <= T.MAX_TRACKED_LOGIN_IPS
    requires var ip := states[t].open[events[t].request];
      ip in states[t].buckets.vals && states[t].buckets.vals[ip].inFlight > 0
      && !T.WindowOver(cfg.policy, states[t].buckets.vals[ip], events[t].draws.now)
    ensures var ip := states[t].open[events[t].request];
      && ip in states[t + 1].buckets.vals
      && states[t + 1].buckets.vals[ip].failures == states[t].buckets.vals[ip].failures + 1
      && states[t + 1].buckets.vals[ip].inFlight == states[t].buckets.vals[ip].inFlight - 1
  {
    hide InviteCalls, StoreCalls, Track, Redeem, Operate, OutcomeOf, Entitled;
    OthersAreTurnedAway(cfg, states, events, t);
    TrackerStep(cfg, states[t], events[t]);
    assert states[t + 1] == Step(cfg, states[t], events[t]);
  }

  // ----- everybody entitled, while there is room -----

  /** The login whose record the step adds. */
  function LoginOf(g: Gate, e: Event): S.Op
    requires e.Finish? && e.request in g.open
  {
    S.Login(e.draws.at, e.draws.id, e.draws.secret, e.form.deviceLabel, Some(g.open[e.request]))
  }

  /** The step lets the device in: its record is there, the success clears the address's account, and the cookie
      handed out is good right away without approval, and in approval mode not before. */
  ghost predicate LetsIn(cfg: Config, g: Gate, e: Event, h: Gate)
    requires e.Finish? && e.request in g.open
  {
    && L.Has(h.store, L.Admitted(cfg.sessions, LoginOf(g, e)))
    && T.View(h.buckets, g.open[e.request]) == None
    && (e.draws.id != "" && '.' !in e.draws.id && e.draws.secret != "" ==>
        forall later :: S.IsActive(cfg.sessions, h.store, S.EncodeCookie(e.draws.id, e.draws.secret), later)
          <==> !cfg.sessions.approvalRequired && L.InTime(cfg.sessions, e.draws.at, e.draws.at, later))
  }

  /** A right token, with room and a working random source, gets its device in. */
  lemma TokenLetsIn(cfg: Config, states: seq<Gate>, events: seq<Event>, t: nat)
    requires Trace(cfg, states, events) && t < |events| && events[t].Finish? && cfg.sessions.idleMs >= 0
    requires events[t].form.invite == "" && events[t].form.tokenMatches && events[t].draws.drawn
    requires L.HasRoom(cfg.sessions, states[t].store, events[t].draws.at)
    ensures LetsIn(cfg, states[t], events[t], states[t + 1])
    ensures states[t + 1].codes == states[t].codes
  {
    hide Track, Redeem, Operate, L.HasRoom, S.AtCapacity, LetsIn, T.AfterFail, T.AfterPrune;
    var g, e := states[t], events[t];
    L.RoomIff(cfg.sessions, g.store, e.draws.at);
    assert states[t + 1] == Step(cfg, g, e);
    InviteStep(cfg, g, e);
    AcceptedStep(cfg, g, e);
  }

  /** So does the first use of an invite, which is then bound to that device. */
  lemma FirstUseLetsIn(cfg: Config, states: seq<Gate>, events: seq<Event>, t: nat)
    requires Trace(cfg, states, events) && t < |events| && events[t].Finish? && cfg.sessions.idleMs >= 0
    requires FirstUse(cfg, states[t], events[t]) && events[t].draws.drawn
    requires L.HasRoom(cfg.sessions, states[t].store, events[t].draws.at)
    ensures LetsIn(cfg, states[t], events[t], states[t + 1])
    ensures I.View(states[t + 1].codes, events[t].form.invite).Some?
    ensures I.View(states[t + 1].codes, events[t].form.invite).value.sessionId == Some(events[t].draws.id)
  {
    hide Track, Redeem, Operate, L.HasRoom, S.AtCapacity, LetsIn, T.AfterFail, T.AfterPrune;
    var g, e := states[t], events[t];
    L.RoomIff(cfg.sessions, g.store, e.draws.at);
    assert states[t + 1] == Step(cfg, g, e);
    InviteStep(cfg, g, e);
    AcceptedStep(cfg, g, e);
  }

  lemma AcceptedStep(cfg: Config, g: Gate, e: Event)
    requires Enabled(g, e) && e.Finish? && cfg.sessions.idleMs >= 0
    requires Result(cfg, g, e) == Created(e.draws.id) && L.HasRoom(cfg.sessions, g.store, e.draws.at)
    ensures LetsIn(cfg, g, e, Step(cfg, g, e))
  {
    hide OutcomeOf, Track, Redeem, Operate, S.Step, S.AtCapacity, L.HasRoom, L.InTime, S.IsActive;
    TrackerStep(cfg, g, e);
    StoreStep(cfg, g, e);
    var cookie := S.EncodeCookie(e.draws.id, e.draws.secret);
    AdmittedThere(cfg, g, e);
    if e.draws.id != "" && '.' !in e.draws.id && e.draws.secret != "" {
      S.CookieRoundTrip(e.draws.id, e.draws.secret);
      forall later ensures S.IsActive(cfg.sessions, Step(cfg, g, e).store, cookie, later)
          <==> !cfg.sessions.approvalRequired && L.InTime(cfg.sessions, e.draws.at, e.draws.at, later)
      {
        L.LoginLetsIn(cfg.sessions, g.store, LoginOf(g, e), cookie, later);
      }
    }
  }

  lemma AdmittedThere(cfg: Config, g: Gate, e: Event)
    requires Enabled(g, e) && e.Finish? && cfg.sessions.idleMs >= 0
    requires Result(cfg, g, e) == Created(e.draws.id) && L.HasRoom(cfg.sessions, g.store, e.draws.at)
    ensures L.Has(Step(cfg, g, e).store, L.Admitted(cfg.sessions, LoginOf(g, e)))
  {
    hide OutcomeOf, Track, Redeem, Operate, S.Step, S.AtCapacity, L.HasRoom;
    StoreStep(cfg, g, e);
    L.LoginMakesRecord(cfg.sessions, g.store, LoginOf(g, e));
  }

  /** Entitled, but without room or random text: no record is made or changed. */
  lemma NoRoomNoRecord(cfg: Config, states: seq<Gate>, events: seq<Event>, t: nat)
    requires Trace(cfg, states, events) && t < |events| && events[t].Finish? && cfg.sessions.idleMs >= 0
    requires events[t].form.invite == "" || FirstUse(cfg, states[t], events[t])
    requires !L.HasRoom(cfg.sessions, states[t].store, events[t].draws.at) || !events[t].draws.drawn
    ensures states[t + 1].store.objects == states[t].store.objects
  {
    hide Track, Redeem, Operate, L.HasRoom, S.AtCapacity, S.Step, I.ConsumeAnswer;
    var g, e := states[t], events[t];
    L.RoomIff(cfg.sessions, g.store, e.draws.at);
    StoreStep(cfg, g, e);
    ListKeepsRecords(cfg.sessions, g.store, e.draws.at);
    if !L.HasRoom(cfg.sessions, g.store, e.draws.at) {
      L.LoginWithoutRoom(cfg.sessions, g.store, LoginOf(g, e));
    }
    assert states[t + 1] == Step(cfg, g, e);
  }

  lemma ListKeepsRecords(cfg: S.Config, s: S.ValidStore, at: int)
    ensures S.Step(cfg, s, S.List(at)).objects == s.objects
  {
  }

  /** A retry within the grace gets a new secret for the device its first use had made, provided the owner has not
      rejected it and it has not run out; the secret lost on the way is good for nothing. */
  lemma RetryLetsIn(cfg: Config, states: seq<Gate>, events: seq<Event>, t: nat, r: S.Rec, cookie: string, later: int)
    requires Trace(cfg, states, events) && t < |events| && events[t].Finish? && cfg.sessions.idleMs >= 0
    requires events[t].form.invite != "" && events[t].draws.drawn
    requires Consumed(cfg, states[t], states[t].open[events[t].request], events[t].form, events[t].draws)
          == I.Retry(Some(r.id))
    requires L.Has(states[t].store, r) && r.status != S.Rejected
    requires L.InTime(cfg.sessions, r.createdAt, r.lastSeenAt, events[t].draws.at)
    requires L.Names(cookie, r.id, S.Digest(events[t].draws.secret))
    ensures var d, remote := events[t].draws, states[t].open[events[t].request];
      L.Has(states[t + 1].store,
            r.(secretHash := S.Digest(d.secret), lastSeenAt := d.at,
               lastSeenIp := if remote != "" then Some(remote) else r.lastSeenIp))
    ensures S.IsActive(cfg.sessions, states[t + 1].store, cookie, later)
       <==> r.status == S.Active && L.InTime(cfg.sessions, r.createdAt, events[t].draws.at, later)
    ensures forall former :: L.Names(former, r.id, r.secretHash) && r.secretHash != S.Digest(events[t].draws.secret) ==>
      !S.IsActive(cfg.sessions, states[t + 1].store, former, later)
  {
    var g, e := states[t], events[t];
    var op := S.Reissue(e.draws.at, r.id, e.draws.secret, Some(g.open[e.request]));
    L.InTimeIff(cfg.sessions, r, e.draws.at);
    RetryStep(cfg, g, e, r);
    assert states[t + 1] == Step(cfg, g, e);
    hide Step, S.Step, S.IsActive, L.InTime, L.Names, Consumed;
    L.ReissuedIsLetIn(cfg.sessions, g.store, r, op, cookie, later);
  }

  lemma RetryStep(cfg: Config, g: Gate, e: Event, r: S.Rec)
    requires Enabled(g, e) && e.Finish? && e.form.invite != "" && e.draws.drawn
    requires Consumed(cfg, g, g.open[e.request], e.form, e.draws) == I.Retry(Some(r.id))
    requires L.Has(g.store, r) && r.status != S.Rejected && !S.Expired(cfg.sessions, r, e.draws.at)
    ensures Step(cfg, g, e).store
         == S.Step(cfg.sessions, g.store, S.Reissue(e.draws.at, r.id, e.draws.secret, Some(g.open[e.request])))
  {
    hide Track, Redeem, Operate, S.Step, S.Expired, Consumed;
    StoreStep(cfg, g, e);
  }

  /** A retry whose device is gone, rejected or run out - or was never made - gets nothing, and changes no record. */
  lemma RetryWithoutDevice(cfg: Config, states: seq<Gate>, events: seq<Event>, t: nat)
    requires Trace(cfg, states, events) && t < |events| && events[t].Finish? && cfg.sessions.idleMs >= 0
    requires events[t].form.invite != ""
    requires match Consumed(cfg, states[t], states[t].open[events[t].request], events[t].form, events[t].draws)
      case Retry(Some(id)) =>
        id in states[t].store.table.vals ==>
          var r := S.At(states[t].store, id);
          r.status == S.Rejected || !L.InTime(cfg.sessions, r.createdAt, r.lastSeenAt, events[t].draws.at)
      case Retry(None) => true
      case _ => false
    ensures Result(cfg, states[t], events[t]) == RetryGone
    ensures states[t + 1].store.objects == states[t].store.objects
  {
    hide Track, Redeem, Operate, S.Step, Consumed, S.Expired, L.InTime;
    var g, e := states[t], events[t];
    StoreStep(cfg, g, e);
    var consumed := Consumed(cfg, g, g.open[e.request], e.form, e.draws);
    if consumed.sessionId.Some? {
      var id := consumed.sessionId.value;
      if id in g.store.table.vals {
        L.InTimeIff(cfg.sessions, S.At(g.store, id), e.draws.at);
      }
      L.ReissuesLiveOnly(cfg.sessions, g.store, S.Reissue(e.draws.at, id, e.draws.secret, Some(g.open[e.request])));
    }
    assert states[t + 1] == Step(cfg, g, e);
  }

  /** Arrivals, aborts and the owner's invites leave the devices alone. */
  lemma OtherStepsSpareDevices(cfg: Config, states: seq<Gate>, events: seq<Event>, t: nat)
    requires Trace(cfg, states, events) && t < |events| && !events[t].Finish? && !events[t].Device?
    ensures states[t + 1].store == states[t].store
  {
    hide Track, Redeem, Operate;
    StoreStep(cfg, states[t], events[t]);
    assert states[t + 1] == Step(cfg, states[t], events[t]);
  }

  // ----- a minted invite -----

  /** The step is no login by the code, and the owner neither drops all codes nor looks at them when it has run out. */
  predicate LeavesInvite(e: Event, code: string, expiresAt: int) {
    match e
    case Finish(_, f, _) => f.invite != code
    case Owner(call) =>
      && !call.Clear? && (call.Issue? ==> call.code != code)
      && (call.Issue? || call.Prune? ==> call.time < expiresAt)
    case _ => true
  }

  function MintedIn(events: seq<Event>, i: nat, j: nat): nat
    requires i <= j <= |events|
    decreases j
  {
    if i == j then 0 else MintedIn(events, i, j - 1) + if Mints(events[j - 1]) then 1 else 0
  }

  lemma {:induction false} MintedInHistory(cfg: Config, states: seq<Gate>, events: seq<Event>, i: nat, j: nat)
    requires Trace(cfg, states, events) && i <= j <= |events|
    ensures Place(cfg, states, events, i) <= Place(cfg, states, events, j) <= Place(cfg, states, events, |events|)
    ensures I.Mints(InviteHistory(cfg, states, events, |events|), Place(cfg, states, events, i),
                    Place(cfg, states, events, j)) == MintedIn(events, i, j)
    decreases j
  {
    hide Step, InviteHistory, InviteCalls;
    PlacesAscend(cfg, states, events, i, j);
    PlacesAscend(cfg, states, events, j, |events|);
    if i < j {
      MintedInHistory(cfg, states, events, i, j - 1);
      PlacesAscend(cfg, states, events, j - 1, j);
      I.MintsSplit(InviteHistory(cfg, states, events, |events|), Place(cfg, states, events, i),
                   Place(cfg, states, events, j - 1), Place(cfg, states, events, j));
      StepMints(cfg, states, events, j - 1);
    }
  }

  /** The invite calls of one step. */
  lemma CallShape(cfg: Config, g: Gate, e: Event)
    requires Enabled(g, e)
    ensures var calls := InviteCalls(cfg, g, e);
      && |calls| <= 2
      && (e.Owner? ==> calls == [e.call])
      && (!e.Owner? ==> forall c :: c in calls ==> e.Finish? && (c.Consume? || c.Bind?) && c.code == e.form.invite)
  {
    hide OutcomeOf;
  }

  lemma StepInHistory(cfg: Config, states: seq<Gate>, events: seq<Event>, t: nat)
    requires Trace(cfg, states, events) && t < |events|
    ensures var all, a := InviteHistory(cfg, states, events, |events|), Place(cfg, states, events, t);
      var calls := InviteCalls(cfg, states[t], events[t]);
      && Place(cfg, states, events, t + 1) == a + |calls| <= |all|
      && forall m :: 0 <= m < |calls| ==> all[a + m] == calls[m]
  {
    hide Step, InviteCalls;
    var all, a := InviteHistory(cfg, states, events, |events|), Place(cfg, states, events, t);
    HistoryGrows(cfg, states, events, t + 1, |events|);
    var upto, calls := InviteHistory(cfg, states, events, t + 1), InviteCalls(cfg, states[t], events[t]);
    assert upto == InviteHistory(cfg, states, events, t) + calls;
    forall m | 0 <= m < |calls| ensures all[a + m] == calls[m] {
      assert all[a + m] == upto[a + m];
    }
  }

  lemma StepMints(cfg: Config, states: seq<Gate>, events: seq<Event>, t: nat)
    requires Trace(cfg, states, events) && t < |events|
    ensures var all, a := InviteHistory(cfg, states, events, |events|), Place(cfg, states, events, t);
      && a <= Place(cfg, states, events, t + 1) <= |all|
      && I.Mints(all, a, Place(cfg, states, events, t + 1)) == if Mints(events[t]) then 1 else 0
  {
    hide Step, InviteCalls, InviteHistory;
    var all, a := InviteHistory(cfg, states, events, |events|), Place(cfg, states, events, t);
    var calls := InviteCalls(cfg, states[t], events[t]);
    StepInHistory(cfg, states, events, t);
    CallShape(cfg, states[t], events[t]);
    assert |calls| >= 1 ==> all[a] == all[a + 0] == calls[0] && calls[0] in calls;
    assert |calls| == 2 ==> all[a + 1] == calls[1] && calls[1] in calls;
    MintsOfTwo(all, a, |calls|);
  }

  lemma MintsOfTwo(all: seq<I.Event>, a: nat, n: nat)
    requires a + n <= |all| && n <= 2
    ensures I.Mints(all, a, a + n)
         == (if n >= 1 && all[a].Issue? then 1 else 0) + if n == 2 && all[a + 1].Issue? then 1 else 0
  {
    assert I.Mints(all, a, a) == 0;
    assert n >= 1 ==> I.Mints(all, a, a + 1) == if all[a].Issue? then 1 else 0;
  }

  /** The step that makes a call between those of two steps lies between them. */
  lemma MadeBetween(cfg: Config, states: seq<Gate>, events: seq<Event>, k: nat, t: nat, n: nat) returns (i: nat)
    requires Trace(cfg, states, events) && k < t <= |events|
    requires Place(cfg, states, events, k + 1) <= n < Place(cfg, states, events, t)
    ensures k < i < t && n < |InviteHistory(cfg, states, events, |events|)|
    ensures InviteHistory(cfg, states, events, |events|)[n] in InviteCalls(cfg, states[i], events[i])
  {
    hide Step, InviteHistory, InviteCalls;
    PlacesAscend(cfg, states, events, t, |events|);
    i := MadeBy(cfg, states, events, n, |events|);
    StepInHistory(cfg, states, events, i);
    if i <= k {
      PlacesAscend(cfg, states, events, i + 1, k + 1);
    }
    if t <= i {
      PlacesAscend(cfg, states, events, t, i);
    }
  }

  /** What the calls between the two steps leave alone. */
  lemma CallsLeaveInvite(cfg: Config, states: seq<Gate>, events: seq<Event>, k: nat, t: nat, n: nat, code: string,
                         expiresAt: int)
    requires Trace(cfg, states, events) && k < t < |events|
    requires forall i :: k < i < t ==> LeavesInvite(events[i], code, expiresAt)
    requires Place(cfg, states, events, k + 1) <= n < Place(cfg, states, events, t)
    ensures n < |InviteHistory(cfg, states, events, |events|)|
    ensures I.LeavesAlone(InviteHistory(cfg, states, events, |events|)[n], code, expiresAt)
  {
    hide Step, InviteCalls, InviteHistory, Place;
    var i := MadeBetween(cfg, states, events, k, t, n);
    CallShape(cfg, states[i], events[i]);
    assert LeavesInvite(events[i], code, expiresAt);
  }

  /** A minted invite lets its first user in, with room and a working random source, at any moment before it expires:
      unless the owner drops the codes, or mints so many more that it falls beyond the cap. */
  lemma InviteLetsIn(cfg: Config, states: seq<Gate>, events: seq<Event>, k: nat, t: nat)
    requires Trace(cfg, states, events) && MintsFresh(events) && k < t < |events| && Mints(events[k])
    requires ByInvite(events[t], events[k].call.code) && MintedIn(events, k + 1, t) < cfg.invites.maxPending
    requires forall i :: k < i < t ==>
      LeavesInvite(events[i], events[k].call.code, events[k].call.expiryClock + cfg.invites.ttlMs)
    requires events[t].draws.consumeAt < events[k].call.expiryClock + cfg.invites.ttlMs
    requires events[t].draws.drawn && cfg.sessions.idleMs >= 0
    requires L.HasRoom(cfg.sessions, states[t].store, events[t].draws.at)
    ensures LetsIn(cfg, states[t], events[t], states[t + 1])
  {
    hide Step, MintedIn, LeavesInvite, MintsFresh, Consumed, LetsIn, L.HasRoom;
    InviteIsGood(cfg, states, events, k, t);
    FirstUseLetsIn(cfg, states, events, t);
  }

  lemma InviteIsGood(cfg: Config, states: seq<Gate>, events: seq<Event>, k: nat, t: nat)
    requires Trace(cfg, states, events) && MintsFresh(events) && k < t < |events| && Mints(events[k])
    requires ByInvite(events[t], events[k].call.code) && MintedIn(events, k + 1, t) < cfg.invites.maxPending
    requires forall i :: k < i < t ==>
      LeavesInvite(events[i], events[k].call.code, events[k].call.expiryClock + cfg.invites.ttlMs)
    requires events[t].draws.consumeAt < events[k].call.expiryClock + cfg.invites.ttlMs
    ensures FirstUse(cfg, states[t], events[t])
  {
    hide Step, Place, InviteHistory, MintedIn, LeavesInvite, MintsFresh, Consumed, Result, I.Mints, I.LeavesAlone,
      I.AnswerAt, I.ConsumeAnswer;
    var code, end := events[k].call.code, events[k].call.expiryClock + cfg.invites.ttlMs;
    var all, m, n := InviteHistory(cfg, states, events, |events|), Place(cfg, states, events, k),
      Place(cfg, states, events, t);
    HistoryMintsFresh(cfg, states, events);
    ConsumeAt(cfg, states, events, t, code);
    MintAt(cfg, states, events, k);
    MintedInHistory(cfg, states, events, k + 1, t);
    forall i | m < i < n ensures i < |all| && I.LeavesAlone(all[i], code, end) {
      CallsLeaveInvite(cfg, states, events, k, t, i, code, end);
    }
    I.MintedCodeWorks(cfg.invites, all, m, n);
  }

  lemma MintAt(cfg: Config, states: seq<Gate>, events: seq<Event>, k: nat)
    requires Trace(cfg, states, events) && k < |events| && Mints(events[k])
    ensures var all, m := InviteHistory(cfg, states, events, |events|), Place(cfg, states, events, k);
      m < |all| && all[m] == events[k].call && Place(cfg, states, events, k + 1) == m + 1
  {
    hide Step, Result;
    HistoryGrows(cfg, states, events, k + 1, |events|);
    var upto := InviteHistory(cfg, states, events, k + 1);
    assert upto[|upto| - 1] == events[k].call;
  }
}
