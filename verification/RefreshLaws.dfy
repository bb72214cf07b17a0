/** What the refresh coordinator must do: start when asked, answer every recovery edge, and show how an attempt
    ended. */
module RefreshLaws {
  import opened Text
  import opened Refresh

  // ----- a refresh asked for -----

  /** Asked to refresh with nothing in flight, it starts an attempt at once, with its timeout armed, and shows it. */
  lemma RefreshStarts(s: State, now: int)
    requires Inv(s) && !s.disposed && s.flight.None?
    ensures var t, n := Step(s, Event.Refresh(now)), |s.attempts|;
      && t.attempts == s.attempts + [Attempt(false, now, Queued, true, false, false)] && t.flight == Some(n)
      && t.snapshot == Snapshot(s.snapshot.state, true, false) && t.recoveryTimer.None?
      && Enabled(t, TimeoutFires(n)) == (s.pending == 0) && Enabled(t, Begin(n)) == (s.pending == 0)
  {
  }

  /** With one in flight, it is shared: no other starts. */
  lemma RefreshShares(s: State, now: int)
    requires Inv(s) && !s.disposed && s.flight.Some?
    ensures var t := Step(s, Event.Refresh(now));
      t.attempts == s.attempts && t.flight == s.flight && t.snapshot == s.snapshot
  {
  }

  // ----- recovery edges -----

  /** On the edge of a page becoming visible with nothing in flight: the attempt starts there and then when the last
      start is five seconds ago or there was none; else a timer is armed for what is missing of them. */
  lemma VisibleAgain(s: State, now: int, later: int)
    requires Inv(s) && Enabled(s, SeeVisibility(now, later)) && Edge(s, SeeVisibility(now, later)) && s.flight.None?
    ensures var t := Step(s, SeeVisibility(now, later));
      var due := s.lastRefreshAt.None? || now - s.lastRefreshAt.value >= 5000;
      && (due ==> t.attempts == s.attempts + [Attempt(true, later, Queued, true, false, false)]
                  && t.flight == Some(|s.attempts|))
      && (!due ==> t.attempts == s.attempts && t.recoveryTimer.Some?
                   && (s.recoveryTimer.None? ==> t.recoveryTimer.value == 5000 - (now - s.lastRefreshAt.value)))
  {
  }

  /** The same once the listeners told of a carrier connected again have returned, on a page that is not hidden. */
  lemma ConnectedAgain(s: State, now: int, later: int)
    requires Inv(s) && Enabled(s, Resume(now, later)) && !s.disposed && s.page != Some(Hidden) && s.flight.None?
    ensures var t := Step(s, Resume(now, later));
      var due := s.lastRefreshAt.None? || now - s.lastRefreshAt.value >= 5000;
      && (due ==> t.attempts == s.attempts + [Attempt(true, later, Queued, true, false, false)]
                  && t.flight == Some(|s.attempts|))
      && (!due ==> t.attempts == s.attempts && t.recoveryTimer.Some?
                   && (s.recoveryTimer.None? ==> t.recoveryTimer.value == 5000 - (now - s.lastRefreshAt.value)))
  {
  }

  /** When the timer fires on time, on a page that is not hidden, the attempt starts. */
  lemma TimerStarts(s: State, now: int, later: int)
    requires Inv(s) && Enabled(s, RecoveryFires(now, later)) && s.page != Some(Hidden)
    requires s.lastRefreshAt.Some? ==> now - s.lastRefreshAt.value >= 5000
    ensures var t := Step(s, RecoveryFires(now, later));
      t.attempts == s.attempts + [Attempt(true, later, Queued, true, false, false)] && t.flight == Some(|s.attempts|)
  {
  }

  /** An edge with nothing in flight is owed a start from then on. */
  lemma EdgeWaits(s: State, e: Event)
    requires Inv(s) && Enabled(s, e) && Edge(s, e) && s.flight.None? && !s.disposed
    ensures Waiting(Step(s, e)) || Starts(s, Step(s, e))
  {
    hide AttemptsOk, SpacedOut, SnapshotOk;
  }

  predicate CalledOff(s: State) {
    s.disposed || s.page == Some(Hidden)
  }

  /** What waits goes on waiting until a start, unless dispose or a hidden page calls it off. */
  lemma WaitingLasts(s: State, e: Event)
    requires Inv(s) && Enabled(s, e) && Waiting(s)
    ensures var t := Step(s, e); Waiting(t) || Starts(s, t) || CalledOff(t)
  {
    hide AttemptsOk, SpacedOut, SnapshotOk;
  }

  /** No recovery edge is dropped: from an edge with nothing in flight on, there has been a start, or one is waited
      for, or the page was hidden or the coordinator disposed of in between. */
  lemma {:induction false} EdgeIsAnswered(states: seq<State>, events: seq<Event>, j: nat, t: nat)
    requires Trace(states, events) && j < t <= |events| && Edge(states[j], events[j])
    requires states[j].flight.None? && !states[j].disposed
    ensures (exists k :: j <= k < t && Starts(states[k], states[k + 1])) || Waiting(states[t])
            || exists k :: j < k <= t && CalledOff(states[k])
    decreases t
  {
    hide Step, Waiting, Edge, Starts;
    InvAlways(states, events, t - 1);
    assert states[t - 1 + 1] == Step(states[t - 1], events[t - 1]);
    if t == j + 1 {
      EdgeWaits(states[j], events[j]);
    } else {
      EdgeIsAnswered(states, events, j, t - 1);
      if k :| j <= k < t - 1 && Starts(states[k], states[k + 1]) {
      } else if k :| j < k <= t - 1 && CalledOff(states[k]) {
      } else {
        WaitingLasts(states[t - 1], events[t - 1]);
      }
    }
  }

  // ----- how an attempt ends -----

  /** A queued attempt calls the refresh callback, unless it is automatic and the page has been hidden, or dispose came
      first. */
  lemma QueuedBegins(s: State, i: nat)
    requires Inv(s) && Enabled(s, Begin(i))
    ensures var t := Step(s, Begin(i));
      t.attempts[i].phase == Running <==> !s.disposed && !(s.attempts[i].automatic && s.page == Some(Hidden))
  {
  }

  /** An attempt that settles in time frees the flight and shows whether it failed. */
  lemma SettledShows(s: State, i: nat, failed: bool)
    requires Inv(s) && Enabled(s, Settle(i, failed)) && !s.disposed && !s.attempts[i].timedOut
    ensures var t := Step(s, Settle(i, failed));
      t.flight.None? && t.attempts[i].finished && t.snapshot == Snapshot(s.snapshot.state, false, failed)
  {
    assert s.flight == Some(i);
  }

  /** One that does not shows a failure at its timeout, keeps the flight until it settles, and then changes nothing
      that is shown. */
  lemma TimedOutShows(s: State, i: nat)
    requires Inv(s) && Enabled(s, TimeoutFires(i)) && !s.disposed
    ensures var t := Step(s, TimeoutFires(i));
      && t.flight == s.flight == Some(i) && t.attempts[i].finished && t.attempts[i].timedOut
      && t.snapshot == Snapshot(s.snapshot.state, false, true)
  {
    assert s.flight == Some(i);
  }

  lemma LateSettlementIsQuiet(s: State, i: nat, failed: bool)
    requires Inv(s) && Enabled(s, Settle(i, failed)) && !s.disposed && s.attempts[i].timedOut
    ensures var t := Step(s, Settle(i, failed)); t.snapshot == s.snapshot && t.flight.None?
  {
    assert s.flight == Some(i);
  }

  /** The connection's state is shown as observed. */
  lemma CarrierShows(s: State, carrier: Carrier)
    requires Inv(s) && !s.disposed
    ensures Step(s, Carry(carrier)).snapshot == s.snapshot.(state := carrier)
  {
  }
}
