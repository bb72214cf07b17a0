/** What the throttle must do: lock an address when its attempts are used up, tell it how long to wait, and keep the
    number of addresses tracked in hand. Stated over runs and through the buckets a step leaves. */
module ThrottleLaws {
  import opened Text
  import OM = OrderedMap
  import opened LoginThrottle

  // ----- locks -----

  /** Seconds that cover the milliseconds, and no second more. */
  predicate Covers(seconds: int, ms: int) {
    (seconds - 1) * 1000 < ms <= seconds * 1000
  }

  lemma SecondsCover(ms: int)
    ensures Covers(CeilSeconds(ms), ms)
  {
  }

  /** An attempt is admitted when none is charged to a window still open, or fewer than maxAttempts are and no lock
      holds. */
  lemma AdmittedIff(p: Policy, m: Buckets, ip: string, now: int)
    requires p.Valid()
    ensures Admits(p, m, ip, now) <==>
      match View(m, ip)
      case None => true
      case Some(b) =>
        now - b.firstFailure > p.lockoutMs
        || (b.failures + b.inFlight < p.maxAttempts && (b.lockedUntil.Some? ==> b.lockedUntil.value <= now))
  {
  }

  /** An admitted attempt is told to go on, and is in flight from then on, in a new bucket when the window is over. */
  lemma AdmittedIsCharged(p: Policy, m: Buckets, ip: string, now: int)
    requires p.Valid() && Admits(p, m, ip, now)
    ensures ReserveAnswer(p, m, ip, now) == 0
    ensures var b := View(m, ip);
      View(Step(p, m, Event.Reserve(ip, now)), ip)
      == Some(if b.None? || now - b.value.firstFailure > p.lockoutMs then Bucket(0, 1, now, None)
              else b.value.(inFlight := b.value.inFlight + 1))
  {
  }

  /** A refused one is told the seconds that are left of the lock; a new lock is as long as the lockout. */
  lemma RefusedIsLocked(p: Policy, m: Buckets, ip: string, now: int)
    requires p.Valid() && !Admits(p, m, ip, now)
    ensures ip in m.vals
    ensures var b, until := m.vals[ip], View(Step(p, m, Event.Reserve(ip, now)), ip).value.lockedUntil;
      && View(Step(p, m, Event.Reserve(ip, now)), ip) == Some(b.(lockedUntil := until))
      && until == (if b.lockedUntil.Some? && b.lockedUntil.value > now then b.lockedUntil else Some(now + p.lockoutMs))
      && ReserveAnswer(p, m, ip, now) > 0 && Covers(ReserveAnswer(p, m, ip, now), until.value - now)
  {
    SecondsCover(p.lockoutMs);
    if m.vals[ip].lockedUntil.Some? {
      SecondsCover(m.vals[ip].lockedUntil.value - now);
    }
    hide CeilSeconds;
  }

  /** A failure within the window takes its attempt out of flight; the one that makes maxAttempts of them locks the
      address for the lockout. Outside of it a bucket begins with this failure. */
  lemma FailureIsCharged(p: Policy, m: Buckets, ip: string, now: int)
    requires p.Valid()
    ensures var before, after := View(m, ip), View(Step(p, m, Event.Fail(ip, now)), ip);
      && after.Some?
      && (if before.Some? && now - before.value.firstFailure <= p.lockoutMs then
            var b := before.value;
            && after.value.failures == b.failures + 1 && after.value.firstFailure == b.firstFailure
            && after.value.inFlight == (if b.inFlight > 0 then b.inFlight - 1 else 0)
            && after.value.lockedUntil
               == (if b.failures + 1 >= p.maxAttempts then Some(now + p.lockoutMs) else b.lockedUntil)
          else after.value == Bucket(1, 0, now, None))
  {
  }

  /** After maxAttempts failures in one window the address is locked out for the rest of it. */
  lemma UsedUpIsOut(p: Policy, m: Buckets, ip: string, now: int, later: int)
    requires p.Valid() && ip in m.vals && m.vals[ip].failures + 1 >= p.maxAttempts
    requires now <= later <= m.vals[ip].firstFailure + p.lockoutMs
    ensures !Admits(p, Step(p, m, Event.Fail(ip, now)), ip, later)
  {
  }

  // ----- waiting -----

  ghost predicate Ordered(events: seq<Event>, now: int) {
    && (forall i, j :: 0 <= i < j < |events| ==> events[i].time <= events[j].time)
    && forall i :: 0 <= i < |events| ==> events[i].time <= now
  }

  /** A lock is set when the attempts are used up, and is no shorter than the window. */
  predicate Kept(p: Policy, v: Option<Bucket>, now: int) {
    v.Some? ==>
      && v.value.firstFailure <= now
      && (v.value.lockedUntil.Some? ==>
            && v.value.lockedUntil.value >= v.value.firstFailure + p.lockoutMs
            && v.value.failures + v.value.inFlight >= p.maxAttempts)
  }

  lemma StepKeeps(p: Policy, m: Buckets, e: Event, ip: string)
    requires p.Valid() && Kept(p, View(m, ip), e.time)
    ensures Kept(p, View(Step(p, m, e), ip), e.time)
  {
  }

  lemma {:induction false} RunKeeps(p: Policy, events: seq<Event>, ip: string, now: int)
    requires p.Valid() && Ordered(events, now)
    ensures Kept(p, View(Run(p, events), ip), now)
  {
    hide Step;
    if events != [] {
      var n := |events| - 1;
      RunKeeps(p, events[..n], ip, events[n].time);
      StepKeeps(p, Run(p, events[..n]), events[n], ip);
    }
  }

  /** Whether the wait announced is enough: who comes back after it is let in exactly when the window is over by then,
      and it is, but for the one millisecond the window ends on. */
  lemma WaitEnoughIff(p: Policy, events: seq<Event>, ip: string, now: int)
    requires p.Valid() && Ordered(events, now) && !Admits(p, Run(p, events), ip, now)
    ensures ip in Run(p, events).vals
    ensures var m := Run(p, events);
      var back := now + ReserveAnswer(p, m, ip, now) * 1000;
      && (Admits(p, Step(p, m, Event.Reserve(ip, now)), ip, back) <==> back != m.vals[ip].firstFailure + p.lockoutMs)
      && forall later :: later > back ==> Admits(p, Step(p, m, Event.Reserve(ip, now)), ip, later)
  {
    hide Run, Step, ReserveAnswer;
    var m := Run(p, events);
    RunKeeps(p, events, ip, now);
    RefusedIsLocked(p, m, ip, now);
  }

  /** That millisecond: one failed login locks for ten seconds, told as ten at once, and who comes back after exactly
      those is locked for ten more. */
  lemma WaitTooShort()
    ensures var p, m := Policy(1, 10000), Run(Policy(1, 10000), [Event.Reserve("ip", 0), Event.Fail("ip", 0)]);
      && ReserveAnswer(p, m, "ip", 0) == 10
      && !Admits(p, m, "ip", 10000) && ReserveAnswer(p, m, "ip", 10000) == 10
      && View(Step(p, m, Event.Reserve("ip", 10000)), "ip").value.lockedUntil == Some(20000)
  {
    hide Step;
    var p, events := Policy(1, 10000), [Event.Reserve("ip", 0), Event.Fail("ip", 0)];
    var m0: Buckets := OM.Empty();
    var m1 := Step(p, m0, events[0]);
    assert events[..1] == [events[0]] && events[..1][..0] == [] && Run(p, []) == m0;
    assert Run(p, events[..1]) == m1 && Run(p, events) == Step(p, m1, events[1]);
    AdmittedIsCharged(p, m0, "ip", 0);
    FailureIsCharged(p, m1, "ip", 0);
    RefusedIsLocked(p, Run(p, events), "ip", 10000);
  }

  /** The other way of asking tells the seconds left of a lock and forgets the address once it is over. */
  lemma CheckTells(p: Policy, m: Buckets, ip: string, now: int)
    ensures var b, after := View(m, ip), View(Step(p, m, Event.Check(ip, now)), ip);
      if b.Some? && b.value.lockedUntil.Some? then
        if b.value.lockedUntil.value > now then
          CheckAnswer(m, ip, now) > 0 && Covers(CheckAnswer(m, ip, now), b.value.lockedUntil.value - now) && after == b
        else CheckAnswer(m, ip, now) == 0 && after == None
      else CheckAnswer(m, ip, now) == 0 && after == b
  {
  }

  // ----- how many are tracked -----

  /** Pruning takes out nobody until too many are tracked; then what has run out goes, and if that is not enough, one
      more, whose first failure is the longest ago. */
  lemma PruneSpares(p: Policy, m: Buckets, now: int, ip: string)
    requires ip in m.vals && ip !in Step(p, m, Event.Prune(now)).vals
    ensures |m.keys| > 4096
    ensures var b := m.vals[ip];
      (b.lockedUntil.Some? && b.lockedUntil.value <= now) || now - b.firstFailure > p.lockoutMs
      || forall other :: other in Step(p, m, Event.Prune(now)).vals ==> b.firstFailure <= m.vals[other].firstFailure
  {
  }

  lemma PruneKeepsBuckets(p: Policy, m: Buckets, now: int)
    ensures forall ip :: ip in Step(p, m, Event.Prune(now)).vals ==>
      ip in m.vals && Step(p, m, Event.Prune(now)).vals[ip] == m.vals[ip]
  {
  }

  /** One address too many is brought back under the cap; further ones go one at a time. */
  lemma PruneCaps(p: Policy, m: Buckets, now: int)
    ensures |Step(p, m, Event.Prune(now)).keys| <= if |m.keys| <= 4097 then 4096 else |m.keys| - 1
  {
    hide OM.Restrict, OM.Keep, Oldest, FreshKeys;
    var swept := OM.Restrict(m, FreshKeys(p, m, now));
    if |m.keys| > 4096 && |swept.keys| > 4096 {
      var kept := Step(p, m, Event.Prune(now));
      OM.CountIsKeys(swept);
      OM.CountIsKeys(kept);
      assert kept.vals.Keys == swept.vals.Keys - {Oldest(swept, |swept.keys|)};
    }
  }
}
