/** The per-address login throttle. The first part is the Map of buckets step by step; the
    second bounds the attempts admitted over any run; the class at the end is the tracker. */
module LoginThrottle {
  import opened Text
  import OM = OrderedMap

  const MAX_TRACKED_LOGIN_IPS: int := 4096

  datatype Bucket = Bucket(failures: nat, inFlight: nat, firstFailure: int, lockedUntil: Option<int>)

  type Buckets = OM.OrderedMap<string, Bucket>

  /** Configuration is validated to at least one attempt and a positive lockout. */
  datatype Policy = Policy(maxAttempts: nat, lockoutMs: nat) {
    predicate Valid() {
      maxAttempts > 0 && lockoutMs > 0
    }
  }

  function CeilSeconds(ms: int): int {
    -(-ms / 1000)
  }

  predicate WindowOver(p: Policy, b: Bucket, now: int) {
    now - b.firstFailure > p.lockoutMs
  }

  predicate Locked(b: Bucket, now: int) {
    b.lockedUntil.Some? && b.lockedUntil.value > now
  }

  function AfterCheck(m: Buckets, ip: string, now: int): Buckets {
    if ip in m.vals && m.vals[ip].lockedUntil.Some? && m.vals[ip].lockedUntil.value <= now then OM.Delete(m, ip) else m
  }

  function CheckAnswer(m: Buckets, ip: string, now: int): int {
    if ip in m.vals && Locked(m.vals[ip], now) then CeilSeconds(m.vals[ip].lockedUntil.value - now) else 0
  }

  /** The bucket an attempt is charged to: a new one once the window of the old one is over. */
  function ChargedBucket(p: Policy, m: Buckets, ip: string, now: int): Bucket {
    if ip !in m.vals || WindowOver(p, m.vals[ip], now) then Bucket(0, 0, now, None) else m.vals[ip]
  }

  predicate Admits(p: Policy, m: Buckets, ip: string, now: int) {
    var b := ChargedBucket(p, m, ip, now);
    !Locked(b, now) && b.failures + b.inFlight < p.maxAttempts
  }

  function AfterReserve(p: Policy, m: Buckets, ip: string, now: int): Buckets {
    var b := ChargedBucket(p, m, ip, now);
    if Locked(b, now) then m
    else if b.failures + b.inFlight >= p.maxAttempts then OM.Set(m, ip, b.(lockedUntil := Some(now + p.lockoutMs)))
    else OM.Set(m, ip, b.(inFlight := b.inFlight + 1))
  }

  /** Seconds to wait; zero means admitted. */
  function ReserveAnswer(p: Policy, m: Buckets, ip: string, now: int): int {
    var b := ChargedBucket(p, m, ip, now);
    if Locked(b, now) then CeilSeconds(b.lockedUntil.value - now)
    else if b.failures + b.inFlight >= p.maxAttempts then CeilSeconds(p.lockoutMs)
    else 0
  }

  function AfterFail(p: Policy, m: Buckets, ip: string, now: int): Buckets {
    if ip !in m.vals || WindowOver(p, m.vals[ip], now) then OM.Set(m, ip, Bucket(1, 0, now, None))
    else
      var b := m.vals[ip];
      var failed := b.(inFlight := if b.inFlight > 0 then b.inFlight - 1 else 0, failures := b.failures + 1);
      var locked := failed.(lockedUntil := Some(now + p.lockoutMs));
      OM.Set(m, ip, if failed.failures >= p.maxAttempts then locked else failed)
  }

  function AfterSuccess(m: Buckets, ip: string): Buckets {
    OM.Delete(m, ip)
  }

  predicate Stale(p: Policy, b: Bucket, now: int) {
    (b.lockedUntil.Some? && b.lockedUntil.value <= now) || WindowOver(p, b, now)
  }

  function FreshKeys(p: Policy, m: Buckets, now: int): set<string> {
    set ip | ip in m.vals && !Stale(p, m.vals[ip], now)
  }

  /** First key, in insertion order, among the first n, with the least firstFailure. */
  function Oldest(m: Buckets, n: nat): (ip: string)
    requires 0 < n <= |m.keys|
    ensures ip in m.vals && forall i :: 0 <= i < n ==> m.vals[ip].firstFailure <= m.vals[m.keys[i]].firstFailure
  {
    assert m.keys[n - 1] in m.keys;
    if n == 1 then m.keys[0]
    else
      var best := Oldest(m, n - 1);
      if m.vals[m.keys[n - 1]].firstFailure < m.vals[best].firstFailure then m.keys[n - 1] else best
  }

  function AfterPrune(p: Policy, m: Buckets, now: int): Buckets {
    if |m.keys| <= MAX_TRACKED_LOGIN_IPS then m
    else
      var swept := OM.Restrict(m, FreshKeys(p, m, now));
      if |swept.keys| <= MAX_TRACKED_LOGIN_IPS then swept else OM.Delete(swept, Oldest(swept, |swept.keys|))
  }

  // ----- runs -----

  datatype Event =
    | Check(ip: string, time: int)
    | Reserve(ip: string, time: int)
    | Fail(ip: string, time: int)
    | Success(ip: string, time: int)
    | Prune(time: int)

  function Step(p: Policy, m: Buckets, e: Event): Buckets {
    match e
    case Check(ip, now) => AfterCheck(m, ip, now)
    case Reserve(ip, now) => AfterReserve(p, m, ip, now)
    case Fail(ip, now) => AfterFail(p, m, ip, now)
    case Success(ip, _) => AfterSuccess(m, ip)
    case Prune(now) => AfterPrune(p, m, now)
  }

  function Run(p: Policy, events: seq<Event>): Buckets {
    if events == [] then OM.Empty() else Step(p, Run(p, events[..|events| - 1]), events[|events| - 1])
  }

  function View(m: Buckets, ip: string): Option<Bucket> {
    if ip in m.vals then Some(m.vals[ip]) else None
  }

  predicate AdmitsNow(p: Policy, m: Buckets, e: Event, ip: string) {
    e.Reserve? && e.ip == ip && Admits(p, m, ip, e.time)
  }

  /** Attempts from `ip` admitted at a time between `a` and `b`. */
  function Admissions(p: Policy, events: seq<Event>, ip: string, a: int, b: int): nat {
    if events == [] then 0
    else
      var init, e := events[..|events| - 1], events[|events| - 1];
      Admissions(p, init, ip, a, b) + if AdmitsNow(p, Run(p, init), e, ip) && a <= e.time <= b then 1 else 0
  }

  /** The step throws the address's bucket out only because too many are tracked. */
  predicate CapEvicts(p: Policy, m: Buckets, e: Event, ip: string) {
    e.Prune? && |m.keys| > MAX_TRACKED_LOGIN_IPS
    && var swept := OM.Restrict(m, FreshKeys(p, m, e.time));
       |swept.keys| > MAX_TRACKED_LOGIN_IPS && Oldest(swept, |swept.keys|) == ip
  }

  /** Clock readings never go back, and nothing forgives the address. */
  ghost predicate Unforgiven(p: Policy, events: seq<Event>, ip: string) {
    && (forall i, j :: 0 <= i < j < |events| ==> events[i].time <= events[j].time)
    && (forall i :: 0 <= i < |events| ==> !(events[i].Success? && events[i].ip == ip))
    && (forall i :: 0 <= i < |events| ==> !CapEvicts(p, Run(p, events[..i]), events[i], ip))
  }

  // ----- one address, one step -----

  predicate Starts(before: Option<Bucket>, after: Option<Bucket>) {
    after.Some? && (before.None? || before.value.firstFailure != after.value.firstFailure)
  }

  /** How one step may change the bucket of an address that is not forgiven: it stays, or goes once its
      lockout has run, or a new one starts once the window is over, or it is charged. */
  ghost predicate Moves(p: Policy, before: Option<Bucket>, after: Option<Bucket>, now: int, admitted: bool) {
    match (before, after)
    case (None, None) => !admitted
    case (Some(b), None) => !admitted && now >= b.firstFailure + p.lockoutMs
    case (None, Some(c)) => c.firstFailure == now && c.lockedUntil.None? && c.failures + c.inFlight == 1
    case (Some(b), Some(c)) =>
      if b.firstFailure == c.firstFailure then
        && (b.lockedUntil == c.lockedUntil || c.lockedUntil == Some(now + p.lockoutMs))
        && c.failures + c.inFlight >= b.failures + b.inFlight + (if admitted then 1 else 0)
        && (admitted ==> b.failures + b.inFlight < p.maxAttempts && now - b.firstFailure <= p.lockoutMs)
      else
        c.firstFailure == now && c.lockedUntil.None? && c.failures + c.inFlight == 1 &&
          now - b.firstFailure > p.lockoutMs
  }

  predicate Sane(p: Policy, v: Option<Bucket>, now: int) {
    v.Some? ==>
      && v.value.firstFailure <= now
      && (v.value.lockedUntil.Some? ==> v.value.lockedUntil.value >= v.value.firstFailure + p.lockoutMs)
  }

  lemma ReserveMoves(p: Policy, m: Buckets, ip: string, now: int)
    requires p.Valid() && Sane(p, View(m, ip), now)
    ensures Moves(p, View(m, ip), View(AfterReserve(p, m, ip, now), ip), now, Admits(p, m, ip, now))
    ensures Sane(p, View(AfterReserve(p, m, ip, now), ip), now)
  {
  }

  lemma FailMoves(p: Policy, m: Buckets, ip: string, now: int)
    requires p.Valid() && Sane(p, View(m, ip), now)
    ensures Moves(p, View(m, ip), View(AfterFail(p, m, ip, now), ip), now, false)
    ensures Sane(p, View(AfterFail(p, m, ip, now), ip), now)
  {
  }

  lemma PruneMoves(p: Policy, m: Buckets, ip: string, now: int)
    requires p.Valid() && Sane(p, View(m, ip), now) && !CapEvicts(p, m, Prune(now), ip)
    ensures Moves(p, View(m, ip), View(AfterPrune(p, m, now), ip), now, false)
    ensures Sane(p, View(AfterPrune(p, m, now), ip), now)
  {
  }

  lemma StepMoves(p: Policy, m: Buckets, e: Event, ip: string)
    requires p.Valid() && Sane(p, View(m, ip), e.time)
    requires !(e.Success? && e.ip == ip) && !CapEvicts(p, m, e, ip)
    ensures Moves(p, View(m, ip), View(Step(p, m, e), ip), e.time, AdmitsNow(p, m, e, ip))
    ensures Sane(p, View(Step(p, m, e), ip), e.time)
  {
    match e
    case Check(k, now) =>
    case Reserve(k, now) => if k == ip { ReserveMoves(p, m, ip, now); }
    case Fail(k, now) => if k == ip { FailMoves(p, m, ip, now); }
    case Success(k, _) =>
    case Prune(now) => PruneMoves(p, m, ip, now);
  }

  // ----- the bound -----

  /** Bookkeeping of the proof: time of the last bucket start, attempts admitted since then, bucket
      starts counted in [lo, hi] and the time of the last one counted; what the counted starts pay
      for, and the time they must span. */
  datatype Ledger = Ledger(lastStart: Option<int>, current: nat, starts: nat, lastCounted: int, paid: nat, span: nat)

  function Book(p: Policy, t: Ledger, now: int, starts: bool, admits: bool, lo: int, hi: int): Ledger {
    var one := if admits then 1 else 0;
    if !starts then t.(current := t.current + one)
    else if lo <= now <= hi then
      Ledger(Some(now), one, t.starts + 1, now, t.paid + p.maxAttempts,
             if t.starts == 0 then 0 else t.span + p.lockoutMs)
    else t.(lastStart := Some(now), current := one)
  }

  function Tally(p: Policy, events: seq<Event>, ip: string, lo: int, hi: int): Ledger {
    if events == [] then Ledger(None, 0, 0, 0, 0, 0)
    else
      var init, e := events[..|events| - 1], events[|events| - 1];
      Book(p, Tally(p, init, ip, lo, hi), e.time, Starts(View(Run(p, init), ip), View(Run(p, events), ip)),
           AdmitsNow(p, Run(p, init), e, ip), lo, hi)
  }

  function LastTime(events: seq<Event>): int
    requires events != []
  {
    events[|events| - 1].time
  }

  ghost predicate LedgerFits(p: Policy, t: Ledger, v: Option<Bucket>, now: int, admitted: nat, lo: int, hi: int) {
    // the last start is the current bucket's, or long enough ago; a bucket's attempts are all charged to it
    && (t.lastStart.Some? ==> t.lastStart.value <= now && (v.None? ==> now >= t.lastStart.value + p.lockoutMs))
    && (v.Some? ==> t.lastStart == Some(v.value.firstFailure) && t.current <= v.value.failures + v.value.inFlight)
    && t.current <= p.maxAttempts && (t.lastStart.None? ==> t.current == 0)
    // counted starts are a lockout apart
    && (t.starts > 0 ==>
          t.lastStart.Some? && lo <= t.lastCounted <= hi && t.lastCounted <= t.lastStart.value &&
            t.span <= t.lastCounted - lo)
    // each counted start pays for maxAttempts admissions, the last one so far for those it had
    && (if t.lastStart.Some? && lo <= t.lastStart.value <= hi
        then t.starts > 0 && admitted + p.maxAttempts <= t.paid + t.current
        else admitted <= t.paid)
  }

  /** One step of the bookkeeping keeps the ledger right. */
  lemma LedgerStep(p: Policy, t: Ledger, before: Option<Bucket>, after: Option<Bucket>, prev: int, now: int,
                   admits: bool, admitted: nat, a: int, b: int)
    requires p.Valid() && a <= b && prev <= now && Sane(p, before, now)
    requires Moves(p, before, after, now, admits)
    requires LedgerFits(p, t, before, prev, admitted, a - p.lockoutMs, b)
    ensures LedgerFits(p, Book(p, t, now, Starts(before, after), admits, a - p.lockoutMs, b), after, now,
                       admitted + (if admits && a <= now <= b then 1 else 0), a - p.lockoutMs, b)
  {
  }

  ghost predicate Kept(p: Policy, events: seq<Event>, ip: string, a: int, b: int)
    requires events != []
  {
    var v := View(Run(p, events), ip);
    && Sane(p, v, LastTime(events))
    && LedgerFits(p, Tally(p, events, ip, a - p.lockoutMs, b), v, LastTime(events),
                  Admissions(p, events, ip, a, b), a - p.lockoutMs, b)
  }

  lemma LedgerStart(p: Policy, ip: string, now: int, lo: int, hi: int)
    ensures View(OM.Empty(), ip) == None && Sane(p, None, now)
    ensures LedgerFits(p, Ledger(None, 0, 0, 0, 0, 0), None, now, 0, lo, hi)
  {
  }

  lemma SaneLater(p: Policy, v: Option<Bucket>, prev: int, now: int)
    requires Sane(p, v, prev) && prev <= now
    ensures Sane(p, v, now)
  {
  }

  lemma {:induction false} LedgerHolds(p: Policy, events: seq<Event>, ip: string, a: int, b: int)
    requires p.Valid() && a <= b && Unforgiven(p, events, ip) && events != []
    ensures Kept(p, events, ip, a, b)
  {
    hide Step, Moves, LedgerFits, Book, CapEvicts, AdmitsNow, Starts, View, Sane;
    var n := |events| - 1;
    var init, e := events[..n], events[n];
    UnforgivenPrefix(p, events, ip);
    var prev := e.time;
    if init != [] {
      LedgerHolds(p, init, ip, a, b);
      prev := LastTime(init);
      assert prev == events[n - 1].time <= e.time;
      SaneLater(p, View(Run(p, init), ip), prev, e.time);
    } else {
      LedgerStart(p, ip, prev, a - p.lockoutMs, b);
    }
    StepMoves(p, Run(p, init), e, ip);
    LedgerStep(p, Tally(p, init, ip, a - p.lockoutMs, b), View(Run(p, init), ip), View(Run(p, events), ip),
               prev, e.time, AdmitsNow(p, Run(p, init), e, ip), Admissions(p, init, ip, a, b), a, b);
  }

  ghost predicate Products(p: Policy, t: Ledger) {
    && t.paid == t.starts * p.maxAttempts
    && t.span == if t.starts == 0 then 0 else (t.starts - 1) * p.lockoutMs
  }

  lemma BookProducts(p: Policy, t: Ledger, now: int, starts: bool, admits: bool, lo: int, hi: int)
    requires Products(p, t)
    ensures Products(p, Book(p, t, now, starts, admits, lo, hi))
  {
    NextMultiple(t.starts, p.maxAttempts);
    NextMultiple(t.starts - 1, p.lockoutMs);
  }

  lemma NextMultiple(k: int, d: int)
    ensures (k + 1) * d == k * d + d
  {
  }

  lemma {:induction false} TallyProducts(p: Policy, events: seq<Event>, ip: string, lo: int, hi: int)
    ensures Products(p, Tally(p, events, ip, lo, hi))
  {
    if events != [] {
      var init, e := events[..|events| - 1], events[|events| - 1];
      TallyProducts(p, init, ip, lo, hi);
      BookProducts(p, Tally(p, init, ip, lo, hi), e.time, Starts(View(Run(p, init), ip), View(Run(p, events), ip)),
                   AdmitsNow(p, Run(p, init), e, ip), lo, hi);
    }
  }

  lemma UnforgivenPrefix(p: Policy, events: seq<Event>, ip: string)
    requires events != [] && Unforgiven(p, events, ip)
    ensures Unforgiven(p, events[..|events| - 1], ip)
    ensures !CapEvicts(p, Run(p, events[..|events| - 1]), events[|events| - 1], ip)
  {
    hide CapEvicts, Run;
    var init := events[..|events| - 1];
    assert events[..|init|] == init;
    forall i | 0 <= i < |init| ensures !CapEvicts(p, Run(p, init[..i]), init[i], ip) {
      assert init[..i] == events[..i] && init[i] == events[i];
    }
  }

  lemma QuotientBound(k: int, d: int, x: int)
    requires d > 0 && k * d <= x
    ensures k <= x / d
  {
    Remainder(x, d);
    if k > x / d {
      NotNegative(k - x / d - 1, d);
      Spread(k, x / d, d);
    }
  }

  lemma Remainder(x: int, d: int)
    requires d > 0
    ensures x == (x / d) * d + x % d && 0 <= x % d < d
  {
  }

  lemma NotNegative(n: nat, d: nat)
    ensures n * d >= 0
  {
  }

  lemma Spread(k: int, q: int, d: int)
    ensures (k - q - 1) * d == k * d - q * d - d
  {
  }

  /** Starts a lockout apart inside an interval of length T + lockout are at most T / lockout + 2. */
  lemma StartsBounded(starts: nat, lockout: nat, length: nat)
    requires lockout > 0 && (starts > 0 ==> (starts - 1) * lockout <= length + lockout)
    ensures starts <= length / lockout + 2
  {
    if starts > 0 {
      Spread(starts - 1, 0, lockout);
      QuotientBound(starts - 2, lockout, length);
    }
  }

  lemma Monotone(m: nat, x: int, y: int)
    requires x <= y
    ensures m * x <= m * y
  {
  }

  /** In every interval of length T the attempts admitted from an unforgiven address are at most
      maxAttempts * (T / lockoutMs + 2), however reservations overlap. */
  lemma AdmissionsBounded(p: Policy, events: seq<Event>, ip: string, a: int, length: nat)
    requires p.Valid() && Unforgiven(p, events, ip)
    ensures Admissions(p, events, ip, a, a + length) <= p.maxAttempts * (length / p.lockoutMs + 2)
  {
    hide Run, Tally, Unforgiven, Sane, View, Products;
    if events == [] {
      Monotone(p.maxAttempts, 0, length / p.lockoutMs + 2);
    } else {
      LedgerHolds(p, events, ip, a, a + length);
      TallyProducts(p, events, ip, a - p.lockoutMs, a + length);
      Conclude(p, Tally(p, events, ip, a - p.lockoutMs, a + length), Admissions(p, events, ip, a, a + length), length);
    }
  }

  lemma Conclude(p: Policy, t: Ledger, admitted: nat, length: nat)
    requires p.Valid() && Products(p, t) && admitted <= t.paid && (t.starts > 0 ==> t.span <= length + p.lockoutMs)
    ensures admitted <= p.maxAttempts * (length / p.lockoutMs + 2)
  {
    StartsBounded(t.starts, p.lockoutMs, length);
    Monotone(p.maxAttempts, t.starts, length / p.lockoutMs + 2);
  }

  /** A lock is honoured by `reserve` exactly while the window of its bucket is open; after that a new
      bucket starts although the lock has not run out. */
  lemma LockHonouredIffWindowOpen(p: Policy, m: Buckets, ip: string, now: int)
    requires p.Valid() && ip in m.vals && Locked(m.vals[ip], now)
    ensures !Admits(p, m, ip, now) <==> now - m.vals[ip].firstFailure <= p.lockoutMs
  {
  }

  /** With two attempts and ten seconds, the least lockout the configuration takes: two failed logins, the second
      late in the window, lock until 19 s; the login at 10.001 s is admitted all the same. */
  lemma LockOutlivedByWindow()
    ensures var p := Policy(2, 10000);
      var m := Run(p, [Reserve("ip", 0), Fail("ip", 0), Reserve("ip", 9000), Fail("ip", 9000)]);
      && View(m, "ip") == Some(Bucket(2, 0, 0, Some(19000)))
      && Admits(p, m, "ip", 10001)
  {
    var p := Policy(2, 10000);
    var events := [Reserve("ip", 0), Fail("ip", 0), Reserve("ip", 9000), Fail("ip", 9000)];
    hide Step;
    RunSteps(p, events);
    var m0: Buckets := OM.Empty();
    var m1 := Step(p, m0, events[0]);
    var m2 := Step(p, m1, events[1]);
    var m3 := Step(p, m2, events[2]);
    assert View(m1, "ip") == Some(Bucket(0, 1, 0, None)) by { ReserveView(p, m0, "ip", 0); }
    assert View(m2, "ip") == Some(Bucket(1, 0, 0, None)) by { FailView(p, m1, "ip", 0); }
    assert View(m3, "ip") == Some(Bucket(1, 1, 0, None)) by { ReserveView(p, m2, "ip", 9000); }
    FailView(p, m3, "ip", 9000);
  }

  lemma RunSteps(p: Policy, events: seq<Event>)
    requires |events| == 4
    ensures Run(p, events) == Step(p, Step(p, Step(p, Step(p, OM.Empty(), events[0]), events[1]), events[2]), events[3])
  {
    hide Step;
    assert events[..3][..2] == events[..2] && events[..2][..1] == events[..1] && events[..1][..0] == [];
    assert Run(p, []) == OM.Empty();
    assert Run(p, events[..1]) == Step(p, OM.Empty(), events[0]);
    assert Run(p, events[..2]) == Step(p, Run(p, events[..1]), events[1]);
    assert Run(p, events[..3]) == Step(p, Run(p, events[..2]), events[2]);
  }

  lemma ReserveView(p: Policy, m: Buckets, ip: string, now: int)
    ensures Admits(p, m, ip, now) ==>
      var b := ChargedBucket(p, m, ip, now);
      View(Step(p, m, Event.Reserve(ip, now)), ip) == Some(b.(inFlight := b.inFlight + 1))
  {
  }

  lemma FailView(p: Policy, m: Buckets, ip: string, now: int)
    requires ip in m.vals && !WindowOver(p, m.vals[ip], now) && m.vals[ip].inFlight > 0
    ensures var b := m.vals[ip];
      var failed := b.(inFlight := b.inFlight - 1, failures := b.failures + 1);
      View(Step(p, m, Event.Fail(ip, now)), ip)
      == Some(if failed.failures >= p.maxAttempts then failed.(lockedUntil := Some(now + p.lockoutMs)) else failed)
  {
  }

  // ----- who is let through -----

  /** Attempts of an address since its last success, and how many of them have not been failed yet; a failure nobody
      had reserved counts as one. */
  datatype Count = Count(attempts: nat, pending: nat)

  function Counted(c: Count, e: Event, ip: string): Count {
    if e.Prune? || e.Check? || e.ip != ip then c
    else if e.Success? then Count(0, 0)
    else if e.Reserve? then Count(c.attempts + 1, c.pending + 1)
    else if c.pending > 0 then Count(c.attempts, c.pending - 1)
    else Count(c.attempts + 1, 0)
  }

  function AttemptsOf(events: seq<Event>, ip: string): Count {
    if events == [] then Count(0, 0) else Counted(AttemptsOf(events[..|events| - 1], ip), events[|events| - 1], ip)
  }

  /** The bucket holds no more than the attempts counted, and is locked only when those are maxAttempts. */
  predicate Accounted(p: Policy, v: Option<Bucket>, c: Count) {
    && c.pending <= c.attempts
    && (v.Some? ==>
          && v.value.failures + c.pending <= c.attempts && v.value.inFlight <= c.pending
          && (v.value.lockedUntil.Some? ==> c.attempts >= p.maxAttempts))
  }

  lemma AccountStep(p: Policy, m: Buckets, e: Event, ip: string, c: Count)
    requires p.Valid() && Accounted(p, View(m, ip), c)
    ensures Accounted(p, View(Step(p, m, e), ip), Counted(c, e, ip))
  {
  }

  lemma {:induction false} AllAccounted(p: Policy, events: seq<Event>, ip: string)
    requires p.Valid()
    ensures Accounted(p, View(Run(p, events), ip), AttemptsOf(events, ip))
  {
    if events != [] {
      hide Step, Accounted, Counted;
      var n := |events| - 1;
      AllAccounted(p, events[..n], ip);
      AccountStep(p, Run(p, events[..n]), events[n], ip, AttemptsOf(events[..n], ip));
    } else {
      assert View(Run(p, events), ip) == None;
    }
  }

  /** Nobody is turned away before maxAttempts attempts of his own since his last success. */
  lemma RefusedOnlyAfterAttempts(p: Policy, events: seq<Event>, ip: string, now: int)
    requires p.Valid() && !Admits(p, Run(p, events), ip, now)
    ensures AttemptsOf(events, ip).attempts >= p.maxAttempts
  {
    AllAccounted(p, events, ip);
    hide Run;
  }

  lemma {:induction false} CountFromSuccess(before: seq<Event>, ip: string, now: int, after: seq<Event>)
    ensures AttemptsOf(before + [Success(ip, now)] + after, ip) == AttemptsOf(after, ip)
    decreases |after|
  {
    var all := before + [Success(ip, now)] + after;
    if after == [] {
      assert all[|all| - 1] == Success(ip, now);
    } else {
      CountFromSuccess(before, ip, now, after[..|after| - 1]);
      assert all[..|all| - 1] == before + [Success(ip, now)] + after[..|after| - 1];
      assert all[|all| - 1] == after[|after| - 1];
    }
  }

  /** After a success an address starts afresh: it is turned away again only after maxAttempts new attempts. */
  lemma SuccessStartsAfresh(p: Policy, before: seq<Event>, ip: string, now: int, after: seq<Event>, later: int)
    requires p.Valid() && AttemptsOf(after, ip).attempts < p.maxAttempts
    ensures Admits(p, Run(p, before + [Success(ip, now)] + after), ip, later)
  {
    hide Run, Admits;
    CountFromSuccess(before, ip, now, after);
    if !Admits(p, Run(p, before + [Success(ip, now)] + after), ip, later) {
      RefusedOnlyAfterAttempts(p, before + [Success(ip, now)] + after, ip, later);
    }
  }

  /** Calls for one address leave the others' buckets as they are. */
  lemma AddressesApart(p: Policy, m: Buckets, e: Event, ip: string)
    requires !e.Prune? && e.ip != ip
    ensures View(Step(p, m, e), ip) == View(m, ip)
  {
  }

  // ----- the tracker itself -----

  class LoginTracker {
    const policy: Policy
    var buckets: Buckets

    constructor (policy: Policy)
      ensures this.policy == policy && buckets == OM.Empty()
    {
      this.policy := policy;
      buckets := OM.Empty();
    }

    method SweepExpired(now: int)
      modifies this`buckets
      ensures buckets == OM.Restrict(old(buckets), FreshKeys(policy, old(buckets), now))
    {
      var keys := buckets.keys;
      ghost var start := buckets;
      OM.RestrictAll(start, Unswept(start, keys, 0, now));
      for i := 0 to |keys|
        invariant buckets == OM.Restrict(start, Unswept(start, keys, i, now))
      {
        SweepOne(start, keys, i, now);
        if buckets.vals[keys[i]].lockedUntil.Some? && buckets.vals[keys[i]].lockedUntil.value <= now {
          buckets := OM.Delete(buckets, keys[i]);
        } else if now - buckets.vals[keys[i]].firstFailure > policy.lockoutMs {
          buckets := OM.Delete(buckets, keys[i]);
        }
      }
      assert keys[..|keys|] == keys;
      OM.RestrictSame(start, Unswept(start, keys, |keys|, now), FreshKeys(policy, start, now));
    }

    ghost function Unswept(m: Buckets, keys: seq<string>, i: nat, now: int): set<string>
      requires i <= |keys|
    {
      set ip | ip in m.vals && !(ip in keys[..i] && Stale(policy, m.vals[ip], now))
    }

    lemma SweepOne(m: Buckets, keys: seq<string>, i: nat, now: int)
      requires keys == m.keys && i < |keys|
      ensures var here := OM.Restrict(m, Unswept(m, keys, i, now));
        && keys[i] in here.vals && here.vals[keys[i]] == m.vals[keys[i]]
        && OM.Restrict(m, Unswept(m, keys, i + 1, now))
           == if Stale(policy, m.vals[keys[i]], now) then OM.Delete(here, keys[i]) else here
    {
      assert keys[..i + 1] == keys[..i] + [keys[i]];
      assert keys[i] in m.keys && keys[i] !in keys[..i];
      if Stale(policy, m.vals[keys[i]], now) {
        assert Unswept(m, keys, i + 1, now) == Unswept(m, keys, i, now) - {keys[i]};
        OM.DeleteTwice(m, Unswept(m, keys, i, now), keys[i]);
      } else {
        assert Unswept(m, keys, i + 1, now) == Unswept(m, keys, i, now);
      }
    }

    method Check(ip: string, now: int) returns (wait: int)
      modifies this`buckets
      ensures buckets == Step(policy, old(buckets), Event.Check(ip, now))
      ensures wait == CheckAnswer(old(buckets), ip, now)
    {
      if ip in buckets.vals && buckets.vals[ip].lockedUntil.Some? {
        var until := buckets.vals[ip].lockedUntil.value;
        if until > now {
          return CeilSeconds(until - now);
        }
        buckets := OM.Delete(buckets, ip);
      }
      return 0;
    }

    method Reserve(ip: string, now: int) returns (wait: int)
      modifies this`buckets
      ensures buckets == Step(policy, old(buckets), Event.Reserve(ip, now))
      ensures wait == ReserveAnswer(policy, old(buckets), ip, now)
    {
      hide CeilSeconds;
      var bucket := ChargedBucket(policy, buckets, ip, now);
      if bucket.lockedUntil.Some? && bucket.lockedUntil.value > now {
        return CeilSeconds(bucket.lockedUntil.value - now);
      }
      if bucket.failures + bucket.inFlight >= policy.maxAttempts {
        bucket := bucket.(lockedUntil := Some(now + policy.lockoutMs));
        buckets := OM.Set(buckets, ip, bucket);
        return CeilSeconds(policy.lockoutMs);
      }
      bucket := bucket.(inFlight := bucket.inFlight + 1);
      buckets := OM.Set(buckets, ip, bucket);
      return 0;
    }

    method Fail(ip: string, now: int)
      modifies this`buckets
      ensures buckets == Step(policy, old(buckets), Event.Fail(ip, now))
    {
      if ip !in buckets.vals || now - buckets.vals[ip].firstFailure > policy.lockoutMs {
        buckets := OM.Set(buckets, ip, Bucket(1, 0, now, None));
        return;
      }
      var bucket := buckets.vals[ip];
      bucket := bucket.(inFlight := if bucket.inFlight > 0 then bucket.inFlight - 1 else 0);
      bucket := bucket.(failures := bucket.failures + 1);
      if bucket.failures >= policy.maxAttempts {
        bucket := bucket.(lockedUntil := Some(now + policy.lockoutMs));
      }
      buckets := OM.Set(buckets, ip, bucket);
    }

    method Success(ip: string, now: int)
      modifies this`buckets
      ensures buckets == Step(policy, old(buckets), Event.Success(ip, now))
    {
      buckets := OM.Delete(buckets, ip);
    }

    method Prune(now: int)
      modifies this`buckets
      ensures buckets == Step(policy, old(buckets), Event.Prune(now))
    {
      if |buckets.keys| <= MAX_TRACKED_LOGIN_IPS {
        return;
      }
      SweepExpired(now);
      if |buckets.keys| <= MAX_TRACKED_LOGIN_IPS {
        return;
      }
      var oldest := FindOldest();
      buckets := OM.Delete(buckets, oldest);
    }

    method FindOldest() returns (oldest: string)
      requires buckets.keys != []
      ensures oldest == Oldest(buckets, |buckets.keys|)
    {
      var keys := buckets.keys;
      oldest := keys[0];
      for i := 1 to |keys|
        invariant oldest == Oldest(buckets, i)
      {
        assert keys[i] in keys;
        if buckets.vals[keys[i]].firstFailure < buckets.vals[oldest].firstFailure {
          oldest := keys[i];
        }
      }
    }
  }
}
