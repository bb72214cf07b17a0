/** One-time invite codes: the Map of entries step by step, what holds of a code over every run,
    and the store itself. */
module Invites {
  import opened Text
  import OM = OrderedMap

  datatype Entry = Entry(expiresAt: int, usedAt: Option<int>, usedIp: Option<string>, sessionId: Option<string>)

  type Codes = OM.OrderedMap<string, Entry>

  datatype Options = Options(ttlMs: int, maxPending: nat, retryGraceMs: int)

  datatype Consumed = Refused | First | Retry(sessionId: Option<string>)

  function FreshCodes(m: Codes, now: int): set<string> {
    set c | c in m.vals && m.vals[c].expiresAt > now
  }

  /** Forget the oldest codes beyond the cap. */
  function TrimTo(m: Codes, maxPending: nat): Codes
    decreases |m.keys|
  {
    if |m.keys| <= maxPending then m
    else
      OM.DeleteFirst(m);
      TrimTo(OM.Delete(m, m.keys[0]), maxPending)
  }

  function AfterPrune(o: Options, m: Codes, now: int): Codes {
    TrimTo(OM.Restrict(m, FreshCodes(m, now)), o.maxPending)
  }

  /** Prune, then add the code; `at` is the clock read for the expiry. */
  function AfterIssue(o: Options, m: Codes, now: int, at: int, code: string): Codes {
    OM.Set(AfterPrune(o, m, now), code, Entry(at + o.ttlMs, None, None, None))
  }

  /** The caller may not know the client's address; the empty one counts as unknown. */
  function KnownIp(ip: Option<string>): Option<string> {
    if ip == Some("") then None else ip
  }

  /** Same client as at first use, and within the grace. */
  predicate InGrace(o: Options, e: Entry, ip: Option<string>, now: int) {
    KnownIp(ip).Some? && e.usedIp == KnownIp(ip) && e.usedAt.Some? && now - e.usedAt.value <= o.retryGraceMs
  }

  function View(m: Codes, code: string): Option<Entry> {
    if code in m.vals then Some(m.vals[code]) else None
  }

  /** The verdict on an attempt, from the entry the code has. */
  function Verdict(o: Options, v: Option<Entry>, code: string, ip: Option<string>, now: int): Consumed {
    if code == "" || v.None? || v.value.expiresAt <= now then Refused
    else if v.value.usedAt.None? then First
    else if InGrace(o, v.value, ip, now) then Retry(v.value.sessionId)
    else Refused
  }

  function ConsumeAnswer(o: Options, m: Codes, code: string, ip: Option<string>, now: int): Consumed {
    Verdict(o, View(m, code), code, ip, now)
  }

  function AfterConsume(o: Options, m: Codes, code: string, ip: Option<string>, now: int): Codes {
    match ConsumeAnswer(o, m, code, ip, now)
    case First => OM.Set(m, code, m.vals[code].(usedAt := Some(now), usedIp := KnownIp(ip)))
    case Retry(_) => m
    case Refused => if code == "" then m else OM.Delete(m, code)
  }

  function AfterBind(m: Codes, code: string, sessionId: string): Codes {
    if code !in m.vals || m.vals[code].usedAt.None? then m
    else OM.Set(m, code, m.vals[code].(sessionId := Some(sessionId)))
  }

  // ----- runs -----

  datatype Event =
    | Issue(code: string, time: int, expiryClock: int)
    | Consume(code: string, ip: Option<string>, time: int)
    | Bind(code: string, sessionId: string)
    | Prune(time: int)
    | Clear

  function Step(o: Options, m: Codes, e: Event): Codes {
    match e
    case Issue(code, now, at) => AfterIssue(o, m, now, at, code)
    case Consume(code, ip, now) => AfterConsume(o, m, code, ip, now)
    case Bind(code, sessionId) => AfterBind(m, code, sessionId)
    case Prune(now) => AfterPrune(o, m, now)
    case Clear => OM.Empty()
  }

  function Run(o: Options, events: seq<Event>): Codes {
    if events == [] then OM.Empty() else Step(o, Run(o, events[..|events| - 1]), events[|events| - 1])
  }

  /** What call number `i` of the run answered. */
  function AnswerAt(o: Options, events: seq<Event>, i: nat): Consumed
    requires i < |events| && events[i].Consume?
  {
    ConsumeAnswer(o, Run(o, events[..i]), events[i].code, events[i].ip, events[i].time)
  }

  /** Minted codes are fresh: none is minted twice. */
  ghost predicate FreshlyMinted(events: seq<Event>) {
    forall i, j :: 0 <= i < j < |events| && events[i].Issue? && events[j].Issue? ==> events[i].code != events[j].code
  }

  // ----- one code -----

  lemma {:induction false} TrimKeeps(m: Codes, maxPending: nat, code: string)
    ensures code in TrimTo(m, maxPending).vals ==> code in m.vals && TrimTo(m, maxPending).vals[code] == m.vals[code]
    ensures |TrimTo(m, maxPending).keys| <= maxPending
    decreases |m.keys|
  {
    if |m.keys| > maxPending {
      OM.DeleteFirst(m);
      TrimKeeps(OM.Delete(m, m.keys[0]), maxPending, code);
    }
  }

  /** How one call may change a code's entry from `v` to `w`. */
  ghost predicate Change(o: Options, code: string, v: Option<Entry>, e: Event, w: Option<Entry>) {
    || (w == None && (e.Consume? && e.code == code && code != "" ==> Verdict(o, v, code, e.ip, e.time) == Refused))
    || (w == v && !(e.Consume? && e.code == code && code != "" && !Verdict(o, v, code, e.ip, e.time).Retry?))
    || (e.Issue? && e.code == code && w == Some(Entry(e.expiryClock + o.ttlMs, None, None, None)))
    || (e.Consume? && e.code == code && Verdict(o, v, code, e.ip, e.time) == First
        && w == Some(v.value.(usedAt := Some(e.time), usedIp := KnownIp(e.ip))))
    || (e.Bind? && e.code == code && v.Some? && v.value.usedAt.Some? &&
        w == Some(v.value.(sessionId := Some(e.sessionId))))
  }

  lemma StepChange(o: Options, m: Codes, e: Event, code: string)
    ensures Change(o, code, View(m, code), e, View(Step(o, m, e), code))
  {
    match e
    case Issue(_, now, _) => TrimKeeps(OM.Restrict(m, FreshCodes(m, now)), o.maxPending, code);
    case Prune(now) => TrimKeeps(OM.Restrict(m, FreshCodes(m, now)), o.maxPending, code);
    case _ =>
  }

  /** The entry of one code before the first call, and after each. */
  ghost predicate Life(o: Options, code: string, events: seq<Event>, views: seq<Option<Entry>>) {
    && |views| == |events| + 1 && views[0] == None
    && forall n :: 0 <= n < |events| ==> Change(o, code, views[n], events[n], views[n + 1])
  }

  ghost function ViewsOf(o: Options, events: seq<Event>, code: string): (views: seq<Option<Entry>>)
    ensures |views| == |events| + 1
    ensures forall n :: 0 <= n <= |events| ==> views[n] == View(Run(o, events[..n]), code)
  {
    seq(|events| + 1, n requires 0 <= n <= |events| => View(Run(o, events[..n]), code))
  }

  lemma RunIsLife(o: Options, events: seq<Event>, code: string)
    ensures Life(o, code, events, ViewsOf(o, events, code))
    ensures forall i :: 0 <= i < |events| && events[i].Consume? && events[i].code == code ==>
      AnswerAt(o, events, i) == VerdictAt(o, code, events, ViewsOf(o, events, code), i)
  {
    hide Step, Change;
    forall n | 0 <= n < |events|
      ensures Change(o, code, View(Run(o, events[..n]), code), events[n], View(Run(o, events[..n + 1]), code))
    {
      assert events[..n + 1][..n] == events[..n];
      StepChange(o, Run(o, events[..n]), events[n], code);
    }
  }

  function VerdictAt(o: Options, code: string, events: seq<Event>, views: seq<Option<Entry>>, i: nat): Consumed
    requires i < |events| && |views| == |events| + 1 && events[i].Consume?
  {
    Verdict(o, views[i], code, events[i].ip, events[i].time)
  }

  /** The entry `e` can be read off the calls: minted by i, first used by f, bound by b. */
  ghost predicate Explained(o: Options, code: string, events: seq<Event>, views: seq<Option<Entry>>, n: nat, e: Entry,
                            i: nat, f: nat, b: nat)
    requires n <= |events| && |views| == |events| + 1
  {
    && i < n && events[i].Issue? && events[i].code == code && e.expiresAt == events[i].expiryClock + o.ttlMs
    && (e.usedAt.Some? ==>
          && i < f < n && events[f].Consume? && events[f].code == code && VerdictAt(o, code, events, views, f) == First
          && e.usedAt == Some(events[f].time) && e.usedIp == KnownIp(events[f].ip))
    && (e.sessionId.Some? ==> e.usedAt.Some? && f < b < n && events[b] == Bind(code, e.sessionId.value))
  }

  lemma {:induction false} EntryExplained(o: Options, code: string, events: seq<Event>, views: seq<Option<Entry>>,
                                          n: nat)
    returns (i: nat, f: nat, b: nat)
    requires Life(o, code, events, views) && n <= |events| && views[n].Some?
    ensures Explained(o, code, events, views, n, views[n].value, i, f, b)
  {
    assert n > 0;
    var e := events[n - 1];
    assert Change(o, code, views[n - 1], e, views[n]);
    i, f, b := n - 1, n - 1, n - 1;
    if views[n - 1].Some? {
      var i', f', b' := EntryExplained(o, code, events, views, n - 1);
      if !(e.Issue? && e.code == code && views[n] != views[n - 1]) {
        i := i';
        if views[n].value.usedAt == views[n - 1].value.usedAt && views[n].value.usedIp == views[n - 1].value.usedIp {
          f := f';
        }
        if views[n].value.sessionId == views[n - 1].value.sessionId {
          b := b';
        }
      }
    }
  }

  ghost predicate MintedBefore(events: seq<Event>, i: nat, code: string) {
    exists k :: 0 <= k < i && k < |events| && events[k].Issue? && events[k].code == code
  }

  predicate SpentOrGone(v: Option<Entry>) {
    v.None? || v.value.usedAt.Some?
  }

  /** Once minted and gone, a code never comes back; once used, it stays used. */
  lemma {:induction false} NeverFreshAgain(o: Options, code: string, events: seq<Event>, views: seq<Option<Entry>>,
                                           i: nat, n: nat)
    requires Life(o, code, events, views) && FreshlyMinted(events) && i <= n <= |events|
    requires MintedBefore(events, i, code) && SpentOrGone(views[i])
    ensures SpentOrGone(views[n]) && (views[i].None? ==> views[n].None?)
    decreases n
  {
    if i < n {
      NeverFreshAgain(o, code, events, views, i, n - 1);
      assert Change(o, code, views[n - 1], events[n - 1], views[n]);
    }
  }

  /** A code yields at most one first use. */
  lemma AtMostOneFirstUse(o: Options, events: seq<Event>, i: nat, j: nat)
    requires FreshlyMinted(events) && i < j < |events| && events[i].Consume? && events[j].Consume?
    requires events[i].code == events[j].code && AnswerAt(o, events, i) == First
    ensures AnswerAt(o, events, j) != First
  {
    var code := events[i].code;
    var views := ViewsOf(o, events, code);
    RunIsLife(o, events, code);
    var k, f, b := EntryExplained(o, code, events, views, i);
    assert Change(o, code, views[i], events[i], views[i + 1]);
    NeverFreshAgain(o, code, events, views, i + 1, j);
  }

  /** After a refused attempt on a code that was minted, every later attempt on it is refused. */
  lemma RefusedIsDead(o: Options, events: seq<Event>, i: nat, j: nat)
    requires FreshlyMinted(events) && i < j < |events| && events[i].Consume? && events[j].Consume?
    requires events[i].code == events[j].code && AnswerAt(o, events, i) == Refused
    requires MintedBefore(events, i, events[i].code)
    ensures AnswerAt(o, events, j) == Refused
  {
    var code := events[i].code;
    var views := ViewsOf(o, events, code);
    RunIsLife(o, events, code);
    if code != "" {
      assert Change(o, code, views[i], events[i], views[i + 1]);
      NeverFreshAgain(o, code, events, views, i + 1, j);
    }
  }

  /** A retry is accepted only after the one first use, from the same known address, within the grace,
      before expiry, and hands back only a session bound since that first use. */
  lemma RetryIsSameClient(o: Options, events: seq<Event>, j: nat) returns (i: nat, f: nat, b: nat)
    requires j < |events| && events[j].Consume? && AnswerAt(o, events, j).Retry?
    ensures i < f < j && events[i].Issue? && events[i].code == events[j].code
    ensures events[j].time < events[i].expiryClock + o.ttlMs
    ensures events[f].Consume? && events[f].code == events[j].code && AnswerAt(o, events, f) == First
    ensures KnownIp(events[f].ip).Some? && KnownIp(events[j].ip) == KnownIp(events[f].ip)
    ensures events[j].time - events[f].time <= o.retryGraceMs
    ensures AnswerAt(o, events, j).sessionId.Some? ==>
      f < b < j && events[b] == Bind(events[j].code, AnswerAt(o, events, j).sessionId.value)
  {
    var code := events[j].code;
    var views := ViewsOf(o, events, code);
    RunIsLife(o, events, code);
    i, f, b := EntryExplained(o, code, events, views, j);
  }

  /** A first use comes after the code was minted and before it expired. */
  lemma FirstIsInTime(o: Options, events: seq<Event>, j: nat) returns (i: nat)
    requires j < |events| && events[j].Consume? && AnswerAt(o, events, j) == First
    ensures i < j && events[i].Issue? && events[i].code == events[j].code
    ensures events[j].time < events[i].expiryClock + o.ttlMs
  {
    var code := events[j].code;
    RunIsLife(o, events, code);
    var f, b;
    i, f, b := EntryExplained(o, code, events, ViewsOf(o, events, code), j);
  }

  // ----- which codes are good -----

  /** The code is listed, and at most n codes after it. */
  ghost predicate Recent(keys: seq<string>, code: string, n: nat) {
    exists k :: 0 <= k < |keys| && keys[k] == code && |keys| - 1 - k <= n
  }

  lemma KeptRecent(keys: seq<string>, keep: set<string>, code: string, n: nat)
    requires Recent(keys, code, n) && code in keep
    ensures Recent(OM.Keep(keys, keep), code, n)
  {
    var k :| 0 <= k < |keys| && keys[k] == code && |keys| - 1 - k <= n;
    var a, b := keys[..k], keys[k + 1..];
    assert keys == a + ([code] + b);
    OM.KeepConcat(a, [code] + b, keep);
    OM.KeepCons(code, b, keep);
    var kept := OM.Keep(keys, keep);
    assert kept == OM.Keep(a, keep) + ([code] + OM.Keep(b, keep));
    assert kept[|OM.Keep(a, keep)|] == code;
  }

  lemma {:induction false} TrimSparesRecent(m: Codes, maxPending: nat, code: string, n: nat)
    requires Recent(m.keys, code, n) && n < maxPending
    ensures Recent(TrimTo(m, maxPending).keys, code, n)
    ensures code in m.vals && View(TrimTo(m, maxPending), code) == View(m, code)
    decreases |m.keys|
  {
    if |m.keys| > maxPending {
      OM.DeleteFirst(m);
      var k :| 0 <= k < |m.keys| && m.keys[k] == code && |m.keys| - 1 - k <= n;
      assert m.keys[1..][k - 1] == code && m.keys[0] != code;
      TrimSparesRecent(OM.Delete(m, m.keys[0]), maxPending, code, n);
    }
  }

  lemma PruneSparesRecent(o: Options, m: Codes, now: int, code: string, n: nat)
    requires Recent(m.keys, code, n) && n < o.maxPending && code in m.vals && now < m.vals[code].expiresAt
    ensures Recent(AfterPrune(o, m, now).keys, code, n) && View(AfterPrune(o, m, now), code) == View(m, code)
  {
    hide OM.Restrict, TrimTo;
    KeptRecent(m.keys, FreshCodes(m, now), code, n);
    TrimSparesRecent(OM.Restrict(m, FreshCodes(m, now)), o.maxPending, code, n);
  }

  /** The call is not about the code, and forgets it neither as expired nor with all the others. */
  predicate LeavesAlone(e: Event, code: string, expiresAt: int) {
    && !e.Clear? && ((e.Issue? || e.Consume? || e.Bind?) ==> e.code != code)
    && ((e.Issue? || e.Prune?) ==> e.time < expiresAt)
  }

  lemma EntryStays(o: Options, m: Codes, e: Event, code: string, n: nat)
    requires Recent(m.keys, code, n) && n < o.maxPending && code in m.vals
    requires LeavesAlone(e, code, m.vals[code].expiresAt)
    ensures View(Step(o, m, e), code) == View(m, code)
    ensures Recent(Step(o, m, e).keys, code, if e.Issue? then n + 1 else n)
  {
    hide AfterPrune, OM.Restrict;
    match e
    case Issue(other, now, _) =>
      PruneSparesRecent(o, m, now, code, n);
      MoreRecent(AfterPrune(o, m, now).keys, code, n, other);
    case Consume(other, _, _) => KeptIf(m, code, other, n);
    case Prune(now) => PruneSparesRecent(o, m, now, code, n);
    case _ =>
  }

  lemma MoreRecent(keys: seq<string>, code: string, n: nat, other: string)
    requires Recent(keys, code, n)
    ensures Recent(keys, code, n + 1) && Recent(keys + [other], code, n + 1)
  {
    var k :| 0 <= k < |keys| && keys[k] == code && |keys| - 1 - k <= n;
    assert (keys + [other])[k] == code;
  }

  lemma KeptIf(m: Codes, code: string, other: string, n: nat)
    requires Recent(m.keys, code, n) && code in m.vals && other != code
    ensures Recent(OM.Delete(m, other).keys, code, n) && View(OM.Delete(m, other), code) == View(m, code)
  {
    KeptRecent(m.keys, m.vals.Keys - {other}, code, n);
  }

  /** How many codes are minted by the calls from i up to j. */
  function Mints(events: seq<Event>, i: nat, j: nat): nat
    requires i <= j <= |events|
    decreases j
  {
    if i == j then 0 else Mints(events, i, j - 1) + if events[j - 1].Issue? then 1 else 0
  }

  lemma {:induction false} EntryLasts(o: Options, events: seq<Event>, i: nat, j: nat, code: string, e: Entry, n: nat)
    requires i <= j <= |events| && n + Mints(events, i, j) < o.maxPending
    requires View(Run(o, events[..i]), code) == Some(e) && Recent(Run(o, events[..i]).keys, code, n)
    requires forall k :: i <= k < j ==> LeavesAlone(events[k], code, e.expiresAt)
    ensures View(Run(o, events[..j]), code) == Some(e)
    ensures Recent(Run(o, events[..j]).keys, code, n + Mints(events, i, j))
    decreases j
  {
    hide Step, Recent, LeavesAlone;
    if i < j {
      EntryLasts(o, events, i, j - 1, code, e, n);
      RunNext(o, events, j - 1);
      EntryStays(o, Run(o, events[..j - 1]), events[j - 1], code, n + Mints(events, i, j - 1));
    }
  }

  lemma RunNext(o: Options, events: seq<Event>, k: nat)
    requires k < |events|
    ensures Run(o, events[..k + 1]) == Step(o, Run(o, events[..k]), events[k])
  {
    assert events[..k + 1][..k] == events[..k];
  }

  /** A code just minted is listed last, fresh. */
  lemma MintedEntry(o: Options, events: seq<Event>, i: nat)
    requires FreshlyMinted(events) && i < |events| && events[i].Issue?
    ensures View(Run(o, events[..i + 1]), events[i].code) ==
      Some(Entry(events[i].expiryClock + o.ttlMs, None, None, None))
    ensures Recent(Run(o, events[..i + 1]).keys, events[i].code, 0)
  {
    hide Run, Recent, Step;
    RunNext(o, events, i);
    NotMintedYet(o, events, i);
    MintStep(o, Run(o, events[..i]), events[i]);
  }

  lemma MintStep(o: Options, m: Codes, e: Event)
    requires e.Issue? && View(m, e.code) == None
    ensures View(Step(o, m, e), e.code) == Some(Entry(e.expiryClock + o.ttlMs, None, None, None))
    ensures Recent(Step(o, m, e).keys, e.code, 0)
  {
    hide TrimTo, OM.Restrict;
    TrimKeeps(OM.Restrict(m, FreshCodes(m, e.time)), o.maxPending, e.code);
    assert Step(o, m, e).keys[|AfterPrune(o, m, e.time).keys|] == e.code;
  }

  lemma NotMintedYet(o: Options, events: seq<Event>, i: nat)
    requires FreshlyMinted(events) && i < |events| && events[i].Issue?
    ensures View(Run(o, events[..i]), events[i].code) == None
  {
    var views := ViewsOf(o, events, events[i].code);
    RunIsLife(o, events, events[i].code);
    if views[i].Some? {
      var k, f, b := EntryExplained(o, events[i].code, events, views, i);
    }
  }

  /** A minted code is good for its first use until it expires: unless it is used, or all codes are dropped, or so many
      are minted after it that it falls beyond the cap. */
  lemma MintedCodeWorks(o: Options, events: seq<Event>, i: nat, j: nat)
    requires FreshlyMinted(events) && i < j < |events| && events[i].Issue? && events[j].Consume?
    requires events[j].code == events[i].code != "" && Mints(events, i + 1, j) < o.maxPending
    requires forall k :: i < k < j ==> LeavesAlone(events[k], events[i].code, events[i].expiryClock + o.ttlMs)
    requires events[j].time < events[i].expiryClock + o.ttlMs
    ensures AnswerAt(o, events, j) == First
  {
    hide Run, Recent, LeavesAlone;
    MintedEntry(o, events, i);
    EntryLasts(o, events, i + 1, j, events[i].code, Entry(events[i].expiryClock + o.ttlMs, None, None, None), 0);
  }

  /** A code the owner never minted, or has dropped since with all the others, lets nobody in. */
  lemma DroppedIsRefused(o: Options, events: seq<Event>, i: nat, j: nat, code: string)
    requires i <= j < |events| && events[j].Consume? && events[j].code == code
    requires i > 0 ==> events[i - 1].Clear?
    requires forall k :: i <= k < j ==> !(events[k].Issue? && events[k].code == code)
    ensures AnswerAt(o, events, j) == Refused
  {
    hide Step;
    NotMinted(o, events, i, j, code);
  }

  lemma {:induction false} NotMinted(o: Options, events: seq<Event>, i: nat, j: nat, code: string)
    requires i <= j <= |events| && (i > 0 ==> events[i - 1].Clear?)
    requires forall k :: i <= k < j ==> !(events[k].Issue? && events[k].code == code)
    ensures View(Run(o, events[..j]), code) == None
    decreases j
  {
    hide Run, Step, View;
    if i < j {
      NotMinted(o, events, i, j - 1, code);
      RunNext(o, events, j - 1);
      StaysUnknown(o, Run(o, events[..j - 1]), events[j - 1], code);
    } else if i > 0 {
      RunNext(o, events, i - 1);
      ClearForgets(o, Run(o, events[..i - 1]), code);
    } else {
      assert events[..j] == [];
      NothingYet(o, code);
    }
  }

  lemma ClearForgets(o: Options, m: Codes, code: string)
    ensures View(Step(o, m, Event.Clear), code) == None
  {
  }

  lemma NothingYet(o: Options, code: string)
    ensures View(Run(o, []), code) == None
  {
  }

  lemma StaysUnknown(o: Options, m: Codes, e: Event, code: string)
    requires View(m, code) == None && !(e.Issue? && e.code == code)
    ensures View(Step(o, m, e), code) == None
  {
    TrimmedFrom(OM.Restrict(m, FreshCodes(m, if e.Issue? || e.Prune? then e.time else 0)), o.maxPending);
  }

  lemma {:induction false} TrimmedFrom(m: Codes, maxPending: nat)
    ensures TrimTo(m, maxPending).vals.Keys <= m.vals.Keys
    ensures |TrimTo(m, maxPending).keys| <= maxPending
    decreases |m.keys|
  {
    if |m.keys| > maxPending {
      OM.DeleteFirst(m);
      TrimmedFrom(OM.Delete(m, m.keys[0]), maxPending);
    }
  }

  /** After every run at most one code more is remembered than the cap, and after pruning none more; those that have
      run out are gone then. */
  lemma {:induction false} CodesBounded(o: Options, events: seq<Event>)
    ensures |Run(o, events).keys| <= o.maxPending + 1
    ensures events != [] && events[|events| - 1].Prune? ==>
      && |Run(o, events).keys| <= o.maxPending
      && forall code :: code in Run(o, events).vals ==>
        Run(o, events).vals[code].expiresAt > events[|events| - 1].time
  {
    if events != [] {
      var n := |events| - 1;
      CodesBounded(o, events[..n]);
      CodesStep(o, Run(o, events[..n]), events[n]);
      hide Run;
    }
  }

  lemma CodesStep(o: Options, m: Codes, e: Event)
    requires |m.keys| <= o.maxPending + 1
    ensures |Step(o, m, e).keys| <= o.maxPending + 1
    ensures e.Prune? ==>
      && |Step(o, m, e).keys| <= o.maxPending
      && forall code :: code in Step(o, m, e).vals ==> Step(o, m, e).vals[code].expiresAt > e.time
  {
    var alive := OM.Restrict(m, FreshCodes(m, if e.Issue? || e.Prune? then e.time else 0));
    TrimmedFrom(alive, o.maxPending);
    TrimmedEntries(alive, o.maxPending);
  }

  lemma {:induction false} TrimmedEntries(m: Codes, maxPending: nat)
    ensures forall code :: code in TrimTo(m, maxPending).vals ==>
      code in m.vals && TrimTo(m, maxPending).vals[code] == m.vals[code]
    decreases |m.keys|
  {
    if |m.keys| > maxPending {
      OM.DeleteFirst(m);
      TrimmedEntries(OM.Delete(m, m.keys[0]), maxPending);
    }
  }

  /** And for a retry from the same known address within the grace, once the session of the first use is bound. */
  lemma RetryWorks(o: Options, events: seq<Event>, i: nat, f: nat, b: nat, j: nat)
    requires FreshlyMinted(events) && i < f < b < j < |events| && events[i].Issue? && events[i].code != ""
    requires Mints(events, i + 1, j) < o.maxPending
    requires forall k :: i < k < j && k != f && k != b ==>
      LeavesAlone(events[k], events[i].code, events[i].expiryClock + o.ttlMs)
    requires events[f].Consume? && events[f].code == events[i].code
    requires events[b].Bind? && events[b].code == events[i].code
    requires events[j].Consume? && events[j].code == events[i].code
    requires events[f].time < events[i].expiryClock + o.ttlMs && events[j].time < events[i].expiryClock + o.ttlMs
    requires KnownIp(events[f].ip).Some? && events[j].ip == events[f].ip
    requires events[j].time - events[f].time <= o.retryGraceMs
    ensures AnswerAt(o, events, f) == First && AnswerAt(o, events, j) == Retry(Some(events[b].sessionId))
  {
    hide Run, Recent, LeavesAlone, Mints, View, Step;
    var code, end := events[i].code, events[i].expiryClock + o.ttlMs;
    var used := Entry(end, Some(events[f].time), KnownIp(events[f].ip), None);
    var n := UsedEntry(o, events, i, f, j, used);
    MintsSplit(events, f + 1, b, j);
    MintsSplit(events, b, b + 1, j);
    NoMint(events, b);
    EntryLasts(o, events, f + 1, b, code, used, n);
    BindKeepsPlace(o, events, b, code, used, n + Mints(events, f + 1, b));
    EntryLasts(o, events, b + 1, j, code, used.(sessionId := Some(events[b].sessionId)), n + Mints(events, f + 1, b));
  }

  /** The entry right after the first use, and how many codes are listed after it at most. */
  lemma UsedEntry(o: Options, events: seq<Event>, i: nat, f: nat, j: nat, used: Entry) returns (n: nat)
    requires FreshlyMinted(events) && i < f < j <= |events| && events[i].Issue? && events[i].code != ""
    requires Mints(events, i + 1, j) < o.maxPending && events[f].Consume? && events[f].code == events[i].code
    requires used == Entry(events[i].expiryClock + o.ttlMs, Some(events[f].time), KnownIp(events[f].ip), None)
    requires forall k :: i < k < f ==> LeavesAlone(events[k], events[i].code, used.expiresAt)
    requires events[f].time < used.expiresAt
    ensures n + Mints(events, f + 1, j) < o.maxPending && AnswerAt(o, events, f) == First
    ensures View(Run(o, events[..f + 1]), events[i].code) == Some(used)
    ensures Recent(Run(o, events[..f + 1]).keys, events[i].code, n)
  {
    hide Run, Recent, LeavesAlone, Mints, View, Step;
    n := Mints(events, i + 1, f);
    MintsSplit(events, i + 1, f, j);
    MintsSplit(events, f, f + 1, j);
    NoMint(events, f);
    MintedEntry(o, events, i);
    EntryLasts(o, events, i + 1, f, events[i].code, Entry(used.expiresAt, None, None, None), 0);
    UseKeepsPlace(o, events, f, events[i].code, used, n);
  }

  lemma NoMint(events: seq<Event>, k: nat)
    requires k < |events| && !events[k].Issue?
    ensures Mints(events, k, k + 1) == 0
  {
    assert Mints(events, k, k) == 0;
  }

  lemma {:induction false} MintsSplit(events: seq<Event>, i: nat, k: nat, j: nat)
    requires i <= k <= j <= |events|
    ensures Mints(events, i, j) == Mints(events, i, k) + Mints(events, k, j)
    decreases j
  {
    if k < j {
      MintsSplit(events, i, k, j - 1);
    }
  }

  lemma UseKeepsPlace(o: Options, events: seq<Event>, f: nat, code: string, used: Entry, n: nat)
    requires f < |events| && events[f].Consume? && events[f].code == code != ""
    requires used.usedAt == Some(events[f].time) && used.usedIp == KnownIp(events[f].ip) && used.sessionId.None?
    requires View(Run(o, events[..f]), code) == Some(Entry(used.expiresAt, None, None, None))
    requires events[f].time < used.expiresAt && Recent(Run(o, events[..f]).keys, code, n)
    ensures View(Run(o, events[..f + 1]), code) == Some(used) && Recent(Run(o, events[..f + 1]).keys, code, n)
    ensures AnswerAt(o, events, f) == First
  {
    hide Run, Recent;
    RunNext(o, events, f);
  }

  lemma BindKeepsPlace(o: Options, events: seq<Event>, b: nat, code: string, used: Entry, n: nat)
    requires b < |events| && events[b].Bind? && events[b].code == code && used.usedAt.Some?
    requires View(Run(o, events[..b]), code) == Some(used) && Recent(Run(o, events[..b]).keys, code, n)
    ensures View(Run(o, events[..b + 1]), code) == Some(used.(sessionId := Some(events[b].sessionId)))
    ensures Recent(Run(o, events[..b + 1]).keys, code, n)
  {
    hide Run, Recent;
    RunNext(o, events, b);
  }

  // ----- the store itself -----

  class InviteStore {
    const options: Options
    var codes: Codes

    constructor (options: Options)
      ensures this.options == options && codes == OM.Empty()
    {
      this.options := options;
      codes := OM.Empty();
    }

    ghost function Unpruned(m: Codes, keys: seq<string>, i: nat, now: int): set<string>
      requires i <= |keys|
    {
      set c | c in m.vals && !(c in keys[..i] && m.vals[c].expiresAt <= now)
    }

    lemma PruneOne(m: Codes, keys: seq<string>, i: nat, now: int)
      requires keys == m.keys && i < |keys|
      ensures var here := OM.Restrict(m, Unpruned(m, keys, i, now));
        && keys[i] in here.vals && here.vals[keys[i]] == m.vals[keys[i]]
        && OM.Restrict(m, Unpruned(m, keys, i + 1, now))
           == if m.vals[keys[i]].expiresAt <= now then OM.Delete(here, keys[i]) else here
    {
      assert keys[..i + 1] == keys[..i] + [keys[i]];
      assert keys[i] in m.keys && keys[i] !in keys[..i];
      if m.vals[keys[i]].expiresAt <= now {
        assert Unpruned(m, keys, i + 1, now) == Unpruned(m, keys, i, now) - {keys[i]};
        OM.DeleteTwice(m, Unpruned(m, keys, i, now), keys[i]);
      } else {
        assert Unpruned(m, keys, i + 1, now) == Unpruned(m, keys, i, now);
      }
    }

    method Prune(now: int)
      modifies this`codes
      ensures codes == Step(options, old(codes), Event.Prune(now))
      ensures |codes.keys| <= options.maxPending
    {
      var keys := codes.keys;
      ghost var start := codes;
      OM.RestrictAll(start, Unpruned(start, keys, 0, now));
      for i := 0 to |keys|
        invariant codes == OM.Restrict(start, Unpruned(start, keys, i, now))
      {
        PruneOne(start, keys, i, now);
        if codes.vals[keys[i]].expiresAt <= now {
          codes := OM.Delete(codes, keys[i]);
        }
      }
      assert keys[..|keys|] == keys;
      OM.RestrictSame(start, Unpruned(start, keys, |keys|, now), FreshCodes(start, now));
      TrimToCap();
    }

    method TrimToCap()
      modifies this`codes
      ensures codes == TrimTo(old(codes), options.maxPending) && |codes.keys| <= options.maxPending
    {
      while |codes.keys| > options.maxPending
        invariant TrimTo(codes, options.maxPending) == TrimTo(old(codes), options.maxPending)
        decreases |codes.keys|
      {
        OM.DeleteFirst(codes);
        codes := OM.Delete(codes, codes.keys[0]);
      }
    }

    /** `code` is the freshly drawn random text. */
    method Issue(now: int, at: int, code: string)
      modifies this`codes
      ensures codes == Step(options, old(codes), Event.Issue(code, now, at))
    {
      hide AfterPrune, OM.Set;
      Prune(now);
      codes := OM.Set(codes, code, Entry(at + options.ttlMs, None, None, None));
    }

    method Consume(code: string, ip: Option<string>, now: int) returns (r: Consumed)
      modifies this`codes
      ensures codes == Step(options, old(codes), Event.Consume(code, ip, now))
      ensures r == ConsumeAnswer(options, old(codes), code, ip, now)
    {
      hide OM.Restrict, OM.Set, OM.Keep;
      if code == "" {
        return Refused;
      }
      if code !in codes.vals {
        OM.RestrictAll(codes, codes.vals.Keys - {code});
        return Refused;
      }
      var entry := codes.vals[code];
      if entry.expiresAt <= now {
        codes := OM.Delete(codes, code);
        return Refused;
      }
      if entry.usedAt.None? {
        entry := entry.(usedAt := Some(now));
        entry := entry.(usedIp := if ip.None? || ip.value == "" then None else ip);
        codes := OM.Set(codes, code, entry);
        return First;
      }
      if ip.Some? && ip.value != "" && entry.usedIp == ip && now - entry.usedAt.value <= options.retryGraceMs {
        return Retry(entry.sessionId);
      }
      codes := OM.Delete(codes, code);
      return Refused;
    }

    method BindSession(code: string, sessionId: string)
      modifies this`codes
      ensures codes == Step(options, old(codes), Event.Bind(code, sessionId))
    {
      if code !in codes.vals || codes.vals[code].usedAt.None? {
        return;
      }
      codes := OM.Set(codes, code, codes.vals[code].(sessionId := Some(sessionId)));
    }

    method Clear()
      modifies this`codes
      ensures codes == Step(options, old(codes), Event.Clear)
    {
      codes := OM.Empty();
    }
  }
}
