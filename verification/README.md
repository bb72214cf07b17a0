# Reverse-proxy plugin: a Dafny model of its state machines

The plugin publishes a locally running service through an authenticated reverse proxy. This project models the parts
of it that decide who gets in, what is kept and for how long, and proves what those parts promise:

- the **static response cache** (`StaticCache`, `Json`, `QuotedList`, `ProxyHeaders`, `Freshness`, `ProxyCache`,
  `ProxyCacheCases`): a byte- and count-bounded LRU with a lifetime for each entry and one owning device for each entry,
  the request key, the Cache-Control scanners, the headers a stored copy keeps, the freshness calculation, and the
  proxy's store and hit path on top; `FreshnessLaws` says what the freshness is from the headers alone;
- the **device session store** (`Sessions`, `SessionRuns`, `SessionLaws`, `SessionStore`): mutable records reached
  through a Map, approval, absolute and idle expiry, eviction, persistence, and stream callbacks bound to one object
  and one secret;
- **login** (`LoginThrottle`, `ThrottleLaws`, `Invites`, `LoginFlow`, `LoginAccess`): the per-address throttle, the
  one-time invite codes, and the handler that moves between both and the session store while other requests run;
- the **address allowlist** (`Cidr`, `IpText`, `Allowlist`): word-wise masking against integer quotients, the textual
  forms of IPv6, and what a list of written entries lets in;
- the **refresh coordinator** of the client (`Refresh`, `RefreshLaws`): a single-flight, rate-limited machine driven by
  events;
- **content negotiation** (`Negotiation`, `NegotiationLaws`), the **tar walk** (`TarWalk`), the **audit log**
  (`AuditLog`) and the **runtime** whose gated operations bind, persist and roll back (`Runtime`), with its devices as a run of the session
  store (`RuntimeSessions`) and what they bring about over runs and restarts (`RuntimeLaws`).

`OrderedMap` (the JavaScript Map) and `Text` (the string operations) serve the others.

## How it is built

State that the program changes in place is a class whose methods follow the program's own statements. Each method is
proved equal to one step of a specification on values (`ensures cache == Step(...)`). Whole runs are sequences of
steps, with clock readings, random draws, interleavings and failures as inputs, and the theorems are proved about
every run. A method that swapped two steps would no longer meet its step; a step that was wrong would break the run
theorems, which speak of histories and not of step bodies. For each component there are theorems of both kinds: what
never happens, and what each operation must bring about (the modules named `...Laws`, and `LoginAccess`, `Allowlist`).

Conventions: clocks are integers in milliseconds and are inputs; drawn ids, secrets and codes are inputs, with
freshness stated where a theorem needs it; the secret hash is injective (`Digest`); text is a sequence of characters,
and bytes of headers and files are characters below 256.

## Where the code differs from what one might expect

- The throttle's lock is not honoured for its whole length. `reserve` starts a new bucket as soon as the window of the
  old one is over, even while `lockedUntil` lies ahead (`LockHonouredIffWindowOpen`, with the example
  `LockOutlivedByWindow`). What holds over every run is the bound per interval (`AdmissionsBounded`).
- The login handler's catch works the client address out anew. When it has changed, the failure is charged there and the
  attempt reserved stays in flight (`StrayAbort`). The accounts of all addresses stay even through a run exactly when
  every abort comes from the address it reserved from (`EvenIffAbortsAtHome`); summed over all addresses they always
  are (`EveryAdmissionDischarged`).
- Who waits exactly the seconds a refusal announces may be refused again, and locked for another lockout: when the lock
  was set in the millisecond its bucket began and whole seconds of it are left, coming back falls on the last
  millisecond of the window (`WaitTooShort`). Otherwise, and a millisecond later, the wait is enough (`WaitEnoughIff`).
- A first use of an invite that creates no device, for lack of room or a failing random source, spends the invite
  (`UncreatedSpendsInvite`).
- An upstream Date that Connection nominates is not kept, and the one made up for the copy is cut to its second. A hit
  may then be sent with an Age a second above max-age although the upstream sent a Date (`DroppedDateOverstates`, a
  style sheet admission accepts); the exact condition for a stored copy is `MaxAgeKeptIff`.
- A cached response is served within its freshness exactly when the time between the two clock reads at the store is
  nothing; otherwise that drift comes on top (`FreshIffOneClock`, with the hit `LateHit` on another such style sheet).
- A device that signs out while the write of an owner's action, or the teardown of a rotation, is awaited comes back
  when the write fails, because the devices noted before are put back (`SignOutUndone`, `RotationCookiesIff`). A
  sign-out during an owner's action is final exactly when the action is written (`SignOutFinalIff`); one between
  operations always is (`SignOutIsFinal`).
- A runtime made by `createRuntime` may have its first load made beside the gate, by a status request. That load's write
  can then land after an operation behind the gate has written something newer (`StaleLanding`). Memory and disk agree
  through a run exactly when no such stale write lands (`MemoryAgreesIff`). The entry point `apply` calls `restore`
  first, which loads behind the gate; then they agree unless persistence is marked blocked (`MemoryAgreesWithDisk`).
- `slice(-limit)` with a limit of zero returns every event instead of none (`TailIsNewest`, `FittingFile`). The only
  caller keeps the limit between 1 and 200.
- Without approval a store with `maxSessions` zero still keeps the newest login, so the cap is the larger of one and
  `maxSessions` (`CapacityAlwaysHolds`).
- A change of the listen address that is written but cannot take the old listener down throws and keeps the new address
  in memory and on disk while the proxy listens on the old one. It is the only step that can make the two part ways
  (`PartsIff`, `ListensAsTold`).
- An allowlist none of whose entries can be read lets everyone in (`Allows`). The configuration check refuses entries
  that cannot be read (`src/config-validation.ts:72-75`).
- Approving does not look at expiry, so a pending device that has run out of its idle time comes back to life
  (`ApprovedIsLetIn`), and death by idling is final for credentials whose record was active
  (`IdleCredentialDies`); the absolute lifetime holds for all (`LifetimeIsAbsolute`).

## Model

| member | source | states |
|---|---|---|
| `Json.KeyRoundTrip` | src/static-cache.ts:269 | a request key can be read back into the session id, the URL and the list of encodings it was made of (string quoting of section 7 of RFC 8259) |
| `Json.KeyInjective` | src/static-cache.ts:269 | two requests with the same key have the same session id, URL and encodings |
| `StaticCache.FitIsLongestSuffix` | src/static-cache.ts:114-118 | evicting from the front keeps the longest suffix of the order that leaves room under both caps: no longer one would |
| `StaticCache.PutKeepsLongestSuffix` | src/static-cache.ts:97-121 | an admitted put leaves that suffix of the unexpired order less the replaced key, with the new entry last |
| `StaticCache.PutAnswers` | src/static-cache.ts:97-121 | later reads after a rejected put answer as before, after one with zero lifetime all but that key, and after an admitted one the new response until its lifetime is over and the kept keys as before |
| `StaticCache.ReadChangesNoAnswer` | src/static-cache.ts:89-96 | a read changes no later answer, so it renews no lifetime |
| `StaticCache.StepKeepsCaps` | src/static-cache.ts:88-136 | every call keeps the number of entries and the sum of their sizes under the caps |
| `StaticCache.CapsAlwaysHold` | src/static-cache.ts:66-137 | both caps hold after every history of calls at any times |
| `StaticCache.EntryProvenance` | src/static-cache.ts:97-127 | an entry held after a history was stored by one put, and no later call expired, replaced, invalidated or disowned it |
| `StaticCache.ServedIsStored` | src/static-cache.ts:89-121 | whatever a read answers is the response of one earlier put under that key that is still in force, and its lifetime, counted from that put and renewed by no read, has not run out |
| `StaticCache.OrderIsRecency` | src/static-cache.ts:89-121 | after every history the entries stand in the order of their last successful read or store |
| `StaticCache.StoredExactlyWhen` | src/static-cache.ts:97-121 | put stores exactly the responses of status 200 with a possible receipt time and a positive lifetime that fit, until the shorter of the cap's lifetime and their own is over |
| `StaticCache.SizeCovers` | src/static-cache.ts:109-112 | the size charged covers body, serialized headers, key and owner |
| `StaticCache.BodiesWithinCap` | src/static-cache.ts:97-121 | after every history the bodies held come to no more than the byte cap |
| `StaticCache.StaticResponseCache.Remove` | src/static-cache.ts:75-80 | takes the entry out and its size off the counter, which stays the sum of the sizes held |
| `StaticCache.StaticResponseCache.Expire` | src/static-cache.ts:82-86 | the loop removes exactly the entries whose time is over |
| `StaticCache.StaticResponseCache.Get` | src/static-cache.ts:89-96 | answers the stored response of a live entry and moves it to the end; the new state is the step's |
| `StaticCache.StaticResponseCache.MakeRoom` | src/static-cache.ts:114-118 | the loop ends at the longest suffix that leaves room |
| `StaticCache.StaticResponseCache.Put` | src/static-cache.ts:97-121 | sweep, the rejections in their order, deletion at zero lifetime, eviction and insertion come to the step's state |
| `StaticCache.StaticResponseCache.DeleteSession` | src/static-cache.ts:122-127 | removes the device's entries and no others, keeping the order |
| `StaticCache.StaticResponseCache.Clear` | src/static-cache.ts:128-131 | empties entries and counter |
| `StaticCache.StaticResponseCache.Stats` | src/static-cache.ts:132-135 | reports the number and the summed sizes of the live entries |
| `QuotedList.CutLossless` | src/static-cache.ts:150-167 | joining the parts with commas gives the text back |
| `QuotedList.CutAtTopLevel` | src/static-cache.ts:156-165 | no cut falls inside a quoted string, and no part has a comma outside one |
| `QuotedList.CutIsCut` | src/static-cache.ts:150-167 | so the parts are a partition at top-level commas |
| `QuotedList.CutUnique` | src/static-cache.ts:150-167 | the cut is the only partition with those two properties (section 5.6.4 of RFC 9110) |
| `QuotedList.Directives` | src/static-cache.ts:150-175 | the scanning loop yields the directives of that cut, and nothing on an open quote or escape |
| `QuotedList.DirectivesRoundTrip` | src/static-cache.ts:150-175 | a header written as well-formed directives, with commas inside quotes or not, is read as exactly those |
| `QuotedList.HasNoTransform` | src/proxy-compress.ts:122-140 | the second scanner answers whether some part of its cut is named no-transform |
| `QuotedList.ScannersAgree` | src/proxy-compress.ts:122-140 | on every text with closed quotes and no dangling escape both scanners agree on no-transform |
| `ProxyHeaders.SanitizeHeaders` | src/proxy-headers.ts:127-138 | the loop keeps exactly the headers that are relayed, in order |
| `ProxyHeaders.SanitizedField` | src/proxy-headers.ts:26-138 | a header reads after sanitizing as it came, or not at all when it is hop-by-hop, Set-Cookie or nominated by Connection |
| `ProxyHeaders.StoredAgeAndDate` | src/proxy.ts:527-572 | whatever else the proxy rewrites, the stored copy has the upstream Age and Date unless nominated, and a made-up Date when it has none |
| `Freshness.LawfulDatesExist` | src/static-cache.ts:193-197 | the laws taken of date parsing and rendering can be met |
| `Freshness.DeclaredLifetime` | src/static-cache.ts:230 | a declared max-age is the lifetime whenever one is computed |
| `Freshness.AnnouncedAge` | src/proxy.ts:490-493 | the age announced from the stored copy's own Age and Date is at most the one the freshness was reduced by, plus less than a second when the upstream Date did not reach the copy |
| `Freshness.AgeWithinMaxAge` | src/proxy.ts:489-503 | while a copy is within its freshness the Age computed from it is at most max-age, or one second more when the upstream Date did not reach it (sections 4.2 and 4.2.3 of RFC 9111) |
| `FreshnessLaws.FreshnessIs` | src/static-cache.ts:208-233 | a response whose headers are readable and allow caching is fresh for the lifetime they state less its age at receipt, five minutes at most; stated from the headers alone |
| `FreshnessLaws.FreshIsReadable` | src/static-cache.ts:208-233 | and no other response is fresh at all |
| `FreshnessLaws.FreshByExpires` | src/static-cache.ts:226-232 | with one readable Expires and no max-age the lifetime is Expires less Date |
| `FreshnessLaws.FreshByDefault` | src/static-cache.ts:230-232 | with neither it is five minutes |
| `FreshnessLaws.FreshByMaxAge` | src/static-cache.ts:208-233 | with agreeing max-ages it is max-age, whatever a readable Expires says (section 5.3 of RFC 9111) |
| `FreshnessLaws.AgeNotUnderstated` | src/proxy.ts:489-493 | the Age sent is never less than the time the copy has been held, nor than the declared age plus that time, nor than the time since the upstream Date, the last two as far as they reached the copy |
| `FreshnessLaws.DigitsReadBack` | src/static-cache.ts:186-190 | every decimal numeral of seconds is read as its number |
| `ProxyCache.HitIsOwnAndFresh` | src/proxy.ts:477-506 | in every history a hit was stored for the same session, URL and encodings, no later than its freshness at header receipt plus the drift of the store's two clock reads; what that freshness is, the headers say (`FreshnessLaws.FreshnessIs`) |
| `FreshnessLaws.HitIsFresh` | src/proxy.ts:477-574 | in every history a hit comes from a response whose headers were readable and allowed caching, and is younger than the lifetime they state less its age at receipt, but for the drift of the store's two clock reads; the clock not having gone back between receipt and store |
| `FreshnessLaws.UnreadableIsNotServed` | src/proxy.ts:573-574 | a response that forbids caching or cannot be read is never served |
| `ProxyCache.HitKeepsMaxAge` | src/proxy.ts:489-574 | the Age computed from the served copy is at most the upstream max-age, one second more when the upstream Date did not reach the copy, plus the seconds the clock advanced between the two reads of the store and between lookup and Age |
| `ProxyCache.MaxAgeKeptIff` | src/proxy.ts:489-574 | every hit on a stored copy keeps to max-age if and only if the age its headers announce at receipt and its time until the last moment in the cache are together no more |
| `ProxyCacheCases.DroppedDateOverstates` | src/proxy.ts:572 | the input, a response that admission accepts, for which the Age is 61 against a max-age of 60 although the upstream sent a Date: one a millisecond ahead, nominated by Connection |
| `ProxyCache.FreshIffOneClock` | src/proxy.ts:573-574 | a stored copy is served only within its freshness if and only if both clock reads of the store agree |
| `ProxyCacheCases.LateHit` | src/proxy.ts:573-574 | after any history and with any rewriting and body that fit, a response that admission accepts, stored over two clock reads a millisecond apart, is served at the moment its freshness is over |
| `ProxyCache.EveryOwnerInKey` | src/proxy.ts:477-574 | after every history each entry is owned by the session inside its key |
| `ProxyCache.RevokeRemovesExactlyOwn` | src/static-cache.ts:122-127 | deleting a session removes exactly the entries whose key was made for it, in order |
| `Cidr.MaskedEqual` | src/cidr.ts:94-95 | two words agree under a mask of high bits exactly when their quotients by the power of two below it agree |
| `Cidr.CompareWords` | src/cidr.ts:89-99 | the loop over eight words decides equality of the leading bits of the two 128-bit integers |
| `Cidr.Ipv6Matches` | src/cidr.ts:89-99 | a match holds exactly when the two integers have equal quotients by 2^(128 - prefix) (section 2.3 of RFC 4291) |
| `Cidr.ShorterPrefixMatches` | src/cidr.ts:89-99 | a match at a prefix is a match at every shorter one |
| `Cidr.Ipv4MaskMatches` | src/cidr.ts:112-113 | the masked IPv4 comparison is equality of quotients by 2^(32 - prefix), prefixes 0 and 32 included (section 3.1 of RFC 4632) |
| `Cidr.Ipv4ShorterPrefixMatches` | src/cidr.ts:112-113 | the same for shorter IPv4 prefixes |
| `Cidr.MaskTwice` | src/cidr.ts:77-78 | masking a network that is masked already changes nothing |
| `IpText.ExpandRendered` | src/cidr.ts:46-56 | the double colon expands to exactly the missing zero groups, eight groups in all |
| `IpText.ParseReadsEveryForm` | src/cidr.ts:31-60 | every textual form of section 2.2 of RFC 4291 - full, with a double colon for any run of zero groups, with a dotted tail, in either case - is read as exactly its eight words |
| `IpText.ParsedIsAddress` | src/cidr.ts:55-59 | whatever is accepted is eight words of sixteen bits |
| `IpText.ParseCidr` | src/cidr.ts:66-87 | an accepted rule has a prefix within its family's width and, for IPv4, a masked network; which addresses it covers is `Allowlist.EntryMeans` |
| `IpText.CompileCidrList` | src/cidr.ts:123-132 | the rules are those of the readable entries, in the order of the entries and as often, and nothing else |
| `IpText.RuleAllows` | src/cidr.ts:107-117 | a rule lets an address in exactly when both have the same quotient by the block size |
| `IpText.IpAllowed` | src/cidr.ts:102-120 | an empty list allows all, an empty address none, loopback always, and otherwise exactly the addresses some rule covers |
| `Allowlist.EntryMeans` | src/cidr.ts:66-87 | an entry makes a rule exactly when it is an address, or an address with a prefix its family can have, and the rule covers exactly that address or the block of that prefix it lies in |
| `Allowlist.QuadEntry` | src/cidr.ts:66-87 | a dotted entry lists exactly the address of its four octets |
| `Allowlist.QuadBlockEntry` | src/cidr.ts:74-78 | with a prefix exactly the addresses with the same quotient by the block size, none when the prefix is out of range |
| `Allowlist.MappedIsStripped` | src/cidr.ts:16-21 | an IPv4-mapped address is taken for the IPv4 one |
| `Allowlist.ListMeans` | src/cidr.ts:102-132 | a compiled list is empty exactly when no entry can be read, and covers exactly what some entry lists |
| `Allowlist.Allows` | src/index.ts:359 | the closure given to the listener, over the list compiled at line 126: an address is let in exactly when no entry can be read, it is a loopback one, or some entry lists it |
| `Negotiation.WeightIsLeast` | src/proxy-compress.ts:52-65 | the weight kept for a coding is the least of all its declared weights |
| `Negotiation.WeightByElements` | src/proxy-compress.ts:62 | it depends only on which parts occur, not on order or repetition |
| `Negotiation.EncodingPreferences` | src/proxy-compress.ts:52-65 | the loop's map holds exactly those least weights |
| `Negotiation.SelectContentEncoding` | src/proxy-compress.ts:92-99 | the chosen coding is the one selected from the least weights |
| `Negotiation.SelectedIsBest` | src/proxy-compress.ts:94-98 | a chosen coding has a positive weight, at least the other's and at least any explicit identity weight; none is chosen only when neither is acceptable or identity is preferred (section 12.5.3 of RFC 9110) |
| `Negotiation.RefusalStands` | src/proxy-compress.ts:60-62 | a declared weight of zero is never undone by a duplicate or a wildcard |
| `Negotiation.OrderIrrelevant` | src/proxy-compress.ts:52-65 | any reordering or repetition of the parts gives the same choice |
| `Negotiation.RowOrderIrrelevant` | src/proxy-compress.ts:53 | so does any reordering of the header rows |
| `NegotiationLaws.WeightsAreRead` | src/proxy-compress.ts:43-50 | exactly the weights of the grammar are read, each as its value in thousandths (section 12.4.2 of RFC 9110) |
| `NegotiationLaws.PreferenceRead` | src/proxy-compress.ts:43-62 | a coding written with or without a weight declares that weight, or full weight |
| `NegotiationLaws.HeaderWeight` | src/proxy-compress.ts:52-65 | the weight kept for a coding is the least one the header spells out for it |
| `NegotiationLaws.HeaderChooses` | src/proxy-compress.ts:52-99 | for every header as spelled the choice is the heavier of the two codings, Brotli when equal, unless its weight is zero or identity is explicitly heavier; the wildcard speaks for codings not named |
| `LoginThrottle.StepMoves` | src/proxy.ts:194-242 | how one call may change the bucket of an address that is not forgiven: attempts never fall within a bucket, and a new bucket starts only when the window is over |
| `LoginThrottle.LedgerHolds` | src/proxy.ts:203-232 | over a run, bucket starts are a lockout apart and each pays for the attempts charged to it |
| `LoginThrottle.AdmissionsBounded` | src/proxy.ts:203-219 | in every interval of length T at most maxAttempts * (T / lockoutMs + 2) attempts of an unforgiven address are admitted, however reservations overlap |
| `LoginThrottle.LockHonouredIffWindowOpen` | src/proxy.ts:205-210 | a lock refuses attempts exactly while the window of its bucket is open |
| `LoginThrottle.LockOutlivedByWindow` | src/proxy.ts:205-210 | with the least lockout configuration takes, two logins reserved and failed lock the address until 19 s, and a login at 10.001 s is admitted |
| `LoginThrottle.RefusedOnlyAfterAttempts` | src/proxy.ts:203-229 | over every run nobody is refused before maxAttempts attempts of his own since his last success |
| `LoginThrottle.SuccessStartsAfresh` | src/proxy.ts:230-232 | after a success an address is refused again only after maxAttempts new attempts |
| `LoginThrottle.AddressesApart` | src/proxy.ts:193-232 | calls for one address leave the buckets of the others as they are |
| `ThrottleLaws.AdmittedIsCharged` | src/proxy.ts:203-219 | an admitted attempt is told to go on and is in flight from then on, in a new bucket when the window is over |
| `ThrottleLaws.RefusedIsLocked` | src/proxy.ts:208-215 | a refused one is told the seconds left of the lock, rounded up; a new lock is as long as the lockout |
| `ThrottleLaws.FailureIsCharged` | src/proxy.ts:220-229 | a failure in the window takes its attempt out of flight and locks for the lockout when it is the last allowed; outside it begins a bucket |
| `ThrottleLaws.UsedUpIsOut` | src/proxy.ts:203-229 | after maxAttempts failures in a window the address is out for the rest of it |
| `ThrottleLaws.WaitEnoughIff` | src/proxy.ts:203-219 | over every run, who comes back after the wait announced is admitted if and only if that moment is not the very millisecond the window ends on; any later he is |
| `ThrottleLaws.WaitTooShort` | src/proxy.ts:205-214 | that millisecond: told to wait ten seconds, back after ten, locked for ten more |
| `ThrottleLaws.CheckTells` | src/proxy.ts:194-201 | check tells the seconds left of a lock and forgets the address once it is over |
| `ThrottleLaws.PruneSpares` | src/proxy.ts:233-242 | pruning takes out nobody below the cap, and beyond it only what has run out and one more, whose first failure is the longest ago |
| `ThrottleLaws.PruneCaps` | src/proxy.ts:233-242 | one address too many is brought back under the cap |
| `LoginThrottle.LoginTracker.SweepExpired` | src/proxy.ts:186-191 | removes exactly the buckets whose lock has run out or whose window is over |
| `LoginThrottle.LoginTracker.Check` | src/proxy.ts:194-201 | the seconds left of a lock, and a run-out bucket dropped |
| `LoginThrottle.LoginTracker.Reserve` | src/proxy.ts:203-219 | the bucket charged or locked and the seconds to wait are the step's |
| `LoginThrottle.LoginTracker.Fail` | src/proxy.ts:220-229 | one attempt turned from in flight to failed, or a new bucket when the window is over |
| `LoginThrottle.LoginTracker.Success` | src/proxy.ts:230-232 | forgets the address |
| `LoginThrottle.LoginTracker.Prune` | src/proxy.ts:233-242 | beyond the cap the stale buckets go, then the one with the least first failure |
| `Invites.EntryExplained` | src/invites.ts:52-98 | the entry a code has in a run can be read off the calls: who minted it, who used it first, who bound it |
| `Invites.AtMostOneFirstUse` | src/invites.ts:75-79 | over any run a code yields at most one first use |
| `Invites.RefusedIsDead` | src/invites.ts:66-91 | after one refused attempt on a minted code every later attempt is refused |
| `Invites.RetryIsSameClient` | src/invites.ts:82-88 | a retry is accepted only before expiry, from the same known address as the first use, within the grace, and offers only a session bound since |
| `Invites.FirstIsInTime` | src/invites.ts:69-79 | a first use comes after the code was minted and before it expires |
| `Invites.MintedCodeWorks` | src/invites.ts:52-91 | a minted code is accepted as a first use before it expires, unless it was used or dropped, or so many more were minted that it fell beyond the cap |
| `Invites.RetryWorks` | src/invites.ts:82-98 | so is a retry from the same known address within the grace, for the session bound to the first use |
| `Invites.DroppedIsRefused` | src/invites.ts:66-102 | a code never minted, or dropped with all the others and not minted again, is refused |
| `Invites.CodesBounded` | src/invites.ts:36-57 | after every run at most one code more than the cap is remembered, and after pruning none more and none expired |
| `Invites.InviteStore.Prune` | src/invites.ts:36-45 | drops the expired codes, then the oldest beyond the cap |
| `Invites.InviteStore.Issue` | src/invites.ts:52-57 | prunes and adds the code with its expiry |
| `Invites.InviteStore.Consume` | src/invites.ts:66-91 | the verdict and the new entries are the step's |
| `Invites.InviteStore.BindSession` | src/invites.ts:94-98 | binds a used code only |
| `LoginFlow.DischargedOnce` | src/proxy.ts:687-760 | of the throttle calls one request makes, exactly one is a fail or a success once it has been admitted and no longer waits, and none if it was not admitted |
| `LoginFlow.ReservationsBalance` | src/proxy.ts:687-760 | over every run and for every address, the reservations admitted in the throttle's history are its fails, its successes and the waiting requests, corrected by the aborts whose address had changed |
| `LoginFlow.EveryAdmissionDischarged` | src/proxy.ts:687-760 | over all addresses together no correction is needed: every admission is failed, succeeded or still waiting |
| `LoginFlow.EvenIffAbortsAtHome` | src/proxy.ts:759-760 | each address's account stays even through a run if and only if every abort comes from the address it reserved from |
| `LoginFlow.StrayAbort` | src/proxy.ts:760 | a run in which nothing waits any more, the attempt reserved is still in flight, and another address has the failure |
| `LoginFlow.ChargedWhereReserved` | src/proxy.ts:680-709 | a waiting request is charged to the address it reserved from |
| `LoginFlow.AbortDischargesIff` | src/proxy.ts:220-229 | a reservation held in an open window is turned into a failure by the fail of the catch if and only if the address is the same |
| `LoginFlow.LoginsBounded` | src/proxy.ts:687-720 | logins admitted from an address over any run of the handler keep within the throttle's bound |
| `LoginFlow.FirstUseOnce` | src/proxy.ts:700-741 | of all logins by an invite, whatever becomes of them, at most one is its first use |
| `LoginFlow.InviteCreatesOnce` | src/proxy.ts:731-740 | at most one device record is ever created through an invite |
| `LoginFlow.InviteReissuesOwn` | src/proxy.ts:722-725 | a later acceptance only rotates the device that first use created, for the same known address within the grace |
| `LoginFlow.UncreatedSpendsInvite` | src/proxy.ts:731-740 | a first use that creates no device leaves an invite by which no other login gets a session |
| `LoginFlow.OnlyCreatedAdds` | src/proxy.ts:719-741 | only a created outcome adds a device record, under the id it reports |
| `LoginAccess.OthersAreTurnedAway` | src/proxy.ts:700-715 | in every run a login without the right token or a minted, unexpired invite leaves the devices as they were, and makes a failure for the address that reserved the attempt and no success |
| `LoginAccess.FailureIsCharged` | src/proxy.ts:705-711 | that failure turns the reserved attempt in flight into a failed one |
| `LoginAccess.AcceptedIsMinted` | src/proxy.ts:700-705 | an invite is accepted only if the owner minted it earlier in the run and it has not run out |
| `LoginAccess.TokenLetsIn` | src/proxy.ts:705-741 | a right token, with room and a working random source, gets its device's record in, clears the address's account, and the cookie handed out is good at once without approval, and in approval mode not yet |
| `LoginAccess.FirstUseLetsIn` | src/proxy.ts:719-741 | so does the first use of an invite, which is then bound to that device |
| `LoginAccess.InviteLetsIn` | src/proxy.ts:700-741 | over runs: a minted invite lets its first user in at any moment before it expires, unless the owner drops the codes or mints so many more that it falls beyond the cap |
| `LoginAccess.RetryLetsIn` | src/proxy.ts:722-725 | a retry within the grace gets a cookie that is good when the device is active and in time, and the secret lost on the way is good for nothing |
| `LoginAccess.RetryWithoutDevice` | src/proxy.ts:722-730 | a retry whose device is gone, rejected or run out gets nothing and changes no record |
| `LoginAccess.NoRoomNoRecord` | src/proxy.ts:726-741 | without room or random text no record is made or changed |
| `LoginAccess.OtherStepsSpareDevices` | src/proxy.ts:680-760 | arrivals, aborts and the owner's invites leave the devices alone |
| `LoginFlow.LoginHandler.Begin` | src/proxy.ts:680-694 | reserves, and lets the request go on exactly when it is admitted |
| `LoginFlow.LoginHandler.Resume` | src/proxy.ts:695-762 | with the flag and the catch, a failed body discharges through the catch, and an error of the random source or while answering discharges nothing more |
| `LoginFlow.LoginHandler.Process` | src/proxy.ts:700-741 | consume, token check, fail and prune or success, reissue or login and bind come to the step, with its outcome; whom that lets in is the subject of `LoginAccess` |
| `Sessions.CookieRoundTrip` | src/sessions.ts:68-87 | an encoded credential decodes to its parts exactly when neither is empty, given an id without a dot |
| `SessionRuns.StepValid` | src/sessions.ts:198-419 | after every call each id in the Map leads to a record bearing it |
| `SessionRuns.TraceExtends` | src/sessions.ts:198-419 | every call continues every run, so the runs the other rows speak of are not cut short |
| `SessionRuns.StepEvolves` | src/sessions.ts:198-419 | a record's id and birth never change, its status only leaves pending, and a record once out of the Map never returns |
| `SessionRuns.TrackIsMade` | src/sessions.ts:283-290 | a fresh callback answers as isActive does |
| `SessionRuns.UnboundForever` | src/sessions.ts:288-289 | a callback that has lost its record or secret generation stays so over every continuation with fresh secrets |
| `SessionRuns.FalseOnceFalseForever` | src/sessions.ts:288-304 | a callback that has answered false never answers true again |
| `SessionRuns.CutOffForever` | src/sessions.ts:239-402 | reissue, revoke, clear, hydrate and eviction of its record make a callback false from then on |
| `SessionRuns.LifetimeIsAbsolute` | src/sessions.ts:148-418 | no credential authenticates later than its creation plus maxAge, through activity, approval, reissue and reload of the store's own data |
| `SessionRuns.StreamWithinLifetime` | src/sessions.ts:288-304 | neither does a stream callback |
| `SessionRuns.IdleCredentialDies` | src/sessions.ts:148-418 | a credential whose active record has been silent for longer than the window never authenticates again, reissue, saving and reloading included |
| `SessionRuns.IdleIsFinal` | src/sessions.ts:148-187 | the same of one record object and the stream callbacks bound to it |
| `SessionRuns.ActiveWasApproved` | src/sessions.ts:200-352 | in approval mode an active id was approved and not revoked or cleared since |
| `SessionRuns.ValidatesOnlyApproved` | src/sessions.ts:253-270 | in approval mode a cookie validates only after an approval of its id with no later revocation or clear |
| `SessionRuns.RejectedStays` | src/sessions.ts:329-352 | rejected is never left |
| `SessionRuns.LoginSparesActive` | src/sessions.ts:200-231 | in approval mode a login never removes an unexpired active record |
| `SessionRuns.CapacityAlwaysHolds` | src/sessions.ts:200-402 | live records never exceed the cap, in either mode |
| `SessionRuns.HydrateRestoresIff` | src/sessions.ts:378-418 | in any state, reloading what was serialized restores exactly the live unexpired records in order if and only if there are at most maxSessions of them |
| `SessionRuns.HydrateRestores` | src/sessions.ts:378-418 | which is so in every state within the cap |
| `SessionLaws.ActiveIff` | src/sessions.ts:273-276 | the cookie of a device is good exactly when the device is active and both windows are open |
| `SessionLaws.ApprovedIsLetIn` | src/sessions.ts:345-352 | an approved pending device's cookie is good from then on for as long as both windows are open, whether or not it had run out by then; every other record and the Map are as before |
| `SessionLaws.ApprovesPendingOnly` | src/sessions.ts:345-352 | approving anything but a pending device does nothing |
| `SessionLaws.RevokedIsShutOut` | src/sessions.ts:329-343 | no cookie of a revoked device is good; a pending one stays as rejected, any other is gone, and nobody else is touched |
| `SessionLaws.RenamedBearsLabel` | src/sessions.ts:358-367 | renaming gives one device the trimmed label, or nothing happens when it is blank or too long |
| `SessionLaws.ClearedIsEmpty` | src/sessions.ts:370-375 | after a clear no cookie is good |
| `SessionLaws.LoginLetsIn` | src/sessions.ts:200-231 | a login with room makes its record, and without approval its cookie is good for as long as both windows are open, in approval mode not yet |
| `SessionLaws.LoginWithoutRoom` | src/sessions.ts:203-209 | without room no record is made and only what has run out is gone |
| `SessionLaws.ReissuedIsLetIn` | src/sessions.ts:239-250 | a reissue makes the new cookie good if the device is active and the old one good for nothing, keeps the record object, and touches nothing else but what has run out |
| `SessionLaws.ReissuesLiveOnly` | src/sessions.ts:241-243 | a rejected, run out or unknown device is not reissued |
| `SessionLaws.RequestRenews` | src/sessions.ts:253-270 | a request with a good cookie renews the idle window and records the known address; no other record changes |
| `SessionLaws.OtherRequests` | src/sessions.ts:253-261 | any other request changes no record, and drops exactly the device it names that has run out |
| `SessionLaws.StreamRenews` | src/sessions.ts:288-303 | a callback that answers true renews the idle window of its device alone |
| `SessionLaws.StreamReports` | src/sessions.ts:297-302 | it reports a change whenever it has not for a second, and then not again before |
| `SessionLaws.StreamEnds` | src/sessions.ts:288-296 | one that answers false changes nothing but for its device that has run out, which goes |
| `SessionLaws.LookupSweepsOne` | src/sessions.ts:308-319 | the wait page's look at a device takes it out when it has run out, and changes nothing else |
| `SessionLaws.ReloadTakes` | src/sessions.ts:378-402 | a reload forgets what was there and holds exactly the sound entries among the first maxSessions, the last of an id counting, with malformed addresses left out |
| `SessionLaws.ChangesAreReported` | src/sessions.ts:200-375 | every call but reload and stream callbacks that changes a record, or takes out one that has not run out, reports a change to be saved |
| `SessionLaws.ApprovedStaysIn` | src/sessions.ts:200-402 | over runs: from its approval on a device's cookie and callbacks are good at every moment within both windows, until a revoke, clear, hydrate, reissue or eviction |
| `SessionLaws.LoggedInStaysIn` | src/sessions.ts:200-402 | without approval the same holds from the login on |
| `SessionLaws.CutOffIff` | src/sessions.ts:239-402 | a call unbinds a callback if and only if it is one of the listed ones |
| `SessionStore.SessionStore.Sweep` | src/sessions.ts:156-160 | the loop drops exactly the expired records |
| `SessionStore.SessionStore.EvictOldest` | src/sessions.ts:163-170 | drops the first record with the least lastSeenAt other than the protected one |
| `SessionStore.SessionStore.Login` | src/sessions.ts:200-231 | capacity refusal, the new record object and eviction down to the cap come to the step |
| `SessionStore.SessionStore.Reissue` | src/sessions.ts:239-250 | the same object gets a new secret, or nothing when it is gone, expired or rejected |
| `SessionStore.SessionStore.Validate` | src/sessions.ts:253-270 | drops an expired record, admits an active one and advances its activity and address |
| `SessionStore.SessionStore.IsActive` | src/sessions.ts:273-276 | reads without changing anything |
| `SessionStore.SessionStore.TrackActivity` | src/sessions.ts:283-287 | the callback holds the record object and its secret generation |
| `SessionStore.ActivityTracker.Call` | src/sessions.ts:288-304 | the identity test on heap objects is the model's test on references; the answer and all updates are the step's |
| `SessionStore.SessionStore.Revoke` | src/sessions.ts:329-343 | pending becomes rejected, anything else is removed |
| `SessionStore.SessionStore.Approve` | src/sessions.ts:345-352 | a pending device becomes active and is seen now, anything else stays; the answer says which (what that lets in: `SessionLaws.ApprovedIsLetIn`) |
| `SessionStore.SessionStore.Rename` | src/sessions.ts:358-367 | a label of 1 to 64 characters after trimming replaces the old one, anything else is refused |
| `SessionStore.SessionStore.Pending` | src/sessions.ts:308-319 | returns the record exactly when the credential fits, names the id and has not expired, and drops an expired one |
| `SessionStore.SessionStore.Clear` | src/sessions.ts:370-375 | empties the Map, and reports a change only if there was one |
| `SessionStore.SessionStore.Hydrate` | src/sessions.ts:378-402 | fresh objects for the acceptable entries among the first maxSessions |
| `SessionStore.SessionStore.Serialize` | src/sessions.ts:404-418 | sweeps, and lists the records that are not rejected in Map order |
| `Refresh.InvAlways` | src/client/cockpit-connection.ts:88-178 | the coordinator's invariant holds in every state of every run |
| `Refresh.OneCallback` | src/client/cockpit-connection.ts:96-124 | at most one refresh callback is in progress, even past its timeout |
| `Refresh.AutomaticStartsSpaced` | src/client/cockpit-connection.ts:126-137 | an automatic start is at least 5000 ms after the start before it, of any kind |
| `Refresh.SnapshotTells` | src/client/cockpit-connection.ts:88-124 | refreshing shows exactly while an attempt that has not timed out is in flight, never with a failure, and no recovery timer is armed beside a flight |
| `Refresh.PromisesResolve` | src/client/cockpit-connection.ts:101-178 | a promise handed out has resolved or has its timeout armed |
| `Refresh.NeverBeginsHidden` | src/client/cockpit-connection.ts:119-121 | no callback begins after dispose, and no automatic one on a hidden page |
| `Refresh.SilentAfterDispose` | src/client/cockpit-connection.ts:168-178 | after dispose no timer is armed, no callback begins, every promise has resolved and the snapshot is constant |
| `Refresh.StartOwnsEdge` | src/client/cockpit-connection.ts:126-154 | every automatic start answers a recovery edge that came after every earlier start |
| `Refresh.StartsWithinEdges` | src/client/cockpit-connection.ts:126-154 | automatic starts, and a wait for one, never outnumber the recovery edges |
| `RefreshLaws.RefreshStarts` | src/client/cockpit-connection.ts:96-124 | asked with nothing in flight it starts an attempt at once, with its timeout armed, and shows it |
| `RefreshLaws.RefreshShares` | src/client/cockpit-connection.ts:99 | with one in flight it is shared |
| `RefreshLaws.VisibleAgain` | src/client/cockpit-connection.ts:126-154 | when the page becomes visible with nothing in flight an attempt starts there and then if the last start is 5000 ms ago, else a timer is armed for exactly what is missing |
| `RefreshLaws.ConnectedAgain` | src/client/cockpit-connection.ts:139-144 | the same when the carrier is connected again on a page that is not hidden |
| `RefreshLaws.TimerStarts` | src/client/cockpit-connection.ts:132-135 | a timer that fires on time on a page that is not hidden starts the attempt |
| `RefreshLaws.EdgeIsAnswered` | src/client/cockpit-connection.ts:126-154 | over every run no recovery edge is dropped: since an edge with nothing in flight there has been a start, or one is waited for, or the page was hidden or dispose came |
| `RefreshLaws.QueuedBegins` | src/client/cockpit-connection.ts:119-121 | a queued attempt calls the callback unless dispose came first or it is automatic and the page hidden |
| `RefreshLaws.SettledShows` | src/client/cockpit-connection.ts:112-118 | an attempt that settles in time frees the flight and shows whether it failed |
| `RefreshLaws.TimedOutShows` | src/client/cockpit-connection.ts:105-110 | one that times out shows a failure and keeps the flight until it settles |
| `Refresh.CockpitConnection.RequestRefresh` | src/client/cockpit-connection.ts:96-124 | clears the timer, shares a flight or starts one, and publishes, as the step says |
| `Refresh.CockpitConnection.RequestRecoveryRefresh` | src/client/cockpit-connection.ts:126-137 | refuses, starts or arms the one trailing timer, as the step says |
| `Refresh.CockpitConnection.ObserveVisibility` | src/client/cockpit-connection.ts:148-154 | the visibility observer is the step |
| `Refresh.CockpitConnection.ObserveConnection` | src/client/cockpit-connection.ts:139-144 | up to the listeners' return the observer is the step, and says whether a recovery is due |
| `Refresh.CockpitConnection.ObserveConnectionReturns` | src/client/cockpit-connection.ts:144 | the recovery request after the listeners have returned is the step |
| `Refresh.CockpitConnection.RecoveryTimerFires` | src/client/cockpit-connection.ts:132-135 | the timer forgets itself and asks again |
| `Refresh.CockpitConnection.BeginAttempt` | src/client/cockpit-connection.ts:119-121 | the microtask calls the callback or skips it, as the step says |
| `Refresh.CockpitConnection.AttemptTimesOut` | src/client/cockpit-connection.ts:105-110 | a timeout ends the busy state and keeps the flight |
| `Refresh.CockpitConnection.SettleAttempt` | src/client/cockpit-connection.ts:112-118 | settling frees the flight and publishes unless the attempt has timed out |
| `Refresh.CockpitConnection.DisposeConnection` | src/client/cockpit-connection.ts:168-178 | dispose is the step |
| `TarWalk.FirstFile` | src/tunnel.ts:62-80 | on arbitrary bytes the loop stays in bounds, ends, and its answer is what the chain of headers from offset zero stops with |
| `TarWalk.OneAnswer` | src/tunnel.ts:62-80 | that chain and that answer are the only ones |
| `TarWalk.SizeReadBack` | src/tunnel.ts:68 | every octal spelling of a size is read as that size |
| `TarWalk.StandardField` | src/tunnel.ts:68 | the zero-filled field tar writers use is one of those spellings (ustar Interchange Format of POSIX.1) |
| `TarWalk.BuiltArchiveRead` | src/tunnel.ts:62-80 | on every archive built of well-formed entries the answer is the first regular entry's bytes, whatever follows |
| `TarWalk.NoRegularEntry` | src/tunnel.ts:79 | with no regular entry before a proper end the answer is that there is none |
| `AuditLog.ParseLines` | src/audit.ts:83-96 | the loop collects the events of the readable lines in order |
| `AuditLog.ReadTail` | src/audit.ts:106-136 | the tail reader returns the sliced events of the whole lines in its window, none for an unreadable file |
| `AuditLog.TailIsSuffix` | src/audit.ts:119-130 | whatever the limit, that is an unbroken run of the newest events the full reader shows |
| `AuditLog.TailIsNewest` | src/audit.ts:130 | it is the newest `limit` events exactly when the window holds that many or all there are, and for a limit of zero exactly when the window holds none |
| `AuditLog.FittingFile` | src/audit.ts:115-130 | for a file that fits the window: exactly when the limit is positive or there is no event |
| `AuditLog.Log.Record` | src/audit.ts:49-63 | one queued write with each file operation succeeding or failing is the step, and warns exactly when something was lost |
| `AuditLog.NewestLinesKept` | src/audit.ts:53-59 | without write errors the previous generation followed by the current one is an unbroken suffix of all lines recorded |
| `AuditLog.NothingInvented` | src/audit.ts:49-63 | under any failures, torn appends included, what is on disk is recorded lines in order, some missing or cut short |
| `AuditLog.GenerationsBounded` | src/audit.ts:52-59 | neither generation outgrows the cap by a line while its size can be read |
| `AuditLog.ReadersShowNewest` | src/audit.ts:106-155 | after any run without write errors both readers show unbroken suffixes of the recorded events |
| `AuditLog.NewestStay` | src/audit.ts:49-63 | over clean runs nothing recorded has been dropped, or the generation before the current one alone holds the cap's worth of bytes; the last line is always there |
| `AuditLog.ReadableLinesCollected` | src/audit.ts:83-96 | readable lines come out one by one, in order |
| `AuditLog.WindowKeeps` | src/audit.ts:115-130 | lines that lie in the window with the break before them are all kept |
| `Runtime.MemoryAgreesIff` | src/index.ts:165-475 | between operations persistence is marked blocked or the file has memory's enabled flag, token and listen override, through a run if and only if no first load beside the gate has a stale write land |
| `Runtime.MemoryAgreesWithDisk` | src/index.ts:197-475 | which is so in every run whose first load is made behind the gate |
| `Runtime.StaleLanding` | src/index.ts:182-191 | on a runtime nothing was loaded behind the gate for, a status request, then a start, then the status request's write: the proxy runs, the file says disabled, and nothing is marked blocked |
| `Runtime.ListenerHasCurrentToken` | src/index.ts:296-433 | a listener never accepts anything but the current token |
| `Runtime.BlockedForever` | src/index.ts:165-218 | once blocked, with no first load's write under way, the file is never touched again |
| `Runtime.SetListenLands` | src/index.ts:435-475 | under all outcomes, a first load's write that fails meanwhile included, a change of address ends on the new one when it takes and on the previous effective one otherwise |
| `Runtime.RefusedBindRollsBack` | src/index.ts:462-474 | when the new bind is refused and the rollback is written undisturbed, the previous effective address is in memory and on disk |
| `Runtime.RotationTakes` | src/index.ts:399-433 | a returned rotation has reached the disk, with the new token in memory and, unless a first load's write goes over it during the restart, on disk |
| `Runtime.RotationIsFinal` | src/index.ts:406-411 | after it no earlier cookie and no earlier invite is accepted for the rest of the run, device traffic included |
| `Runtime.FailedRotationUndone` | src/index.ts:412-424 | a rotation whose write fails restores the token and exactly the live sessions, and leaves the file alone |
| `Runtime.FailedMutationUndone` | src/index.ts:545-560 | an approve, revoke or rename whose write fails is undone in the same way |
| `RuntimeLaws.StopTakes` | src/index.ts:281-289 | a stop that returns has the proxy down and the flag off, in memory and on disk |
| `RuntimeLaws.StartTakes` | src/index.ts:296-392 | a start that returns with the proxy up has it asked to listen on the effective address for the current token, and the flag on in memory and on disk |
| `RuntimeLaws.StartComesUp` | src/index.ts:296-392 | with nothing in the way a start brings the proxy up |
| `RuntimeLaws.FlagIsLastEffect` | src/index.ts:281-392 | through every run, while persistence is not blocked, the flag is on exactly when the last of starts and stops to take effect was a start; on disk too when first loads are made behind the gate |
| `RuntimeLaws.OpenedFromFile` | src/index.ts:165-195 | a new process keeps flag, token and listen override of the file, mints a missing token and then has no device, and leaves a file it cannot read or understand alone, with persistence blocked |
| `RuntimeLaws.RestoredIff` | src/index.ts:580-590 | on a fresh runtime restore brings the proxy up if and only if it is told to and the file says enabled, given nothing in the way of the start and working writes |
| `RuntimeLaws.StoppedStaysDown` | src/index.ts:281-590 | whatever happens at the restart, nothing comes up over the file a stop has left |
| `RuntimeLaws.StartedComesBack` | src/index.ts:296-590 | over the file of a start that took effect it comes up again |
| `RuntimeLaws.RestartKeepsDevices` | src/index.ts:165-218 | what is saved a new process takes up: flag, token, override, and every cookie is good to it exactly when it was before |
| `RuntimeLaws.ActionOutlivesProcess` | src/index.ts:545-566 | an owner's action that returns has reached the disk: a new process finds the devices as it left them |
| `RuntimeLaws.ApprovalOutlivesProcess` | src/index.ts:545-566 | so an approved device is in after a restart for as long as its windows are open |
| `RuntimeLaws.RevocationOutlivesProcess` | src/index.ts:545-566 | and a revoked one is out |
| `RuntimeLaws.RotationOutlivesProcess` | src/index.ts:399-433 | after a rotation that reached the disk a new process has the new token, and no earlier cookie is good to it |
| `RuntimeLaws.RotatedComesBack` | src/index.ts:425-433 | a running proxy comes back after a rotation, for the new token on the effective address |
| `RuntimeLaws.ChangedComesUp` | src/index.ts:435-475 | and after a change of address on the new one, with the override on disk |
| `RuntimeLaws.PartsIff` | src/index.ts:296-475 | a step makes the listener and memory's address part ways if and only if it is a change of address that is written while the old listener does not go down |
| `RuntimeLaws.ListensAsTold` | src/index.ts:296-475 | so through every run without such a change a running proxy was asked to listen where memory says, rollbacks, rotations and restores included |
| `RuntimeLaws.DisposalTakes` | src/index.ts:592-605 | a disposal that returns has the proxy down, keeps the flag, and leaves the file a save would have |
| `RuntimeLaws.DisposedStaysDown` | src/index.ts:300-605 | once disposed and down the runtime never listens again |
| `Runtime.RuntimeService.Load` | src/index.ts:165-195 | the first load is the step: blocked on a bad file, token minted when missing, devices kept only with their token |
| `Runtime.RuntimeService.LoadBesideGate` | src/index.ts:165-195 | the same up to the write, which others do not wait for |
| `Runtime.RuntimeService.LandWrite` | src/index.ts:203-217 | that write replaces the file with what the load had found, or blocks persistence |
| `Runtime.RuntimeService.Save` | src/index.ts:197-218 | the write, or the block after a failed one |
| `Runtime.RuntimeService.Start` | src/index.ts:296-392 | the refusals in order, the bind, and its undoing when the state cannot be written |
| `Runtime.RuntimeService.Stop` | src/index.ts:281-289 | teardown, flag off and required write come to the step (what a stop that returns leaves: `RuntimeLaws.StopTakes`) |
| `Runtime.RuntimeService.RotateToken` | src/index.ts:399-433 | the rotation with traffic getting in while it waits is the step |
| `Runtime.RuntimeService.MutateSession` | src/index.ts:545-566 | the owner's action, its required write and its undoing are the step |
| `Runtime.RuntimeService.DisposeRuntime` | src/index.ts:592-605 | teardown and a last write |
| `Runtime.RuntimeService.ChangeListen` | src/index.ts:435-475 | the change with its two ways back is the step |
| `SessionRuns.RestoredCookies` | src/sessions.ts:378-418 | a store that holds the live unexpired records of another accepts exactly the same cookies from then on |
| `RuntimeSessions.DevicesAreRun` | src/index.ts:165-605 | in every run of the runtime the devices are what a run of the session store leaves, from none: each operation is a series of the store's own calls |
| `RuntimeSessions.DevicesWithinCapacity` | src/index.ts:165-605 | so the cap on devices holds at every moment of every run |
| `RuntimeSessions.FailedWriteUndone` | src/index.ts:399-560 | in every run a rotation or an owner's action whose write fails throws and leaves memory, file and live devices as it found them; the cap is derived, not assumed |
| `RuntimeSessions.FailedWriteRestoresCookies` | src/index.ts:399-560 | after it every cookie is good exactly if it was good before, whatever devices did meanwhile |
| `RuntimeSessions.RotationCookiesIff` | src/index.ts:399-433 | after a rotation that took the listener down a cookie is good if and only if it was before and the new token did not reach the disk |
| `RuntimeSessions.SignOutIsFinal` | src/proxy.ts:835-841 | a device that signs out between operations is not accepted again in the run, unless its secret is handed out anew |
| `RuntimeSessions.SignOutFinalIff` | src/index.ts:545-560 | a device that signs out while an owner's action is written is out for the rest of the run if and only if that write succeeds |
| `RuntimeSessions.SignOutUndone` | src/index.ts:553-558 | the run: a device signs in, signs out while its renaming is being written, the write fails, and its cookie is good again |

## Left out

- Sockets, TLS, compression streams, piping, WebSocket relay, downloads and gunzip: input and output whose order is not visible here.
- Hashing, random generation and constant-time comparison: drawn values are inputs and `Digest` is injective.
- `isIP`, `Number` on text, `Date.parse` and the loopback test are parameters; `ParseReadsEveryForm` takes of them that the canonical text is an IPv6 literal and that decimal octets read as their value.
- The STATIC_PATH and sensitive-query checks of the request key and `shouldCompressResponse`: one-branch admission tests; the theorems hold of all requests and responses, those they admit among them, and the two cases are of responses that `isCacheableStaticResponse` (`Freshness.Cacheable`) admits.
- `cloneResponse`: responses are values, so that a caller cannot change a cached one is not stated.
- What `mergeAcceptEncodingVary` and the other header edits write: a stored copy may have the eight headers they touch changed in any way. Entity tags and conditional requests: only the stored response, its freshness and its Age are modelled.
- ProxyCache.HitKeepsMaxAge: takes of dates that toUTCString cuts to the second and Date.parse reads it back, up to the last ECMAScript time value.
- Ages and weights are exact integers (milliseconds, thousandths) where the program computes in floating point.
- Text is made of Unicode scalars: a lone surrogate, which a decoded header byte cannot be, is not modelled in the request key.
- The order in which `list()` shows the devices, and the public shape of a record.
- `onChange` is a counter; the debounced save it schedules is the runtime's `Flush`.
- User-Agent labels: the label is an input of a login.
- The upgrade limiter, a second instance of the throttle, is not joined to a handler.
- SessionLaws.ApprovedStaysIn: takes the clock readings between approval and the moment asked about to lie within both windows, a state within the cap to start from, and a non-negative idle window, as the configuration check demands.
- SessionLaws.LoggedInStaysIn: likewise; a device counts as safe from eviction while there is room or another unexpired one has been seen longer ago.
- LoginFlow: a login from an address outside the allowlist is answered before anything is reserved; the runs are of the others.
- FreshnessLaws.HitIsFresh: the bound is for clocks that do not go back between header receipt and store; the program adds the difference otherwise.
- RuntimeLaws.RestartKeepsDevices: takes devices within the cap, with addresses and labels as short as hydrate accepts, and moments after the saves.
- RuntimeLaws.StartComesUp: takes no first load's write to be under way, as it is when first loads are made behind the gate.
- RuntimeLaws.RotationOutlivesProcess: likewise.
- Allowlist.EntryMeans: an address is what `parseIpv4` and `parseIpv6` read after brackets and an IPv4-mapped prefix are taken off; what they read is `QuadIsRead` and `ParseReadsEveryForm`.
- LoginFlow.LoginsBounded: says nothing for an address after a success or an eviction by the tracker's cap, since both forgive it; the catch does not prune, so no bound on the number of buckets is claimed.
- LoginFlow.LoginHandler.Resume: the handler throws while reading the body, drawing random text or answering; its other calls are taken not to throw.
- LoginFlow.DischargedOnce: requests that never finish waiting stay counted as waiting; that the delay ends is not modelled.
- Refresh.StartOwnsEdge: timers may fire at any time while armed and listeners are free to call back in; that a timer fires is not stated, nor that a recovery edge is eventually answered.
- SessionRuns.HydrateRestoresIff: takes stored addresses of at most 64 and labels of at most 128 characters, as hydrate accepts no longer ones.
- SessionRuns.HydrateRestores: likewise.
- SessionRuns.IdleCredentialDies: takes ids drawn later to differ, and reloaded data to have been saved since the record fell silent, or to have it silent already.
- SessionRuns.UnboundForever: takes secrets drawn later to differ from the callback's.
- AuditLog.ReadTail: the file does not change between its size being read and its bytes being read.
- RuntimeSessions.FailedWriteUndone: takes stored addresses and labels as short as hydrate accepts, and a positive `maxSessions`, which the configuration check demands, or approval mode.
- Runtime: the tunnel is reduced to whether it stops and restarts; bootstrap of the upstream cookie, TLS files and the self-loop test are one refusal chosen by the environment; device traffic during a wait is modelled for the operations whose rollback replaces the sessions.
- React components, pages, internationalisation, visibility polling, configuration validation, host lists and control routes: simpler siblings.
