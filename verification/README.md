# SentryDNS, verified

SentryDNS is a DNS proxy between two upstreams. IranDNS knows domestic names but may hijack
answers; GlobalDNS is trusted but slow or unreachable. For each query the proxy decides whom to
ask, races the two where it does not know, learns which names are domestic, caches answers and
protects itself with circuit breakers and rate limiters. This project models those parts in
Dafny and proves what holds in every run, for every schedule of replies, timers and threads.

| file | what it models |
|---|---|
| `StoreProtocol.dfy` | the learned-domain store as a state machine: adders, removers, the cleanup, the flusher and rewriters interleaved at every lock, metric update and line written |
| `Store.dfy` | the store as an object; its invariant is that it is reachable by a run of the protocol |
| `StoreRemoval.dfy` | when a removed name stays out of the file and when it can come back |
| `StoreText.dfy` | the text of the learned-domains file, written and read back |
| `CleanupPool.dfy` | the cleanup's sender, channel and workers |
| `Names.dfy` | name normalisation and the walk over parent domains |
| `RoutingRules.dfy` | the rules of routing: hijacked addresses, what an exchange yields, who wins the race, which path a name takes |
| `Routing.dfy` | one query: exchanges, the race of the learning path, the four paths, one flight with its retry |
| `System.dfy` | the whole proxy in motion: many queries, pinned records, the cache in front, coalesced flights, learning |
| `Breaker.dfy` | the circuit breaker with atomic methods |
| `BreakerSteps.dfy` | the circuit breaker interleaved at every atomic operation and reading of the clock |
| `BreakerCounter.dfy` | the failure counter under those interleavings: when it goes below zero |
| `Probes.dfy` | the breaker together with the queries it gates: what happens to a probe that runs out of time |
| `GlobalLimiter.dfy`, `ClientLimiter.dfy` | the token bucket and the sharded fixed-window limiter |
| `Cache.dfy`, `CacheRuns.dfy` | the TTL cache as an object, and over runs with every lock taken separately |
| `CacheDeletions.dfy` | when the deletion of expired entries can be noticed |
| `Messages.dfy`, `HandOut.dfy` | messages as objects, and who holds a pointer to which |
| `Dns.dfy` | the parts of messages the proxy looks at, and the cache key |
| `Prelude.dfy` | shared definitions |

`dafny verify dfyconfig.toml` checks the whole project.

Conventions. The clock, the network, the choices of `select`, map iteration orders and the
breakers' gates are inputs or nondeterministic choices, so a result about a method or a run
holds for all of them. Times are integers in nanoseconds, except for the token bucket, which
uses reals. Messages carry a tag that says who produced them (IranDNS, GlobalDNS or the proxy
itself); the program has no such field. The two upstreams are taken to be different servers.
File operations succeed.

Where the code and its documentation differ, the model follows the code:

- The documentation says that a breaker opens after N consecutive failures. A success takes
  back one failure instead of all of them, so the exact rule is about runs with N more failures
  than successes; the two rules agree if and only if N is at most 2
  (`Breaker.DocumentedRuleExactWhenSmall`).
- A batch that is skipped because the file was rewritten loses no name, but a name that was
  removed while it was buffered can come back to the file (`StoreProtocol.RemovedNameCanReturn`).
  A name outside memory and file can come back without being added again if and only if a copy is
  with a caller, in the buffer under whatever stamp, in a current batch that no rewrite about to
  bump the generation overtakes, or in what is being written
  (`StoreRemoval.RemovedNameReturnsExactlyIf`).
- Appending relies on the last line of the file being terminated or blank; otherwise the first
  name appended is lost (`StoreText.AppendedNameArrives`).
- A name is durable if and only if it reads back as itself; the query for the root, for example,
  can put the empty name into memory, and that one is never read back (`StoreText.LineRoundTrip`,
  `StoreProtocol.QuietMeansDurable`).
- One client can get up to `2 * MaxRPS - 1` requests through within one window length, no more,
  and that many is reached (`ClientLimiter.ClientBoundIsTight`).
- A failure counter can become negative: a success tests it and decrements it in two steps, and
  in between another success can decrement it or a trip or a close can reset it
  (`BreakerCounter.RacingSuccesses`, `BreakerCounter.SuccessRacesTrip`). It stays non-negative
  in every run in which nobody does that (`BreakerCounter.UndisturbedNeverNegative`), and the
  decrements and resets on their way at any moment can take it below zero if and only if there
  are more decrements than it shows or at least one of each (`BreakerCounter.DipsExactlyIf`).
- Deleting expired entries from the cache makes room. No lookup can tell if and only if the cache
  is unlimited or limited to the hundred entries an eviction samples; beyond that, as with the
  default limit, the sample can miss an expired entry and evict a live one that a sweep would
  have saved (`CacheDeletions.DeletionsAreInvisibleExactlyIf`).
- A probe whose context ends before its first exchange reports nothing, and the breaker then stays
  half-open and shut until a query past the gate reports (`Probes.StuckExactlyIfProbeGaveUp`,
  `Probes.StuckUntilSomebodyTells`).

## Model

| member | source | states |
|---|---|---|
| `StoreProtocol.NoLearnedNameIsLost` | internal/store/store.go:78-170 | under every interleaving and at every moment, a clean name in memory is in the file, with an adder yet to buffer it, in a buffer or batch with the current stamp, or covered by a rewrite in progress; so a skipped batch loses nothing |
| `StoreProtocol.QuietMeansDurable` | internal/store/store.go:98-239 | whenever nobody is midway and the buffer is drained, a name in memory reads back from the file if and only if it is clean, everything read back comes from a loaded or added name, and loaded + learned = held + removed + cleaned |
| `StoreProtocol.DoKeepsInv` | internal/store/store.go:78-239 | every single action, from any state that satisfies it, keeps the inductive invariant behind the two theorems above |
| `StoreProtocol.ExecKeepsInv` | internal/store/store.go:78-239 | every run keeps the invariant |
| `StoreProtocol.DoMovesMidway` | internal/store/store.go:78-197 | every action changes the names held, less the updates of metrics still due, by exactly what it adds to the metrics |
| `StoreProtocol.FileStaysTraceable` | internal/store/store.go:140-239 | no action puts a name into the file that was not loaded or added |
| `StoreProtocol.RemovedNameCanReturn` | internal/store/store.go:119-124 | a concrete run after which the file holds a removed name although a rewrite took place: a later addition refreshed the stamp |
| `StoreRemoval.RemovedNameReturnsExactlyIf` | internal/store/store.go:119-239 | at every moment of every run, a name in neither memory nor file can get into the file without being added again if and only if a copy is with a caller, in the buffer, in a batch that will be found current, or in what is being written |
| `StoreRemoval.ReturnsExactlyIfLurking` | internal/store/store.go:119-239 | the same for every state the invariant allows, names in memory included |
| `StoreRemoval.RemovalIsDurable` | internal/store/store.go:182-239 | without such a copy the name stays out of memory and file in every run that does not add it again, a stale batch notwithstanding |
| `StoreRemoval.DoKeepsAway` | internal/store/store.go:78-239 | no action brings such a copy back unless it adds the name |
| `StoreRemoval.FromBuffer` | internal/store/store.go:119-170 | from any state with a copy in the buffer, whatever its stamp and whoever is midway, a run puts the name into the file |
| `StoreRemoval.FromBatch` | internal/store/store.go:152-169 | so does a run from a current batch, after any rewrite in progress has ended |
| `StoreRemoval.FromMemory` | internal/store/store.go:199-239 | so does a run from memory, by the next rewrite |
| `StoreProtocol.AddOne` | internal/store/store.go:78-124 | an undisturbed addition is a run of the protocol with that overall effect |
| `StoreProtocol.RemoveOne` | internal/store/store.go:182-197 | an undisturbed removal is a run of the protocol with that overall effect |
| `StoreProtocol.FlushAll` | internal/store/store.go:140-170 | an undisturbed flush is a run of the protocol that appends the whole buffer, or nothing if the stamp is stale |
| `StoreProtocol.RewriteOnce` | internal/store/store.go:199-239 | an undisturbed rewrite is a run of the protocol that replaces the file by a listing of memory under the next generation |
| `Store.DomainStore.constructor` | internal/store/store.go:41-58 | memory is what the file holds; if lines can be appended to the file, the store is in the initial state of the protocol |
| `Store.DomainStore.IsIran` | internal/store/store.go:60-76 | true if and only if some label-boundary suffix of the normalized name is stored |
| `Store.DomainStore.Count` | internal/store/store.go:176-180 | the number of names held balances names loaded and learned against names removed and cleaned |
| `Store.DomainStore.Add` | internal/store/store.go:78-96 | the new state is that of one protocol addition, or unchanged for a known name; the store stays reachable |
| `Store.DomainStore.Remove` | internal/store/store.go:182-197 | the new state is that of one protocol removal, or unchanged for an unknown name; the store stays reachable |
| `Store.DomainStore.FlushPersist` | internal/store/store.go:140-170 | the new state is that of one protocol flush; the store stays reachable |
| `Store.DomainStore.Durable` | internal/store/store.go:98-170 | with the buffer drained, the file holds exactly the clean ones of the names in memory, and nothing unheard of |
| `Store.DomainStore.WriteAll` | internal/store/store.go:199-239 | the file lists exactly the names in memory under the next generation |
| `Store.DomainStore.FinishCleanup` | internal/store/store.go:433-446 | exactly the rejected names still held leave, are counted once each, and the file is rewritten without them |
| `Store.DomainStore.DeleteAll` | internal/store/store.go:434-440 | memory loses the listed names; the count is the number of names that were there, however often they are listed |
| `StoreText.ReadAll` | internal/store/store.go:98-117 | the reading loop gives the set of trimmed lines that are neither blank nor comments |
| `StoreText.AppendIsUnion` | internal/store/store.go:159-166 | reading after an append is the union of both readings if the last line was terminated or blank |
| `StoreText.AppendedNameArrives` | internal/store/store.go:159-166 | a new clean name appended to a file reads back if and only if the file's last line was terminated or blank |
| `StoreText.LineRoundTrip` | internal/store/store.go:110-114 | a written name reads back as itself if and only if it is clean: not empty, trimmed, in one line, no comment |
| `StoreText.LoadPrint` | internal/store/store.go:221-227 | a rewritten file reads back as the union of what its lines give, clean or not |
| `StoreText.PrintRoundTrip` | internal/store/store.go:98-117 | reading after printing is the identity on sets of clean names |
| `StoreText.LoadIsClean` | internal/store/store.go:108-115 | whatever is read from any file is clean |
| `StoreText.LinesAreAppendable` | internal/store/store.go:164-166 | after a line is appended to any text, lines can be appended to it |
| `CleanupPool.ValidatesEachNameOnce` | internal/store/store.go:377-431 | however sender and workers interleave, a cleanup that is not stopped validates each snapshot name exactly once and collects exactly the rejected ones |
| `CleanupPool.RemovesOnlyRejected` | internal/store/store.go:389-440 | at every moment of every cleanup, stopped or not, a name up for removal is a snapshot name that failed validation |
| `CleanupPool.ExecConserves` | internal/store/store.go:389-431 | every run of the pool keeps every snapshot name in exactly one place |
| `Names.SuffixWalk` | internal/resolver/resolver.go:216-229 | the loop ends and finds a name if and only if some label-boundary suffix of the normalized name is in the set |
| `Names.MatchesMeans` | internal/resolver/resolver.go:248-261 | that is, if and only if the name itself is in the set or what follows one of its dots is |
| `Names.LowerForgetsCase` | internal/store/store.go:172-174 | two names lower-case to the same if and only if they are equal up to the two cases of ASCII letters |
| `Names.NormalizeMeans` | internal/store/store.go:172-174 | a normal form has no capitals and is the name without its final dot, up to case; a name without capitals keeps its characters |
| `Names.NormalizeTwice` | internal/store/store.go:172-174 | normalizing again changes nothing if and only if the name does not end in two dots |
| `Names.CaseDoesNotMatter` | internal/resolver/resolver.go:216-261 | names that differ in case, or in one final dot, have the same normal form, so every walk and every store method treats them alike |
| `Names.SubdomainsMatch` | internal/store/store.go:60-96 | after a non-empty name is in the set, every subdomain of it matches |
| `Names.EmptyNameCovers` | internal/store/store.go:172-174 | the empty name is an exception: it matches exactly the empty name, the root and what ends in two dots |
| `Names.RemovalEndsSoleMatches` | internal/store/store.go:182-197 | a removal ends a match if and only if the removed name was its only matching suffix |
| `RoutingRules.IsHijacked` | internal/resolver/resolver.go:231-246 | true if and only if some address is listed or lies in a listed range |
| `RoutingRules.HijackedMeans` | internal/resolver/resolver.go:231-246 | an address is hijacked if and only if it is listed, or parses and lies in the aligned block of addresses of a listed range of its family |
| `RoutingRules.RangeIsInterval` | internal/resolver/resolver.go:238-241 | a range holds exactly the aligned block, of as many addresses as its free bits allow, around its address |
| `RoutingRules.ExtractIPs` | internal/resolver/resolver.go:787-798 | one address for each A and AAAA record and for nothing else, in the order of the records |
| `RoutingRules.AddressesAreRecords` | internal/resolver/resolver.go:787-798 | an address is extracted if and only if some A or AAAA record carries it |
| `RoutingRules.RecordsSpeak` | internal/resolver/resolver.go:231-246 | the extracted addresses include a hijacked one, or any at all, if and only if some A or AAAA record carries one |
| `RoutingRules.Clock.ShortWait` | internal/resolver/resolver.go:290-298 | at least a tenth of a second, and no longer than a GlobalDNS timeout of four tenths or more |
| `Routing.Router.Query` | internal/resolver/resolver.go:619-728 | how many exchanges are made; there is no reply if and only if there was no time, or the first exchange failed and no fallback replied; the first exchange answers if it brought a full reply or nothing better came, otherwise the second does, so a truncated reply is returned only if the second exchange failed or was truncated too; the upstream's breaker is told the outcome of the first exchange, and nothing if there was no time; the query ends with its context and within two timeouts |
| `RoutingRules.QueryAnswers` | internal/resolver/resolver.go:690-727 | the same of the function the other rules use for the outcome of a query |
| `Routing.Router.QueryIranDNS` | internal/resolver/resolver.go:607-617 | no query and no report at all when the gate is shut, otherwise the reply and the report of the query |
| `Routing.Router.FirstIranian` | internal/resolver/resolver.go:340-351 | finds an address if and only if the reply has an Iranian one and no hijacked one |
| `Routing.Router.StartRace` | internal/resolver/resolver.go:272-288 | GlobalDNS is asked if and only if an address is asked for or IranDNS's breaker is open, and its own breaker is closed or grants a probe; IranDNS if its breaker is closed and its gate lets the query through; and what each comes to |
| `Routing.Router.FirstRounds` | internal/resolver/resolver.go:302-330 | the first select, or the second one after an empty reply, never takes two replies of one upstream and ends by the deadline |
| `Routing.Router.AfterIran` | internal/resolver/resolver.go:332-381 | once IranDNS replied first, the answer and the lesson follow the rule of the race |
| `Routing.Router.AfterGlobal` | internal/resolver/resolver.go:383-413 | once GlobalDNS replied first, its reply is the answer whatever IranDNS says later, and lessons come from validated replies only |
| `Routing.Router.LearnAll` | internal/resolver/resolver.go:399-404 | at least one lesson, and every lesson has convincing evidence |
| `Routing.Router.LateQuery` | internal/resolver/resolver.go:414-425 | the late query of a non-address question answers with GlobalDNS's reply, or SERVFAIL, within the GlobalDNS timeout |
| `Routing.Router.ResolveWithLearning` | internal/resolver/resolver.go:263-426 | for address queries and every schedule, the answer is IranDNS's if and only if a validated reply of it is taken before any reply of GlobalDNS, otherwise GlobalDNS's if one is taken, otherwise SERVFAIL; the store is taught if and only if a validated reply is taken; the replies taken are those its queries came to, and no wait of the program is skipped or added; other queries follow their own rule; at most two queries and four exchanges; it ends in time |
| `RoutingRules.RaceIsSound` | internal/resolver/resolver.go:263-426 | the rule of the race implies that no hijacked address of IranDNS is ever the answer |
| `RoutingRules.WithoutTimeouts` | internal/resolver/resolver.go:263-426 | for address queries, if no timer fires and the context is not done: a validated reply of IranDNS or a reply of GlobalDNS is the answer, whichever there is; SERVFAIL if there is neither; and a validated reply is learned from even when GlobalDNS was first |
| `RoutingRules.PlainOutcome` | internal/resolver/resolver.go:263-426 | for other queries, if the context is not done: IranDNS's reply if its breaker is closed and it replies, else GlobalDNS's late reply, with the breaker open GlobalDNS's reply at once, and SERVFAIL if there is none |
| `RoutingRules.LaterDelivery` | internal/resolver/resolver.go:383-413 | what is delivered after a reply of GlobalDNS cannot change the answer, only teach |
| `Routing.Router.IranUnlessHijacked` | internal/resolver/resolver.go:540-575 | an answer of IranDNS is a success with no hijacked A or AAAA record, and with an address record for preferred names; if its reply is all that, it is the answer and GlobalDNS is not asked; otherwise GlobalDNS answers |
| `RoutingRules.DirectRouteMeans` | internal/resolver/resolver.go:540-603 | the same of the three direct paths, with the gate for Iranian TLDs and preferred names and past it for stored names |
| `Routing.Router.AskIranFirst` | internal/resolver/resolver.go:540-573 | Iranian TLDs and preferred names ask IranDNS behind its gate and GlobalDNS only when that reply is missing, failed or hijacked |
| `Routing.Router.TryDirectPaths` | internal/resolver/resolver.go:540-603 | a direct path answers if and only if the name is in an Iranian TLD, preferred, or stored and not denied; each path's answer is the prescribed one, exactly one path is counted, an answer of IranDNS is a clean success got without asking GlobalDNS, and a stored name is taken out if and only if IranDNS denies it |
| `Routing.Router.ResolveOnce` | internal/resolver/resolver.go:536-605 | exactly one path is counted, chosen by the name and the store; on direct paths the answer is the prescribed one and nothing is learned, otherwise answer and lessons are those of the race; the answer is sound on all paths; the upstream that made it is credited; a stored name is taken out if and only if IranDNS denies it; at most three queries and six exchanges; it ends in time |
| `Routing.Router.Flight` | internal/resolver/resolver.go:466-490 | the answer is the first attempt's, or after a failure the second's or SERVFAIL, and there is a retry if and only if the first attempt failed; the answer is sound, failures are not cached; a flight makes at most 6 queries and 12 exchanges, counts one path per attempt and a failure only after a retry, teaches only with convincing evidence, answers for Iranian TLDs and preferred names with IranDNS's reply only if that is a clean success, and ends by the deadline plus timeout/10 plus two deaf waits |
| `RoutingRules.PathCounted` | internal/resolver/resolver.go:536-605 | an Iranian TLD counts before a preferred name, that before the store, that before the learning path; the upstream that made the answer is credited, GlobalDNS also when a direct path ends without one; no other counter changes |
| `System.EveryAnswerIsTrustworthy` | internal/resolver/resolver.go:428-500 | in every run, every answer given, fresh, coalesced, retried, cached or pinned, carries its request's ID, has no A or AAAA record with a hijacked address from IranDNS for an address query, answers the same name up to case and the same known type, is a failure or a pinned record if no upstream made it, and is exactly one A record with the configured address wherever one is pinned |
| `System.EveryNameHasEvidence` | internal/resolver/resolver.go:340-409 | in every run, a stored name was loaded, or IranDNS answered an address query for that normalized name with an address then classified Iranian and none hijacked |
| `System.CountersAddUp` | internal/resolver/resolver.go:428-605 | in every run, at rest: total = static + cached + miss; the four paths = flights + retried; flights <= miss; servfail <= retried <= flights; iran + global <= attempts |
| `System.EveryQueryIsAnsweredOnce` | internal/resolver/resolver.go:428-500 | in every run, queries counted = answers given to them + queries in progress, and every query that waits has a flight of its key to wait for |
| `System.MakeAttempt` | internal/resolver/resolver.go:536-605 | whatever the router does in an attempt is an attempt of the system model, lessons included |
| `System.FitIsTrustworthy` | internal/cache/cache.go:124-130 | a message made for any question with the same key can be handed to a request under its own ID |
| `System.StepStaysFit` | internal/resolver/resolver.go:428-500 | every step keeps every message in the cache, in a flight or handed out fit for its key |
| `System.StepStaysTallied` | internal/resolver/resolver.go:428-605 | every step keeps the counters in balance with the queries and flights in progress |
| `System.StepMovesQueries` | internal/resolver/resolver.go:428-500 | a query is in progress from its arrival to its one answer; landing a flight moves all its waiters and nobody else |
| `System.StepStrandsNobody` | internal/resolver/resolver.go:466-500 | no step leaves a waiter without its flight |
| `Breaker.CircuitBreaker.RecordFailure` | internal/resolver/resolver.go:56-68 | a closed breaker opens if and only if some run of recent outcomes, this failure included, has threshold more failures than successes; a half-open one always opens; opening stamps the time, clears the counter and counts a trip |
| `Breaker.CircuitBreaker.RecordSuccess` | internal/resolver/resolver.go:70-84 | a half-open breaker closes, a closed one forgives one failure, an open one ignores it |
| `Breaker.CircuitBreaker.IsOpen` | internal/resolver/resolver.go:86-93 | agrees with the gauge the callback maintains |
| `Breaker.CircuitBreaker.TryProbe` | internal/resolver/resolver.go:95-104 | lets a probe through if and only if the breaker is open and the latest trip in its history is more than the cooldown ago |
| `Breaker.WorstRunIsLargestBalance` | internal/resolver/resolver.go:56-84 | the leaky counter is the largest surplus of failures over successes of any suffix of the outcomes |
| `Breaker.ClosedMeansWorstRun` | internal/resolver/resolver.go:56-104 | in every run, closed implies 0 <= failures < threshold and that the counter equals the largest surplus since it last became closed; the gauge tells whether it is closed |
| `Breaker.TripsOnBadRun` | internal/resolver/resolver.go:56-68 | in every run, an event takes a closed breaker to open if and only if it is a failure that completes such a run of outcomes; nothing takes it to half-open |
| `Breaker.LastOpenIsLastTrip` | internal/resolver/resolver.go:60-62 | in every run, the stored time of a breaker that is not closed is that of its latest trip |
| `Breaker.ProbesWaitForCooldown` | internal/resolver/resolver.go:95-104 | in every run, every probe starts more than the cooldown after the latest trip |
| `Breaker.ConsecutiveFailuresTrip` | config.example.yaml:40 | threshold failures in a row always trip |
| `Breaker.NearMissTrips` | internal/resolver/resolver.go:79-82 | for every threshold of three or more, outcomes that trip without that many failures in a row |
| `Breaker.DocumentedRuleExactWhenSmall` | README.md:633 | the documented rule is the code's rule for all outcomes if and only if the threshold is at most two |
| `BreakerSteps.TripsAndProbesAlternate` | internal/resolver/resolver.go:56-104 | under every interleaving of atomic operations, trips minus winning probes is 1 while open and 0 otherwise, every earlier probe ended in one trip or one close, and the trips metric is exact once nobody is about to report |
| `BreakerSteps.AtMostOneProbePerEpoch` | internal/resolver/resolver.go:95-104 | under every interleaving, an open epoch admits at most one probe |
| `BreakerSteps.WhoGetsThrough` | internal/resolver/resolver.go:607-617 | under every interleaving, a gated query got through by reading closed or by winning the one swap of its epoch |
| `BreakerSteps.MoveKeepsLog` | internal/resolver/resolver.go:56-104 | every kind of won swap keeps trips, probes and closes in balance and epochs distinct |
| `BreakerSteps.StepKeepsReports` | internal/resolver/resolver.go:184-192 | every step keeps reported trips plus callers about to report equal to trips |
| `BreakerCounter.UndisturbedNeverNegative` | internal/resolver/resolver.go:70-84 | in every run with fewer than 2^31 failures in which nobody decrements or resets the counter between another caller's test and its decrement, the counter is never negative |
| `BreakerCounter.NegativeMeansDisturbed` | internal/resolver/resolver.go:56-84 | in every run, the step that first takes the counter below zero is the decrement of a success between whose test and decrement another caller decremented or reset it |
| `BreakerCounter.DipsExactlyIf` | internal/resolver/resolver.go:56-84 | from any moment with a counter that is not negative, the decrements and resets on their way can take it below zero if and only if there are more decrements than it shows, or at least one of each |
| `BreakerCounter.RacingSuccesses` | internal/resolver/resolver.go:79-82 | for every threshold, an interleaving of two successes that takes the counter to -1 |
| `BreakerCounter.SuccessRacesTrip` | internal/resolver/resolver.go:56-84 | with a threshold of one, an interleaving of one success and a failure that trips the breaker does so too |
| `Probes.HalfOpenWaitsForProbe` | internal/resolver/resolver.go:95-104 | in every run that ends half-open, one winning probe is the last change of phase, nothing was reported since, and that probe is still to report if and only if it did not run out of time |
| `Probes.StuckExactlyIfProbeGaveUp` | internal/resolver/resolver.go:607-640 | in every run, half-open with nobody left to report means that the probe ran out of time, and conversely if nobody else is to report |
| `Probes.StuckUntilSomebodyTells` | internal/resolver/resolver.go:574-617 | until somebody reports, it stays half-open and lets no gated query through, whatever the cooldown |
| `GlobalLimiter.Limiter.constructor` | internal/ratelimit/global.go:19-25 | a full bucket with an empty history |
| `GlobalLimiter.Limiter.Allow` | internal/ratelimit/global.go:27-45 | admits if and only if, for every earlier call, the number admitted since it plus one is at most maxRPS plus the refill since it; a disabled limiter admits everything |
| `GlobalLimiter.LevelIsTightestWindow` | internal/ratelimit/global.go:35-44 | an amount is in the bucket if and only if it fits the capacity and every window that ends now |
| `GlobalLimiter.CreationWindowFollows` | internal/ratelimit/global.go:19-25 | an admission also fits the window since creation |
| `GlobalLimiter.WindowBound` | internal/ratelimit/global.go:9-11 | in any interval at most maxRPS + maxRPS * length requests are admitted |
| `GlobalLimiter.BucketIsOptimal` | internal/ratelimit/global.go:40-44 | no other policy within the same budget has admitted more at any point of the run, so no request is denied unnecessarily |
| `GlobalLimiter.BucketRespectsBudget` | internal/ratelimit/global.go:38-44 | the bucket itself is a policy within that budget |
| `ClientLimiter.Limiter.constructor` | internal/ratelimit/ratelimit.go:28-43 | sixteen empty shards, no client known |
| `ClientLimiter.Limiter.ShardFor` | internal/ratelimit/ratelimit.go:45-51 | the 64-bit hash picks the shard of the unbounded hash |
| `ClientLimiter.Limiter.Allow` | internal/ratelimit/ratelimit.go:53-71 | after any history of requests and sweeps, admits if and only if the client's own requests, in one plain fixed window, allow it |
| `ClientLimiter.Limiter.Count` | internal/ratelimit/ratelimit.go:58-70 | the decision of the client's window, and the change of that entry alone |
| `ClientLimiter.Limiter.Cleanup` | internal/ratelimit/ratelimit.go:78-89 | exactly the entries older than two windows go, in every shard |
| `ClientLimiter.ShardedAgrees` | internal/ratelimit/ratelimit.go:45-94 | in every run, the entry kept for a client is the one of its requests alone, or was swept when its window was over |
| `ClientLimiter.SameAsAlone` | internal/ratelimit/ratelimit.go:53-94 | in every run, with sweeps at arbitrary times, the answer to a request is the one its client would get from a plain fixed window with no other clients |
| `ClientLimiter.ClientBound` | internal/ratelimit/ratelimit.go:62-70 | in any interval no longer than the window a client gets at most 2 * MaxRPS - 1 admissions |
| `ClientLimiter.ClientBoundInEveryRun` | internal/ratelimit/ratelimit.go:45-94 | so it does in every run of the sharded, swept limiter |
| `ClientLimiter.ClientBoundIsTight` | internal/ratelimit/ratelimit.go:62-70 | for every rate and window some requests reach that bound |
| `ClientLimiter.DeniedOnlyIfBusy` | internal/ratelimit/ratelimit.go:62-70 | a request is denied only if the client's last MaxRPS requests lie within one window length |
| `ClientLimiter.FreshMeans` | internal/ratelimit/ratelimit.go:83-87 | a sweep forgets exactly the clients whose window opened more than two window lengths ago |
| `Cache.ResponseMinTTL` | internal/cache/cache.go:132-143 | the loop yields the least TTL of the answers, 0 if none sets one |
| `Cache.LeastIsMinimum` | internal/cache/cache.go:132-143 | that value is a lower bound and attained |
| `Cache.ClampMeans` | internal/cache/cache.go:82-87 | the clamped TTL is the TTL between the limits, the lower limit below and the upper one above |
| `Cache.ServedUntil` | internal/cache/cache.go:82-97 | a stored message is live exactly as long as it is younger than the upper limit and, for each answer, younger than its TTL or the lower limit |
| `Cache.UsableTTLMeans` | internal/cache/cache.go:72-80 | a response is worth storing if and only if it is a success, no answer has a TTL of zero and some answer sets one |
| `Cache.TTLCache.EffectMeans` | internal/cache/cache.go:72-97 | what a Set stores is the response itself under its key, to be served exactly that long; anything else stores nothing |
| `Cache.TTLCache.Get` | internal/cache/cache.go:41-70 | a hit is a fresh message that the cache does not hold, with the content of the last effective Set of the key, still live, under the request's ID; without a size limit a miss means there is none; an expired entry is gone afterwards, which changes no later lookup |
| `Cache.TTLCache.Set` | internal/cache/cache.go:72-99 | a fresh copy of a success with a TTL is stored for its clamped TTL, after the eviction of the right victim if the table is full and of nothing otherwise; anything else changes nothing; the size limit is kept |
| `Cache.TTLCache.EvictOne` | internal/cache/cache.go:101-122 | for every iteration order exactly one entry goes, with the least expiry of the sample, and of all entries if there are at most 100 |
| `Cache.TTLCache.Sweep` | internal/cache/cache.go:145-163 | exactly the expired entries go, and no later lookup changes |
| `Cache.UnexpiredMeans` | internal/cache/cache.go:150-157 | an entry survives a sweep if and only if it had not expired before the sweep's reading of the clock |
| `CacheRuns.HitIsLatestSet` | internal/cache/cache.go:41-122 | in every run with each lock taken separately, a hit is the latest Set for the key, younger than the upper limit and, for each of its answers, younger than that answer's TTL or the lower limit; and the table never outgrows its limit |
| `CacheRuns.CompleteWithoutLimit` | internal/cache/cache.go:41-99 | in every run without a size limit, a lookup finds the latest Set if and only if it is still that young |
| `CacheRuns.SetIsPut` | internal/cache/cache.go:88-97 | an effective Set of the cache object is a step of those runs, victim included |
| `CacheDeletions.DeletionsAreInvisibleExactlyIf` | internal/cache/cache.go:60-122 | whatever Sets a run consists of and whatever sweeps and second-lock deletions are added to it, also between the two locks of a lookup, some choice of victims makes every later lookup answer as before, if and only if the limit is at most 100 or there is none |
| `CacheDeletions.DeletionsCanBeErased` | internal/cache/cache.go:60-122 | under the same condition, whatever a run with deletions ends in, its Sets alone can end in a table no later lookup can tell from it |
| `CacheDeletions.PutFollows` | internal/cache/cache.go:89-97 | one Set on two tables that look the same: with the right victim they look the same afterwards |
| `CacheDeletions.EvictsFirstToGo` | internal/cache/cache.go:101-122 | up to a hundred entries, an entry can be the victim if and only if none expires before it |
| `CacheDeletions.SweepShows` | internal/cache/cache.go:101-122 | for every larger limit, a run in which a sweep saves a live entry that is evicted without it |
| `HandOut.FrontDesk.Serve` | internal/resolver/resolver.go:497-499 | after any sequence of lookups, flights, deliveries, sweeps and writes of clients to the messages they were given: all messages handed out are different, none is one the cache or a flight holds, each is what it was when it was handed out unless its own client wrote to it, and the cache's log is decided by the flights alone |
| `HandOut.FrontDesk.ClientWrites` | internal/resolver/resolver.go:497-499 | whatever a client writes to its message, no other client's message changes, nor what the cache or a flight holds |
| `HandOut.FrontDesk.Lookup` | internal/cache/cache.go:54-59 | a hit is handed out as a message of the client's own |
| `HandOut.FrontDesk.DeliverTo` | internal/resolver/resolver.go:497-499 | every waiter gets a fresh copy of the flight's result under its own ID |
| `HandOut.FrontDesk.LandFlight` | internal/resolver/resolver.go:486-490 | the cache gets a copy of the flight's result, never the message itself |
| `HandOut.FrontDesk.SendUpstream` | internal/resolver/resolver.go:660-666 | a query goes upstream as a copy under a random ID, so the request keeps its own |
| `CacheRuns.DoKeepsInv` | internal/cache/cache.go:41-163 | every step keeps the agreement with the log of Sets and the size limit, and, with or without a limit, deletions of expired entries change no later lookup |
| `Dns.KeyIdentifiesQuestion` | internal/cache/cache.go:124-130 | two questions share a key if and only if their names are equal up to the case of ASCII letters and their types are equal or both without a mnemonic |

## Left out

- The DNS wire format, EDNS0 options, the pool of clients and random IDs: an exchange is an arbitrary reply or a failure.
- The inside of singleflight: each key has at most one flight at a time and its joiners share the result.
- Pinned records: `SetStaticRecords` parses and lower-cases them; the model starts from the resulting table.
- Aliasing inside a message: a copy is deep, as the library's is, so a message is one object here and its records are values.
- Non-ASCII lower-casing: `Lower` maps ASCII letters only.
- The classifier's table of ranges: it is an arbitrary predicate that may change between attempts; parsing of addresses is an arbitrary function.
- The breakers' gates inside a route: they are arbitrary inputs there; the breaker and the reports of gated queries are modelled on their own.
- The order of lines in a rewritten file and the length limit of the line scanner; the generation number is unbounded.
- Failed disk writes and the order of flushes at shutdown: the program gives no durability there.
- `scheduleRewrite` as a timer: a rewrite may happen at any time, so that one does follow a removal is not claimed.
- System.EveryAnswerIsTrustworthy: messages are values there, which `HandOut.dfy` justifies; an attempt is one step, so counters and lessons of one attempt appear together, and cache entries may vanish at any time; expiry and eviction are in `Cache.dfy`, single exchanges in `Routing.dfy`.
- System.FitIsTrustworthy: for query types without a mnemonic, which share one key, only the name is claimed to agree.
- Routing.Router.Flight: the timeout is at least 30 ns, since the program's random pause is undefined below that; that an exchange ends within its timeout and context, and a select when its timer or context does, is assumed.
- Routing.Router.Query: whether a query finds time left is an input, so the model also allows a reply to one that has none.
- Routing.Router.ResolveWithLearning: replies to non-address queries are returned unchecked, as the program does by design, so no hijack claim is made for them.
- Breaker.CircuitBreaker.RecordFailure: the threshold is at least one and fits 32 bits.
- BreakerSteps.TripsAndProbesAlternate: at this granularity no claim is made about the cooldown or the gauge, since both are written after the swap.
- BreakerCounter.UndisturbedNeverNegative: with 2^31 failures or more the 32-bit counter can wrap around.
- CacheDeletions.DeletionsAreInvisibleExactlyIf: the TTL limits are those the configuration accepts, 0 < min <= max.
- GlobalLimiter.Limiter.Allow: tokens are reals, so rounding of floating-point numbers is not modelled.
- `Resolver.Stop` and `ValidateDomain`: draining gives no whole-run guarantee; validation is an arbitrary answer per name in the cleanup.
- Metrics output, state files, logging, updates, configuration and start-up: wiring with no hard property.
