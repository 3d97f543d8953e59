# Verified model of the kittle backend

This project models the parts of the kittle packages where concurrency, data
formats and policy languages meet, and proves what they promise. Everything is
Dafny; `dafny verify dfyconfig.toml` checks the whole project.

**Idempotent writes.** `IdempotencyStore` is the D1 idempotency table: every SQL
statement or batch is one guarded update, and the class runs the store's methods
over it. `IdempotencyProtocol` interleaves those statements for any number of
write handlers and finalizers, with leases, takeovers, heartbeats, crashes,
failing statements and a database clock that may jump either way; a log records
business mutations and tag invalidations. `IdempotencyProofs` holds the results
over every run, `IdempotencySteps` what a handler or finalizer left alone achieves,
`Finalizer` the finalizer's own pass. `AtomicBatch` is the D1
batch that carries a mutation with its receipt and outbox events, from plan to
statements and back to results, and `AtomicBatchProofs` says when it commits, what
it leaves, and that PostgreSQL's transaction does the same.

**Background jobs.** `JobStore` is the D1 job table, with the two renderings of
"change the job and write its history row" (D1's three-statement batch and
PostgreSQL's transaction). `JobProofs` interleaves enqueue, claim, renew, settle,
cancel and jumps of the database clock either way; `JobVerdicts` says what a verdict
means for the rest of a job's life.

**Generation-fenced cache.** `CacheService` is the service in its
correctness-critical shared mode; `CacheProtocol` lets readers, writers,
invalidations and shared in-flight fills race, each tag generation being read in
a step of its own; `CacheProofs` holds freshness, `CacheUses` and `CacheCycles` say
exactly which uses of keys and tags have it. `CacheKeys` serializes values, builds keys and names
stored entries; `CacheKeyText`, `CacheKeyChars` and `CacheKeyProofs` show that keys are canonical and
injective, over the stable sort of `StableSort`. `InMemoryCache` is the in-process
adapter with its amortised sweeps, and `CacheAnswers` what it answers.

**Policy language.** `Predicates` is the predicate tree with its three-valued
in-memory evaluator, `SqlPredicates` the compiler to SQL and SQL's own
evaluation, LIKE matching included, `SqlProofs` the comparison of the two,
`Simplifier` the simplifier with the guard on destructive statements, and
`FilterGuard` how complete that guard is.
`PolicyConditions` compiles condition trees, applies the activation gates and
makes the stored form; `PolicyProofs` says what survives and what it means,
`PolicyValues` whose value decides.

**Access decisions.** `AccessDecisions` has the tiered record decision and the
scope filter for collections, `FieldWrites` write enforcement, `FieldReads` the
field-read overrides, `AuthorizedWrites` authorised updates and deletes racing
with other writers. `AuthorizedWriteProofs` says what such a write lands on and that
no update is lost, `VersionCheck` exactly when comparing versions is enough.

**Review archive.** `ZipFormat`, `ZipArchive`, `ZipProofs`, `ZipRecords` and `ZipPaths` are the ZIP
writer and inspector (a subset of PKWARE APPNOTE sections 4.3.7, 4.3.12 and 4.3.16),
down to the bytes, with the CRC-32 in `Checksum` and UTF-8 and UTF-16 in `Text`.

## Where the code and its documentation part

- `packages/core/src/domain/fieldAccess.ts:74-75` says field overrides do not
  depend on policy order. They do when several allow policies of the top allow
  priority match and disagree about a field: `FieldReads.OrderMattersIff` gives
  the exact condition.
- `packages/core/src/domain/evaluatePredicate.ts:89-101` leaves COALESCE as work
  to do; the SQL compiler has it. Under NOT the two still differ on records that
  leave a comparison unknown (`SqlProofs.NegationDivergesExactlyOnUnknown`), so a
  scope filter evaluated in memory loses records that SQL selects, exactly as
  `AccessDecisions.ScopeKeepsAllowedIff` says.
- D1's LIKE ignores the case of ASCII letters, which the in-memory text tests do not
  (`SqlProofs.TextTestAgreesIff`).
- The gates of the normalizer refuse every `in` and every `between`, and equality
  with null, because a list, a range and null all count as object values
  (`PolicyProofs.PolicyAcceptedIff`).
- A job whose worker is lost on its last attempt stays running for good
  (`JobProofs.ExhaustedJobIsStranded`).
- The cache's storage key carries generations without tag names, so one key used
  with two lists of equal length can serve a stale value; `CacheCycles.FreshIffCircular`
  gives the exact condition for all lists, and `CacheCycles.FreshIffSameTags` what it
  comes to where no list repeats a tag.
- A day is the only text a policy may ask a date field for, and storing the policy
  turns it into a full ISO instant, which a record that holds the day as text no
  longer meets (`PolicyProofs.DayTextIsLost`, `PolicyProofs.StorageChangesClauseIff`).
- A batch plan that lists one event twice passes the precheck, whose conflict test
  compares contents only, and then always aborts on the unique index unless the
  event is already recorded (`AtomicBatchProofs.EventTwiceAborts`).
- The serializer sorts Map entries by key alone, so of equal keys the insertion
  order shows; `CacheKeyProofs.MapOrderIsFreeIff` says exactly when it does not.
- A deny policy with a write list refuses the whole write, also when no changed
  field is in its list (`FieldWrites.FieldScopedDenyRefusesTheRecord`).

## Model

| member | source | states |
|---|---|---|
| IdempotencyStore.Dedupe | packages/adapters/src/drizzle-d1/drizzleIdempotencyStore.ts:487-511 | The stored tag list keeps exactly the given tags, each once |
| IdempotencyStore.DedupeKeepsFirst | packages/adapters/src/drizzle-d1/drizzleIdempotencyStore.ts:504 | Of repeated tags the first keeps its place, so the order is that of first occurrence |
| IdempotencyStore.D1IdempotencyStore.Acquire | packages/adapters/src/drizzle-d1/drizzleIdempotencyStore.ts:55-140 | The complete decision table over the columns of the row found: reserve, conflict, take over an in-progress row older than the lease under a new token, replay, report a commit with the tags it owes, poison an unreadable column, or busy, with the resulting table in each case |
| IdempotencyStore.D1IdempotencyStore.RenewLease | packages/adapters/src/drizzle-d1/drizzleIdempotencyStore.ts:142-165 | Renewing moves the lease of a reservation still owned, and is refused otherwise |
| IdempotencyStore.D1IdempotencyStore.MarkCompleted | packages/adapters/src/drizzle-d1/drizzleIdempotencyStore.ts:458-484 | Completing stores the response and drops the obligation and its lease exactly on a committed row under its own token |
| IdempotencyStore.D1IdempotencyStore.RecoverCommitted | packages/adapters/src/drizzle-d1/drizzleIdempotencyStore.ts:345-363 | Recovery marks the owned row committed and leaves what it owes listed |
| IdempotencyStore.D1IdempotencyStore.ClaimPendingInvalidations | packages/adapters/src/drizzle-d1/drizzleIdempotencyStore.ts:242-328 | The loop leases every scanned row and returns one entry for each readable one, in scan order |
| IdempotencyStore.D1IdempotencyStore.AckClaimedInvalidation | packages/adapters/src/drizzle-d1/drizzleIdempotencyStore.ts:393-424 | Acknowledging frees the row exactly under the live lease that was granted, and otherwise changes nothing |
| IdempotencyStore.D1IdempotencyStore.CompleteClaimedInvalidation | packages/adapters/src/drizzle-d1/drizzleIdempotencyStore.ts:426-456 | The same for completing with a result |
| IdempotencyStore.ClaimAllAt | packages/adapters/src/drizzle-d1/drizzleIdempotencyStore.ts:279-327 | A claim call leases each scanned row for the given time or poisons it, and touches no other row |
| IdempotencyProofs.ExactlyOnce | packages/adapters/src/drizzle-d1/drizzlePersistenceProvider.ts:695-758 | In every run a key has at most one business mutation, and has one exactly when its row has left in-progress |
| IdempotencyProofs.NoLostInvalidation | packages/adapters/src/http/createFrameworkWriteHandler.ts:562-631 | After a commit every owed tag is invalidated later, still listed in the row, or in a column corrupted from outside, across handlers, replays, finalizers and crashes |
| IdempotencyProofs.ObligationStaysScannable | packages/adapters/src/drizzle-d1/drizzleIdempotencyStore.ts:249-268 | Without outside corruption an owed tag sits in a business-committed row that the finalizer's scan finds |
| IdempotencyProofs.OwedMeansUndischarged | packages/adapters/src/http/createFrameworkWriteHandler.ts:732-812 | The running record of owed tags is the positional one: committed, and not invalidated since |
| IdempotencyProofs.CompletedIsStable | packages/adapters/src/drizzle-d1/drizzleIdempotencyStore.ts:458-484 | Completed is absorbing and its response never changes, whatever runs afterwards |
| IdempotencyProofs.AllRepliesAgree | packages/adapters/src/drizzle-d1/drizzleIdempotencyStore.ts:538-572 | Every reply ever given for a key is the same response, to the same fingerprint |
| IdempotencyProofs.OnlyOneOwner | packages/adapters/src/drizzle-d1/drizzlePersistenceProvider.ts:713-740 | Of two handlers running one key at most one passes the ownership assertion of the batch |
| IdempotencyProofs.RecoverNeverCommits | packages/adapters/src/drizzle-d1/drizzleIdempotencyStore.ts:345-363 | A recovery always finds its own mutation committed, so it never moves a row out of in-progress |
| IdempotencyProofs.FinalizerOnlyAcks | packages/adapters/src/http/idempotencyFinalizer.ts:47-68 | No reachable claim carries a result, so the finalizer only ever acknowledges |
| IdempotencySteps.TakesOverIff | packages/adapters/src/drizzle-d1/drizzleIdempotencyStore.ts:103-121 | The handler's takeover statement hits exactly an in-progress row of the same request older than the lease; the row then carries the new token and time, and the handler runs under that token |
| IdempotencySteps.AbandonedReservationIsTakenOver | packages/adapters/src/drizzle-d1/drizzleIdempotencyStore.ts:55-140 | A request repeated over an abandoned reservation runs under it after its lease, and is refused before |
| IdempotencySteps.HeartbeatHoldsOff | packages/adapters/src/http/createFrameworkWriteHandler.ts:732-784 | After a heartbeat of the owner a takeover succeeds exactly when more than the lease has passed since |
| IdempotencySteps.OwnerRunsToReply | packages/adapters/src/http/createFrameworkWriteHandler.ts:732-812 | An owner left alone mutates once, then invalidates each declared tag in order, then replies; the row keeps the response and owes nothing |
| IdempotencySteps.NewRequestIsServed | packages/adapters/src/http/createFrameworkWriteHandler.ts:562-812 | The same from the first insert of a key nobody has used |
| IdempotencySteps.FirstRequestIsServed | packages/adapters/src/http/createFrameworkWriteHandler.ts:562-812 | From the empty table, for every request with an allowed lease there is a run that serves it |
| IdempotencySteps.RecoveryMarksOwned | packages/adapters/src/http/createFrameworkWriteHandler.ts:807-812 | A handler that cannot store its response marks the row it owns committed and fails |
| IdempotencySteps.CommittedRequestIsFinished | packages/adapters/src/http/createFrameworkWriteHandler.ts:574-617 | A request repeated after its commit never mutates again: it invalidates what is owed, and completes the row when the resource can be read back |
| IdempotencySteps.ScanLeasesIff | packages/adapters/src/drizzle-d1/drizzleIdempotencyStore.ts:249-326 | The finalizer's scan finds a row exactly when it is committed, owes something and is under no unexpired lease; the row is then leased, or poisoned when its column does not parse |
| IdempotencySteps.ScanTakesIff | packages/adapters/src/drizzle-d1/drizzleIdempotencyStore.ts:248-268 | A scan takes at most a hundred different rows, each committed, owing and under no unexpired lease, as they are |
| IdempotencySteps.ClaimIsFenced | packages/adapters/src/drizzle-d1/drizzleIdempotencyStore.ts:267-326 | A scanned row is leased or poisoned only while it is still committed under the token the scan read, and leased only while it still owes and is free |
| IdempotencySteps.PoisonIsFenced | packages/adapters/src/drizzle-d1/drizzleIdempotencyStore.ts:330-343 | Poisoning hits the row only while it is committed under the token read |
| IdempotencySteps.FinalizerFreesRow | packages/adapters/src/http/idempotencyFinalizer.ts:19-75 | A finalizer left alone leases an owing row, invalidates each of its tags once, and frees the row |
| Finalizer.FinalizeEntry | packages/adapters/src/http/idempotencyFinalizer.ts:40-72 | An entry is completed or acknowledged exactly when all its tags could be invalidated and its lease is live; then every tag's generation has advanced |
| Finalizer.DrainClaims | packages/adapters/src/http/idempotencyFinalizer.ts:38-74 | The counters count the entries with and without a result that were worked off; failures leave their rows for a later pass |
| Finalizer.DrainPendingInvalidations | packages/adapters/src/http/idempotencyFinalizer.ts:19-75 | A whole pass: claim, invalidate, settle |
| Finalizer.DrainAllAt | packages/adapters/src/http/idempotencyFinalizer.ts:40-72 | A row held under a live lease is freed exactly when its claim can be invalidated, whatever the other claims do |
| Finalizer.PassAt | packages/adapters/src/http/idempotencyFinalizer.ts:32-72 | What a pass does to each row: freed, kept leased with its obligation, poisoned, or untouched |
| AtomicBatch.BatchRunsThePlan | packages/adapters/src/drizzle-d1/drizzlePersistenceProvider.ts:642-807 | The statement list of a plan, run as one batch, commits exactly when the items taken one by one go through, with their state, and each item finds its own results at its own offset |
| AtomicBatch.CountFindsStatements | packages/adapters/src/drizzle-d1/drizzlePersistenceProvider.ts:814-819 | Counting the entries that carry an item's index finds exactly its statements |
| AtomicBatch.Precheck | packages/adapters/src/drizzle-d1/drizzlePersistenceProvider.ts:604-641 | The loop passes exactly when no key stands for two events in the plan or in what was read, and collects the events found |
| AtomicBatch.Align | packages/adapters/src/drizzle-d1/drizzlePersistenceProvider.ts:808-833 | The walk with a moving offset gives every item the results of its own statements |
| AtomicBatch.D1Provider.ExecuteAtomicBatch | packages/adapters/src/drizzle-d1/drizzlePersistenceProvider.ts:593-834 | A reused key, too many statements or a statement that raises changes nothing; otherwise all items take effect and each is told its result |
| AtomicBatchProofs.CommitsIff | packages/adapters/src/drizzle-d1/drizzlePersistenceProvider.ts:652-807 | A batch commits if and only if its commands violate no constraint and affect the rows they expect, its receipts are owned and its new events have unused keys; the state left is that of the four parts separately |
| AtomicBatchProofs.ReceiptFencesTheBatch | packages/adapters/src/drizzle-d1/drizzlePersistenceProvider.ts:713-758 | With one receipt, wherever it stands, nothing takes effect unless the row is in progress under this fingerprint and token, and otherwise the row is marked committed with its tags and resource together with everything else |
| AtomicBatchProofs.BatchIsTheTransaction | packages/adapters/src/drizzle-pg/drizzleIdempotencyStore.ts:153-182 | D1's assertion and receipt commit exactly when PostgreSQL's guarded update at the end of a transaction affects one row, and leave the same state |
| AtomicBatchProofs.EventsAreRecorded | packages/adapters/src/drizzle-d1/drizzlePersistenceProvider.ts:604-641 | Whatever other writers did between precheck and batch, a commit leaves every event of the plan under its scope and key with its content, changes no older event and adds no other |
| AtomicBatchProofs.PlanKeysAgreeIff | packages/adapters/src/drizzle-d1/drizzlePersistenceProvider.ts:604-612 | The joined plan keys of two events agree exactly for one scope and key, unless a NUL in a scope lets one run on into the other |
| AtomicBatchProofs.PrecheckRefusesReuse | packages/adapters/src/drizzle-d1/drizzlePersistenceProvider.ts:604-641 | For scopes without NUL the precheck refuses exactly different contents under one scope and key, in the plan or against what was read |
| AtomicBatchProofs.EventTwiceAborts | packages/adapters/src/drizzle-d1/drizzlePersistenceProvider.ts:599-641 | An event listed twice and not yet recorded always aborts the batch |
| AtomicBatchProofs.SecondWriterAborts | packages/adapters/src/drizzle-d1/drizzlePersistenceProvider.ts:599-603 | Of two batches that both saw an event absent, the second aborts as a whole |
| JobStore.BatchRefinesTransaction | packages/adapters/src/drizzle-d1/d1Session.ts:27-56 | D1's batch equals PostgreSQL's transaction if and only if no row but the updated one carries the marker token beforehand |
| JobStore.BatchWithFreshMarker | packages/adapters/src/drizzle-pg/pgSession.ts:25-41 | With a fresh marker: one history row if the guarded update hit, none if it missed, and no marker left |
| JobStore.ClaimPass | packages/adapters/src/drizzle-d1/drizzleJobStore.ts:458-534 | Over the columns: a candidate is claimed under its own token only if it is in scope, has attempts left and is due or abandoned; a wanted one is left alone only when a sibling of its partition is running under a live lease |
| JobStore.ClaimPassFrame | packages/adapters/src/drizzle-d1/drizzleJobStore.ts:493-513 | A pass changes no history, no unlisted row and no live row |
| JobStore.D1JobStore.ClaimDue | packages/adapters/src/drizzle-d1/drizzleJobStore.ts:458-534 | The rows returned are exactly the candidates that carry the token drawn for them under a live lease |
| JobStore.ClaimantHoldsToken | packages/adapters/src/drizzle-d1/drizzleJobStore.ts:485-532 | A claim update hit exactly when the row carries that candidate's token after the pass |
| JobStore.D1JobStore.RenewLease | packages/adapters/src/drizzle-d1/drizzleJobStore.ts:536-554 | Renewal extends a lease still held by this worker and token, and otherwise changes nothing |
| JobStore.D1JobStore.Transition | packages/adapters/src/drizzle-d1/drizzleJobStore.ts:556-716 | A settlement applies exactly under the live lease, token and attempt, with attempts left for a retry; each verdict stores its own status, in the job and in the history row, which only best-effort history may lose |
| JobStore.D1JobStore.CancelRequired | packages/adapters/src/drizzle-d1/drizzleJobStore.ts:718-795 | Cancelling hits anything visible that has not succeeded, been cancelled or dead-lettered, together with its history row |
| JobProofs.PartitionExclusion | packages/adapters/src/drizzle-d1/drizzleJobStore.ts:493-513 | In every run whose database clock does not go back, at the present and every later database time, at most one job of a non-null partition runs under a live lease |
| JobProofs.ExclusionHoldsExactlyFromNow | packages/adapters/src/drizzle-d1/drizzleJobStore.ts:493-513 | With such a clock, exclusion can be relied on at a reading in every run that ends at a database time if and only if the reading is not before it |
| JobProofs.SetBackBreaksExclusion | packages/adapters/src/drizzle-d1/drizzleJobStore.ts:493-513 | However little the clock is set back, there is a run in which that alone makes two jobs of one partition live at present |
| JobProofs.SettledUnderLatestClaim | packages/adapters/src/drizzle-d1/drizzleJobStore.ts:556-716 | Whatever the clock does, every settlement was made under the token and attempt of the job's latest claim, with nothing done to the job in between |
| JobProofs.SettlesOnlyUnderLiveLease | packages/adapters/src/drizzle-d1/drizzleJobStore.ts:844-884 | A settle call changes anything if and only if the caller holds the latest unspent claim, its lease is live and a retry has attempts left |
| JobProofs.TokenConsumedOnce | packages/adapters/src/drizzle-d1/drizzleJobStore.ts:556-716 | A claim token is consumed at most once |
| JobProofs.AttemptsCountClaims | packages/adapters/src/drizzle-d1/drizzleJobStore.ts:462-513 | Attempts equals the number of claims and never passes the limit |
| JobProofs.HistoryMatchesTransitions | packages/adapters/src/drizzle-d1/drizzleJobStore.ts:844-884 | With required history the rows are exactly the applied settlements and cancellations, in order |
| JobProofs.NoMarkerRemains | packages/adapters/src/drizzle-d1/d1Session.ts:27-56 | No row is left carrying a transition marker |
| JobProofs.TerminalIsAbsorbing | packages/adapters/src/drizzle-d1/drizzleJobStore.ts:718-795 | Succeeded, cancelled and dead-lettered jobs never change again |
| JobProofs.ExhaustedJobIsStranded | packages/adapters/src/drizzle-d1/drizzleJobStore.ts:462-484 | A job whose lease lapses on its last attempt never changes again unless it is cancelled or the clock goes back |
| JobProofs.AbandonedJobReclaimable | packages/adapters/src/drizzle-d1/drizzleJobStore.ts:462-484 | A running job can be claimed again if and only if its lease lapsed, it has attempts left and its partition is free |
| JobProofs.OneJobPerKey | packages/adapters/src/drizzle-d1/drizzleJobStore.ts:283-392 | An idempotency key names at most one job within its scope |
| JobProofs.SubmitStoresIff | packages/adapters/src/drizzle-d1/drizzleJobStore.ts:283-392 | Enqueueing under a free id stores the job exactly when no job of its tenant, or of its scope among those without one, has its key |
| JobVerdicts.VerdictIsStored | packages/adapters/src/drizzle-d1/drizzleJobStore.ts:556-716 | In every run an applied verdict stores exactly its status, frees the lease, and adds one history row of that status |
| JobVerdicts.FinalVerdictStands | packages/adapters/src/drizzle-d1/drizzleJobStore.ts:556-607 | After a success or a burial the job never changes again, whatever runs afterwards |
| JobVerdicts.FailureIsNotRetried | packages/adapters/src/drizzle-d1/drizzleJobStore.ts:664-724 | After a failure the job stays failed or cancelled and is never claimed again, and whoever may see it can cancel it while it is failed |
| JobVerdicts.RetryWaitsForItsTime | packages/adapters/src/drizzle-d1/drizzleJobStore.ts:458-513 | After a retry the job stays as it is until it is claimed or cancelled, and with no sibling running it can be claimed exactly from its time on |
| JobVerdicts.ClaimSucceedsIff | packages/adapters/src/drizzle-d1/drizzleJobStore.ts:458-513 | The exact condition and effect of one claim over the columns of the job and its siblings |
| JobVerdicts.RenewalExtendsIff | packages/adapters/src/drizzle-d1/drizzleJobStore.ts:536-554 | A renewal for a positive time extends exactly a lease this worker and token still hold |
| CacheService.TagGenerationStore.AdvanceTagGeneration | packages/adapters/src/cache/dbTagGenerationStore.ts:78-99 | The upsert moves one tag by one, returns its new generation, and leaves the others |
| CacheService.CacheService.InvalidateTags | packages/core/src/cache/cacheService.ts:197-217 | Tags advance in order up to the first that cannot; success exactly when none is broken |
| CacheService.CacheService.GetOrSet | packages/core/src/cache/cacheService.ts:71-127 | Undisturbed, a call serves what is stored under the current generations or fills it, and touches nothing else |
| CacheService.CacheService.ReadGenerations | packages/core/src/cache/cacheService.ts:232-261 | The vector lists the generation of each tag in order |
| CacheProofs.ReturnedValueIsFresh | packages/core/src/cache/cacheService.ts:71-127 | Over every interleaving a returned value, hit, joined or resolved, reflects every write whose invalidation of one of the call's tags finished before the call began, although generations are read one at a time, where of two lists of one length under one key every tag lies on a cycle; that hypothesis is exact, as the next results say |
| CacheProofs.HitIsFreshAtRecheck | packages/core/src/cache/cacheService.ts:82-87 | A hit moreover reflects everything invalidated before its second reading began |
| CacheProofs.ResolvesOnce | packages/core/src/cache/cacheService.ts:91-118 | The resolver of a fill answers once, with a value no older than the fill |
| CacheProofs.FinishFreesSlot | packages/core/src/cache/cacheService.ts:120-127 | A waiting call returns what the fill has, or throws when it broke; only the call that started the fill takes it out of the table in flight, and only if it still stands there |
| CacheCycles.FreshIffCircular | packages/core/src/cache/cacheService.ts:228-230 | For all lists of tags: no run returns a stale value if and only if, of any two lists of one length used for one key, every tag of either lies on a cycle of steps from a tag to the one in its place in the other list |
| CacheCycles.EscapeIsStale | packages/core/src/cache/cacheService.ts:71-127 | For any tag from which such steps do not lead back, a run in which a call joins an open fill under the other list and returns a stale value |
| CacheCycles.PermutedIsCircular | packages/core/src/cache/cacheService.ts:228-230 | Permuted lists make cycles only |
| CacheCycles.FreshIffSameTags | packages/core/src/cache/cacheService.ts:228-230 | For lists without repeated tags the condition is that lists of one length under one key hold the same tags |
| CacheCycles.SameTagsCanBeStale | packages/core/src/cache/cacheService.ts:228-230 | With repeated tags the same tags are not enough: two lists and a stale run |
| CacheCycles.RepeatsNeedNotBePermuted | packages/core/src/cache/cacheService.ts:228-230 | And permutation is not needed: two lists that are fresh together without it |
| CacheUses.CollisionIsStale | packages/core/src/cache/cacheService.ts:228-230 | For any two lists of equal length, with or without repeats, of which one has a tag the other lacks, a run that serves a stale value out of the store |
| StableSort.SortPermutes | packages/core/src/cache/cache.ts:7-19 | The sort permutes |
| StableSort.SortIsStable | packages/core/src/cache/cache.ts:7-19 | The sort keeps the order within each rank |
| StableSort.SortsAlikeIff | packages/core/src/cache/cache.ts:7-19 | Two lists sort to the same list if and only if they agree, in order, within every rank |
| CacheKeyText.PrintIsPrefixFree | packages/core/src/cache/cache.ts:117-119 | A JSON tree can be read off the front of a text in one way only, so its text determines it |
| CacheKeyText.ComponentRoundTrip | packages/core/src/cache/cache.ts:126-128 | Percent decoding undoes the encoding of a key part |
| CacheKeyText.ComponentIsPlain | packages/core/src/cache/cache.ts:126-128 | An encoded part holds unreserved characters and escapes only (section 2.1 of RFC 3986), so no separator |
| CacheKeyChars.EncodedChar | packages/core/src/cache/cache.ts:126-128 | Exactly letters, digits and nine marks stand for themselves in a key part; any other character is its UTF-8 bytes as percent signs with two upper-case digits |
| CacheKeyChars.EncodesInOrder | packages/core/src/cache/cache.ts:126-128 | A part is encoded character by character |
| CacheKeyChars.EscapedChar | packages/core/src/cache/cache.ts:117-119 | Exactly quotes, backslashes and control characters are escaped in serialized text, and how |
| CacheKeyChars.IsIndexIff | packages/core/src/cache/cache.ts:95-113 | The field names ordered by number are exactly the decimal texts of 0 to 4294967294 |
| CacheKeyChars.NumbersComeInOrder | packages/core/src/cache/cache.ts:95-113 | Such fields come in the order of their numbers |
| CacheKeyChars.OthersFollow | packages/core/src/cache/cache.ts:95-113 | All other fields follow by code unit |
| CacheKeyText.BuildKeyIsInjective | packages/core/src/cache/cache.ts:121-136 | A key names one triple of prefix, scope and suffix |
| CacheKeyText.BuildKeySucceedsIff | packages/core/src/cache/cache.ts:129-135 | A key is refused exactly when the sizes of its escaped parts and two separators pass the limit |
| CacheKeyProofs.CanonicalIff | packages/core/src/cache/cache.ts:30-115 | At any depth, same values are accepted alike, and accepted values have one canonical form exactly when they are the same up to the order of fields, set members and entries under different keys |
| CacheKeyProofs.SerializesAlikeIff | packages/core/src/cache/cache.ts:117-119 | Two values serialize alike if and only if they are the same in that sense |
| CacheKeyProofs.SetOrderIsFree | packages/core/src/cache/cache.ts:71-81 | The order in which a set was filled does not show |
| CacheKeyProofs.MapOrderIsFreeIff | packages/core/src/cache/cache.ts:56-70 | The order in which a map was filled never shows if and only if entries under the same key hold the same value |
| CacheKeyProofs.KeysAgreeIff | packages/core/src/cache/cache.ts:117-136 | Two reads share a cache key if and only if prefix and scope are equal and their values the same |
| CacheKeyProofs.StorageKeysAreDistinct | packages/core/src/cache/cacheService.ts:228-230 | The text under which a value is stored determines the key and the generation vector, for keys without a quote, as every built key is |
| InMemoryCache.InMemoryCacheAdapter.PruneExpired | packages/adapters/src/cache/inMemoryCacheAdapter.ts:37-53 | The sweep loops leave exactly the unexpired values with their revisions and the open windows, and what the plain map shows is still shown |
| InMemoryCache.InMemoryCacheAdapter.NoteMutation | packages/adapters/src/cache/inMemoryCacheAdapter.ts:55-63 | A mutation never leaves a sweep overdue, and its sweep changes nothing that the plain map shows |
| InMemoryCache.InMemoryCacheAdapter.Get | packages/adapters/src/cache/inMemoryCacheAdapter.ts:82-86 | While the clock does not go back, a get answers as a plain map that removes nothing by age, and goes on agreeing with it |
| InMemoryCache.InMemoryCacheAdapter.Has | packages/adapters/src/cache/inMemoryCacheAdapter.ts:111-114 | The same for has |
| InMemoryCache.InMemoryCacheAdapter.Set | packages/adapters/src/cache/inMemoryCacheAdapter.ts:89-100 | After a set the adapter agrees with the plain map that holds the value until its time has come |
| InMemoryCache.InMemoryCacheAdapter.Delete | packages/adapters/src/cache/inMemoryCacheAdapter.ts:103-108 | After a delete the adapter agrees with the plain map without the key; a live entry is always reported as having existed, and nothing is that was not set |
| InMemoryCache.InMemoryCacheAdapter.IncrementRateLimitAtomically | packages/adapters/src/cache/inMemoryCacheAdapter.ts:171-185 | The bucket returned is the one the plain map counts, although swept buckets are opened anew |
| InMemoryCache.PruneIsInvisible | packages/adapters/src/cache/inMemoryCacheAdapter.ts:37-63 | A sweep keeps the agreement with a map that never sweeps |
| InMemoryCache.PruningIsUnobservable | packages/adapters/src/cache/inMemoryCacheAdapter.ts:19-114 | Over every run, get, has and rate-limit answers are those of a plain map that removes nothing by age, and values and revisions carry the same keys and numbers |
| InMemoryCache.DeleteShowsPruning | packages/adapters/src/cache/inMemoryCacheAdapter.ts:103-108 | The answer of delete is the one thing a sweep changes: it differs exactly for an entry that has expired and was not swept, while both stores show the same map |
| InMemoryCache.LapsedEntryExists | packages/adapters/src/cache/inMemoryCacheAdapter.ts:103-108 | Such an entry is reached, and a get or a has of its key makes it go |
| CacheAnswers.GetAnswersLastSet | packages/adapters/src/cache/inMemoryCacheAdapter.ts:65-114 | Over every run a get answers with the value last set until its time to live has passed since, and with nothing after a delete; a time of zero is no limit; has agrees |
| CacheAnswers.FirstCallOpensWindow | packages/adapters/src/cache/inMemoryCacheAdapter.ts:171-185 | The first rate-limit call for a key opens a window of the length it names |
| CacheAnswers.LaterCallCountsOn | packages/adapters/src/cache/inMemoryCacheAdapter.ts:171-185 | A later call counts one more in the window last answered while that is open, and opens a new one from its end on |
| CacheAnswers.LimitCountsCalls | packages/adapters/src/cache/inMemoryCacheAdapter.ts:171-185 | Every count is the number of calls for the key since the call that opened its window |
| Predicates.EvalAll | packages/core/src/domain/evaluatePredicate.ts:244-252 | A conjunction holds when all members hold and fails when one fails |
| Predicates.EvalAny | packages/core/src/domain/evaluatePredicate.ts:253-261 | A disjunction holds when one member holds and fails when all fail |
| Predicates.DefiniteAgrees | packages/core/src/domain/evaluatePredicate.ts:235-269 | Where three-valued truth is definite, collapsing unknown at the conditions changes nothing |
| Predicates.NotFreeAgrees | packages/core/src/domain/evaluatePredicate.ts:228-269 | Without NOT, collapsing early and collapsing at the end select the same records |
| Predicates.NegationAgreesIffDefinite | packages/core/src/domain/evaluatePredicate.ts:262-265 | Under NOT they agree if and only if the operand is definite |
| Predicates.PartialIffSometimesUnknown | packages/core/src/domain/evaluatePredicate.ts:114-219 | A condition is unknown on some record exactly when it compares the field with something |
| Predicates.GuardedNegationAgrees | packages/core/src/domain/evaluatePredicate.ts:235-269 | With no comparison below a NOT the two readings agree on every record |
| SqlPredicates.CompileAll | packages/adapters/src/drizzle-shared/predicateCompiler.ts:162-176 | Children compile in order, or the first error wins |
| SqlPredicates.SqlAll | packages/adapters/src/drizzle-shared/predicateCompiler.ts:162-170 | SQL's AND over any number of operands |
| SqlPredicates.SqlAny | packages/adapters/src/drizzle-shared/predicateCompiler.ts:171-177 | SQL's OR over any number of operands |
| SqlProofs.PatternMeansTextTest | packages/adapters/src/drizzle-shared/predicateCompiler.ts:29-31 | The escaped LIKE pattern matches exactly the texts that contain, start or end with the value, whatever characters it holds |
| SqlProofs.CompilesIff | packages/adapters/src/drizzle-shared/predicateCompiler.ts:71-149 | Compilation throws exactly when some condition is unmapped or has a value its operator refuses, a missing one included |
| SqlProofs.CompiledIsNeverNull | packages/adapters/src/drizzle-shared/predicateCompiler.ts:67-69 | What is emitted is never NULL, on any row |
| SqlProofs.LeafAgrees | packages/adapters/src/drizzle-shared/predicateCompiler.ts:71-149 | For one fitting condition read alike on the cell, SQL holds on the stored row exactly when the condition holds in memory, up to the dialect's LIKE |
| SqlProofs.SqlIsTheCollapsedReading | packages/adapters/src/drizzle-shared/predicateCompiler.ts:151-186 | For every tree and record of matching types, in either dialect, the SQL is the two-valued reading of the tree, provided no text test has a value whose case the dialect ignores and each condition is read alike on the record as the two results on single conditions say |
| SqlProofs.SqlAgreesWhereDefinite | packages/core/src/domain/evaluatePredicate.ts:228-269 | SQL equals the in-memory truth wherever that is definite, so a match in memory is a match in SQL |
| SqlProofs.SqlEqualsEvaluate | packages/core/src/domain/evaluatePredicate.ts:228-233 | On NOT-free trees, and on trees with no comparison below a NOT, SQL equals the evaluator outright |
| SqlProofs.NegationDivergesExactlyOnUnknown | packages/adapters/src/drizzle-shared/predicateCompiler.ts:178-179 | Under NOT they differ exactly on the records that leave the operand unknown |
| SqlProofs.NegatedConditionAgreesIff | packages/adapters/src/drizzle-shared/predicateCompiler.ts:178-179 | A negated condition means the same on all records if and only if it does not compare |
| SqlProofs.MatchIsSelected | packages/adapters/src/drizzle-shared/predicateCompiler.ts:86-103 | Also under case-insensitive LIKE a NOT-free match in memory is selected |
| SqlProofs.TextTestAgreesIff | packages/adapters/src/drizzle-shared/predicateCompiler.ts:86-91 | A text test selects on every record what it matches in memory if and only if LIKE tells letters of different case apart or the value holds no ASCII letter |
| SqlProofs.ConditionAgreesIff | packages/adapters/src/drizzle-shared/predicateCompiler.ts:71-149 | Any other fitting condition but between selects a fitting record in SQL as it matches it in memory if and only if texts that are ordered do not first differ across the surrogates, a date sorts against the text as its rendering does, text that names the date of the record comes with its rendering, and a stored list is empty text just when the list is empty |
| Simplifier.SimplifyKeepsTruth | packages/core/src/domain/predicateSimplifier.ts:3-38 | Simplifying keeps the exact three-valued truth on every record |
| Simplifier.SimplifyKeepsReading | packages/core/src/domain/predicateSimplifier.ts:3-38 | And the two-valued reading, hence what SQL selects |
| Simplifier.SimplifyIsSimple | packages/core/src/domain/predicateSimplifier.ts:3-38 | The result is a literal, or holds no literal and no group of fewer than two |
| Simplifier.SimplifyIsIdempotent | packages/core/src/domain/predicateSimplifier.ts:3-38 | Simplifying twice is simplifying once |
| Simplifier.GuardIsTheSimplifier | packages/adapters/src/drizzle-d1/drizzleRepository.ts:250-284 | The repository's separate recursion says always true or always false exactly when the simplifier yields that literal |
| Simplifier.RefusedFilterMatchesEveryRow | packages/adapters/src/drizzle-d1/drizzleRepository.ts:286-296 | A refused destructive filter matches every record by either reading |
| FilterGuard.RefusedFilterSelectsEveryRow | packages/adapters/src/drizzle-d1/drizzleRepository.ts:286-296 | The compiled form of a refused filter, whatever its conditions, selects every row, and that of its dual none |
| FilterGuard.ComparingGuardIsExact | packages/adapters/src/drizzle-d1/drizzleRepository.ts:250-284 | On filters whose conditions all compare, the guard refuses exactly what matches every record in memory, and its dual says exactly what fails on every record |
| FilterGuard.IndependentGuardIsExact | packages/adapters/src/drizzle-d1/drizzleRepository.ts:250-284 | The same by either reading where members of a group name different fields and no condition is decided by its value alone |
| FilterGuard.EveryCellMeetsIff | packages/core/src/domain/evaluatePredicate.ts:114-219 | The one condition that every value of its field meets is a range without bounds |
| FilterGuard.GuardMissesTautologies | packages/adapters/src/drizzle-d1/drizzleRepository.ts:250-265 | Outside those classes filters that match every record pass: a field named twice in one group, and a range without bounds |
| FilterGuard.GuardMissesExcludedMiddle | packages/adapters/src/drizzle-d1/drizzleRepository.ts:250-265 | A comparison or its negation passes too: it matches every record in SQL and in memory those that have the field |
| PolicyConditions.CoerceEach | packages/core/src/domain/abacConditionCompiler.ts:233-239 | The list built value by value is the coerced list, or nothing when one value does not coerce |
| PolicyConditions.TreesToPredicates | packages/core/src/domain/abacConditionCompiler.ts:379-403 | A group compiles exactly when all members do, member by member |
| PolicyConditions.FindFirst | packages/core/src/domain/predicate.ts:271-384 | A gate finds nothing exactly when it refuses no condition of the tree |
| PolicyConditions.GatesTogether | packages/core/src/domain/abacPolicyNormalizer.ts:286-333 | Passing the three gates one after the other is passing them all at once |
| PolicyConditions.NormalizeAbacPolicy | packages/core/src/domain/abacPolicyNormalizer.ts:202-349 | The first stage that objects is reported: catalog, header and window and module together, compilation, portability, support; otherwise the policy is accepted with its stored form, inactive exactly outside its window |
| PolicyConditions.HeaderErrorsAre | packages/core/src/domain/abacPolicyNormalizer.ts:216-227 | The loop over the header checks reports exactly a wrong effect, a priority that is no safe integer and an unknown scope type, in that order |
| PolicyProofs.ClauseAcceptedIff | packages/core/src/domain/abacConditionCompiler.ts:151-356 | A clause compiles and passes every gate if and only if it is a null test, a boolean test, an equality with a non-null scalar, an ordering of numbers, or a list that turned out empty |
| PolicyProofs.TreeAcceptedIff | packages/core/src/domain/abacConditionCompiler.ts:364-408 | The same for whole trees |
| PolicyProofs.PolicyAcceptedIff | packages/core/src/domain/abacConditionCompiler.ts:410-433 | And for the two trees of a policy |
| PolicyProofs.ClauseIsPortable | packages/core/src/domain/abacPolicyNormalizer.ts:189-200 | A stored clause fits the catalog and matches exactly the records the stored reading of the clause means, whatever text date fields hold |
| PolicyProofs.CompiledClauseMeansTheClause | packages/core/src/domain/abacConditionCompiler.ts:151-356 | Before it is stored, the compiled clause matches exactly the records the clause means as given |
| PolicyValues.CoercesIff | packages/core/src/domain/coercePolicyValue.ts:37-105 | Coercion yields a value exactly when the raw value stands for it in the field's type |
| PolicyValues.AttributeDecides | packages/core/src/domain/abacConditionCompiler.ts:22-29 | A comparing clause that names one of the five user attributes is accepted, and matches a record, exactly as the cell compares with the value the context gives, whatever the clause carries itself; without one it is rejected |
| PolicyValues.OwnValueDecides | packages/core/src/domain/abacConditionCompiler.ts:93-99 | A clause that names no attribute is decided by its own value in the same way |
| PolicyValues.UnknownAttributeDecides | packages/core/src/domain/abacConditionCompiler.ts:22-29 | An unknown attribute name stands for no value, which only text fields coerce to something |
| PolicyValues.ListClauseMeans | packages/core/src/domain/abacConditionCompiler.ts:198-251 | Compiled list clauses over texts: any shared text, all listed texts held, or the text listed; an empty list matches nothing |
| PolicyValues.ListOfOneValue | packages/core/src/domain/abacConditionCompiler.ts:203-208 | A list clause without a list stands for the list of the one value that decides, or for the empty list |
| PolicyValues.TextClauseMeans | packages/core/src/domain/abacConditionCompiler.ts:316-342 | Compiled text tests match within, in front or at the end of the text held, and need text as their value |
| PolicyValues.EmptyClauseMeans | packages/core/src/domain/abacConditionCompiler.ts:161-164 | Emptiness is missing, null, the empty text or the empty list; its negation is everything else |
| PolicyValues.RangeClauseMeans | packages/core/src/domain/abacConditionCompiler.ts:261-306 | A compiled range over texts has inclusive bounds in UTF-16 order, either of which may be missing |
| PolicyProofs.StorageChangesClauseIff | packages/core/src/domain/abacPolicyNormalizer.ts:189-200 | Storing changes what a clause says about a record if and only if a date equality meets text that parses to its instant without being its ISO form |
| PolicyProofs.StorageKeepsTree | packages/core/src/domain/abacPolicyNormalizer.ts:189-200 | Where no date equality of a tree meets such text, the stored tree means the tree as given |
| PolicyProofs.TreeIsPortable | packages/core/src/domain/abacConditionCompiler.ts:364-408 | A stored tree is NOT-free, uses surviving operators only, and matches the stored reading of its AND/OR tree on every record of the catalog's types |
| PolicyProofs.AcceptedPolicyMeansTheSame | packages/core/src/domain/abacPolicyNormalizer.ts:202-349 | An accepted policy compiles to SQL; memory, SQL in either dialect and the stored condition trees agree on every record of the catalog's types, and agree with the trees as given unless a date equality meets text that is another form of its date |
| PolicyProofs.DayTextIsLost | packages/core/src/domain/abacPolicyNormalizer.ts:189-200 | A day as policy value and the same day as stored text: met as given, missed once stored, in memory and in SQL |
| PolicyProofs.DurableFormChangesOnlyNoncanonicalText | packages/core/src/domain/abacPolicyNormalizer.ts:189-200 | Turning dates into strings changes an equality exactly on text that parses to the date without being its ISO form |
| AccessDecisions.Priorities | packages/core/src/foundation/abacTierDecision.ts:29-31 | The distinct priorities, strictly descending |
| AccessDecisions.DecisionAtTop | packages/core/src/foundation/abacTierDecision.ts:33-58 | With a match, the highest matching tier decides and any deny in it wins |
| AccessDecisions.DecisionWithoutMatch | packages/core/src/foundation/abacTierDecision.ts:60-65 | Without one, the default decides |
| AccessDecisions.DecisionIgnoresOrder | packages/core/src/foundation/abacTierDecision.ts:13-66 | Decision, reason and tier do not depend on the order of the list |
| AccessDecisions.GroupByPriority | packages/core/src/foundation/policyTierResolver.ts:20-26 | The grouping holds each tier in list order |
| AccessDecisions.BuildTieredPolicyOutcome | packages/core/src/foundation/policyTierResolver.ts:11-64 | The loop builds one clause a tier over the negation of all tiers above |
| AccessDecisions.ScopeReads | packages/core/src/foundation/policyTierResolver.ts:34-61 | The filter reads true exactly when the highest tier that applies has an allow and no deny that applies |
| AccessDecisions.ScopeIsTheDecision | packages/core/src/domain/abacReadScope.ts:22-62 | The filter's two-valued reading is the record decision |
| AccessDecisions.ScopeSelectsAllowedRecords | packages/core/src/domain/abacReadScope.ts:22-70 | The compiled scope selects exactly the records whose own decision allows the action, except that a default of allow is not honoured where relevant policies exist and none matches |
| AccessDecisions.ScopeInMemory | packages/core/src/foundation/policyTierResolver.ts:45-60 | Evaluated in memory the filter matches exactly when the deciding allow is known to decide, so it can only lose records |
| AccessDecisions.ScopeKeepsAllowedIff | packages/core/src/foundation/policyTierResolver.ts:45-60 | Of the records the decision allows, the filter keeps in memory exactly those on which every policy above the deciding priority and every deny at it is known not to apply |
| AccessDecisions.RecordIsLostInMemory | packages/core/src/foundation/policyTierResolver.ts:45-60 | A policy list and records it loses: a deny above that compares a field they lack |
| FieldWrites.AssertMatchedPolicyWritableFields | packages/core/src/domain/fieldWriteInternals.ts:5-70 | The loops over policies and fields compute the refused fields of the top tier, in order |
| FieldWrites.EnforceAbacWrite | packages/core/src/domain/abacWrite.ts:113-167 | The statements permit a write exactly when a policy for the action holds on the record, none at the highest such priority denies, and the write lists there cover every changed field; a field refusal names exactly the refused fields in order |
| FieldWrites.OutcomeAtTop | packages/core/src/domain/abacWrite.ts:121-158 | The whole outcome when a policy matches |
| FieldWrites.OutcomeWithoutMatch | packages/core/src/domain/abacWrite.ts:95-109 | The whole outcome when none does |
| FieldWrites.WritePermittedIff | packages/core/src/domain/abacWrite.ts:113-167 | A write passes if and only if a policy matches, the highest matching tier has no matching deny, and every changed field is covered by an allow there (fields do not matter for a delete) |
| FieldWrites.MayWriteIff | packages/core/src/domain/abacWrite.ts:113-167 | The same rule over the policies as they are written: module, action, condition, effect, priority and write list |
| FieldWrites.RefusedFieldsAre | packages/core/src/domain/fieldWriteInternals.ts:5-70 | A field is refused when a deny at the highest priority names it or has no list, or allows stand there and none does; a refusal lists these in order |
| FieldWrites.FieldScopedDenyRefusesTheRecord | packages/core/src/domain/fieldWriteInternals.ts:28-59 | A top-tier deny refuses the write also when its list names no changed field |
| FieldWrites.EnforcementIgnoresOrder | packages/core/src/domain/abacWrite.ts:113-167 | The outcome, down to the refused fields, does not depend on policy order |
| FieldReads.FilterCommutesWithSort | packages/core/src/domain/fieldAccess.ts:50-57 | Filtering commutes with the stable sort |
| FieldReads.CacheIsTransparent | packages/core/src/domain/fieldAccess.ts:82-101 | The kept list gives the same policies in the same order as working without it |
| FieldReads.ReadPolicyLists.ReadPoliciesForModule | packages/core/src/domain/fieldAccess.ts:28-68 | The list returned is the selected and sorted one, kept or not, and at most sixteen are kept |
| FieldReads.MatchingPolicies | packages/core/src/domain/fieldAccess.ts:82-101 | The matching policies by way of the kept list are those of the plain path |
| FieldReads.ResolveFieldReadOverrides | packages/core/src/domain/fieldAccess.ts:77-145 | The override of every field, in modes: omitted when the leading allow leaves a record field out; else at the highest priority that mentions it omit if one denies or omits, mask if one masks, show if all show; none where nobody mentions it |
| FieldReads.ApplyPolicies | packages/core/src/domain/fieldAccess.ts:103-145 | The loop over policies, record fields and read maps computes the slot of every field |
| FieldReads.OverrideInModes | packages/core/src/domain/fieldAccess.ts:15-19 | The ranked closed form over the sorted matches is the rule in modes over the list as given, the first of the highest allows leading |
| FieldReads.LeadAllowLeads | packages/core/src/domain/fieldAccess.ts:107-114 | The allow that serves as allowlist is the first in the list among those of the highest priority |
| FieldReads.OverridesClosedForm | packages/core/src/domain/fieldAccess.ts:107-142 | A record field absent from the top matching allow is omitted, any other mentioned field gets the most restrictive mode at the highest priority mentioning it, the rest get none |
| FieldReads.OrderMattersIff | packages/core/src/domain/fieldAccess.ts:70-76 | Reordering the policies never changes a field's override if and only if the allows of the top allow priority agree on mentioning it or it is omitted anyway |
| FieldReads.SingleTopAllowIsOrderFree | packages/core/src/domain/fieldAccess.ts:109-121 | With one allow at the top allow priority order never matters |
| AuthorizedWrites.VersionedRepository.UpdateOneWhereReturning | packages/adapters/src/drizzle-d1/drizzleRepository.ts:659-727 | All outcomes: refused filter, several rows, no row, version in the patch, version moved, or exactly one row patched and moved one version on |
| AuthorizedWrites.OnlyTheKeyedRow | packages/adapters/src/server/authorizedRepository.ts:108-119 | A filter on the primary key selects no other row |
| AuthorizedWrites.FieldOrderIsFree | packages/adapters/src/server/authorizedRepository.ts:316-324 | Permission for a patch depends on the set of its keys alone, in whatever order they are passed |
| AuthorizedWriteProofs.AppliedWriteWasAuthorised | packages/adapters/src/server/authorizedRepository.ts:238-409 | Over every run in which no call could take one row of a key for another under the same version, a write takes effect only on the row it was authorised on, which is in reach; the policies allow exactly the row stored or deleted; the version moves on by one and no other row changes |
| AuthorizedWriteProofs.AppliedWriteIsInScope | packages/adapters/src/server/authorizedRepository.ts:108-119 | Over every run, just before a write takes effect the row meets the structural condition, an undenied allow for the action leads on it, and it has the version the caller named, as every delete does; exactly the patched cells and the version change |
| AuthorizedWriteProofs.FilterSelectsIff | packages/adapters/src/server/authorizedRepository.ts:108-119 | The combined filter selects exactly the row of the key that is in the structural scope, let through by the policies and of the version asked for |
| AuthorizedWriteProofs.AnswersOf | packages/adapters/src/server/authorizedRepository.ts:238-409 | What a call is answered at each statement of every run: forbidden, not found, stale, or applied, and whether the caller may see the row |
| AuthorizedWriteProofs.NoUpdateIsLost | packages/adapters/src/drizzle-d1/drizzleRepository.ts:659-727 | Over every run, whatever the other writers do, the version of a row has moved by the number of updates reported as applied since it was stored, and every other cell is that of the last of them that names the field |
| VersionCheck.LandsIffNoTwins | packages/adapters/src/server/authorizedRepository.ts:295-338 | Every call that could be interleaved with a run writes on the row it has read if and only if at no two moments a key holds different rows under one version that a call could take for each other |
| VersionCheck.LandsIffOneRowPerVersion | packages/adapters/src/server/authorizedRepository.ts:295-338 | One row per key and version is enough whatever the policies say, and needed where they let every row be written |
| VersionCheck.RaisingVersionsIsEnough | packages/adapters/src/server/authorizedRepository.ts:295-338 | Other writers keep to that when a row placed under a used key, or over a row, has a higher version than any the key has held |
| VersionCheck.PlacedRowsAreTwins | packages/adapters/src/server/authorizedRepository.ts:295-338 | For any two rows under one version of which a call may write the first and find the second, a reused key and an overwrite each defeat the check |
| VersionCheck.AnothersDraftIsPublished | packages/adapters/src/server/authorizedRepository.ts:295-338 | A policy, two rows and a patch for which that stores a row the policy forbids |
| VersionCheck.OpenSettingExists | packages/adapters/src/server/authorizedRepository.ts:238-294 | A policy without a condition lets every row be written |
| Text.Utf16IsInjective | scripts/createReviewArchive.ts:129-131 | The code units that order paths determine the path |
| Text.CompareIsTransitive | scripts/createReviewArchive.ts:129-131 | Path order is transitive |
| Text.OrdersAgreeIff | packages/core/src/domain/evaluatePredicate.ts:21-34 | Code units and code points order two texts alike if and only if their first difference is not one supplementary character against one of U+E000 to U+FFFF |
| Text.Utf8RoundTrip | scripts/createReviewArchive.ts:156-157 | Decoding an encoded name gives the name back |
| ZipFormat.FieldRoundTrip | scripts/createReviewArchive.ts:159-168 | A little-endian field reads back the value written if it fits |
| ZipFormat.ReadField | scripts/createReviewArchive.ts:158-185 | In a table of fields that do not overlap each reads back as written, whatever is written after it |
| ZipFormat.WriteField | scripts/createReviewArchive.ts:159-168 | Writing a field fails exactly when the value does not fit, and else changes those bytes only |
| ZipFormat.WriteRecord | scripts/createReviewArchive.ts:158-169 | A record is built from a zeroed buffer, or refused exactly when a value does not fit |
| Checksum.ShortChangesAreNoticed | scripts/createReviewArchive.ts:133-141 | The checksums of two contents of one length that differ in at most four neighbouring bytes are equal if and only if the contents are |
| Checksum.CheckValue | scripts/createReviewArchive.ts:133-141 | The checksum of the nine digits is the check value published for CRC-32 |
| ZipArchive.BuildParts | scripts/createReviewArchive.ts:147-188 | The loop produces the local and central parts with the running offset, or fails exactly when a field overflows |
| ZipArchive.CreateZip | scripts/createReviewArchive.ts:147-198 | The bytes of the archive of the sorted entries, or a range error exactly when a 16 or 32 bit field overflows |
| ZipArchive.InspectZip | scripts/createReviewArchive.ts:200-255 | The cursor loop from the last end signature computes the inspection with its first complaint |
| ZipProofs.SortByPathOrders | scripts/createReviewArchive.ts:153-155 | The sort permutes the entries into path order |
| ZipProofs.OrderOfEntriesDoesNotMatter | scripts/createReviewArchive.ts:147-155 | Permuting distinct entries changes neither archive nor error |
| ZipProofs.ConcatHolds | scripts/createReviewArchive.ts:190-197 | Each part of a concatenation stands at the sum of the lengths before it |
| ZipRecords.RecordsStand | scripts/createReviewArchive.ts:147-198 | In a created archive every local, central and end record reads, field by field and number by number, as the format asks, with names and data at their places |
| ZipProofs.LaidIsReadable | scripts/createReviewArchive.ts:209-249 | At each entry's place in the directory the header, name and data read back |
| ZipProofs.EndIsFound | scripts/createReviewArchive.ts:201-204 | The search finds the end record unless its own numbers spell a later signature, and then the reads that follow are out of bounds |
| ZipRecords.SearchFindsLastSignature | scripts/createReviewArchive.ts:201-204 | The search finds the last signature anywhere in the archive |
| ZipPaths.ExcludedIff | scripts/createReviewArchive.ts:51-77 | A path is left out exactly for one of its segments, for its last segment, or for leading through the generated sources, with slashes of either kind |
| ZipPaths.PartsOf | scripts/createReviewArchive.ts:52-54 | The parts the rule looks at are the segments of the path as written |
| ZipProofs.LaterMarkIsReached | scripts/createReviewArchive.ts:190-204 | One file of a certain length makes an archive that can be written and spells a later signature |
| ZipProofs.NotSeen | scripts/createReviewArchive.ts:223-250 | The duplicate check never fires, because the order check comes first |
| ZipProofs.RoundTrip | scripts/createReviewArchive.ts:147-255 | Inspecting a created archive succeeds if and only if paths are distinct, none is excluded and no later signature is spelled; then it gives back exactly the map of paths to data |

## Left out

- The unclaimed path of the idempotency store (`ackInvalidations`, `findCommittedWithPendingInvalidations`), `runOperation` beyond the contract that the receipt joins the mutation atomically, HTTP mapping and telemetry.
- Outside corruption of the obligation column is an event of its own; what corrupts it is not modelled.
- PostgreSQL and MySQL stores other than the transactional forms of a job transition and of the commit receipt: the same statements, under row races the files do not describe.
- The best-effort history of cancellation, retry delays, catalog and payload parsing, and job listing.
- Encoding of tenant commands, configuration errors and the bind and byte limits of a D1 batch; a command is any change of the business data with its row count, an outbox record its scope, key and fingerprint, and each item of a plan is a record of its own.
- `InMemoryCacheAdapter` tags: `addToTag`, `getTagKeys`, `deleteTag` and `clear`, and the generations it keeps, whose increments are those of the shared store.
- Best-effort cache mode, telemetry, and the KV adapter.
- Cache keys of values that contain themselves, which the source refuses, of functions, symbols, sparse arrays and class instances: values are finite trees of plain data. Numbers, big integers and dates stand for the texts the runtime gives them.
- Hashing, UUIDs, date parsing and rendering, number parsing and floating point: tokens are fresh numbers, numbers are reals, dates are instants, and parsing and rendering are parameters with one law, that parsing undoes rendering. In the policy modules invalid dates and non-finite numbers do not occur as values.
- JavaScript strings with lone surrogates: strings are sequences of Unicode scalar values.
- The SQL comparison of values of different kinds follows storage classes without column affinity; no result depends on it. LIKE on a number is not modelled.
- SqlProofs.CompilesIff: a condition whose value is missing is an error of compilation here; the source lets it through to the driver, after `assertPredicateNode` has refused it at the boundary.
- Text.Utf8RoundTrip: a malformed byte reads as one replacement character here; how many the runtime produces is not modelled.
- The symbolic-link check of the directory walk, manifests and checksums of the archive; the stored CRC is computed but inspection does not check it, as in the source.
- Bundle verification, freezing and the digest; a policy list is a value here.
- `projectResponseRecord` and mask formats.
- Non-integer versions end an authorised update as stale here; the source raises a configuration error.
