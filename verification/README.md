# Verified model of a wiki daemon's stateful core

A Dafny model of the parts of the daemon whose correctness depends on many operations
together, and proofs of what those parts promise. `dafny verify dfyconfig.toml` checks
everything.

Each component comes as a specification on values (a state, what each step does to it,
and lemmas over single steps and whole runs) and, where the program updates objects in
place, as a class whose methods are proved to take exactly the steps of the
specification. The pure parts are functions and lemmas only.

| component | modules |
|---|---|
| multi-tenant job scheduler: queues, rotating pointer, caps, pause, stop, drain | SchedulerSpec, SchedulerFairness, SchedulerTicks, TenantScheduling |
| canonical JSON down to its printed text, and a reader that gives it back | JsonText, CanonicalJson, ProvenancePayload |
| workspace key store: provision, rotate, archive, revoke, KEK rotation | KeyStoreSpec, KeyLives, KeyStoring |
| provenance hash chain: append, verify, recovery, concurrent appends, signatures over the life of the keys | ProvenanceSpec, ProvenanceAppend, ProvenanceContents, ProvenanceConcurrency, ProvenanceSignatures, ProvenanceChaining |
| duplicate groups: union-find with path compression | PageGraph, DuplicateGroups |
| bidirectional links: repair and detector | CrossReference |
| redaction outbox: store, worker, network and cloud, crashes | OutboxRows, OutboxRuns, OutboxLives, OutboxDrain, RedactionOutbox |
| token-bucket rate limiter | RateLimiting |
| debounce batcher | Debounce |
| cached daily spend | CostTracking |
| progressive retrieval within a token budget | Truncation, ProgressiveRender, ProgressiveContent, ProgressiveQuery |
| shared: options, UTF-16 text and its order, sorting, trimming | Prelude, CodeUnits, Sorting, TextTools |

Conventions. Strings are sequences of UTF-16 code units. Clocks, drawn UUIDs, generated
keys, network replies and the success of a write are parameters, so every result holds
for all of them. A microtask or timer is a field saying that it is pending. A SQLite
transaction is one atomic step. SHA-256 (FIPS 180-4, section 6.2) and HMAC (RFC 2104,
section 2) are arbitrary functions: nothing assumes that hashing is injective, and tamper
evidence is "the same, or here are two texts with one digest". An AES-GCM envelope (NIST
SP 800-38D) remembers the key it was made under and opens under that key only. JSON text
follows RFC 8259, sections 4 to 7.

Where the code and its comments differ, the model follows the code:

- The comment in `src/server/progressive-query.ts:18-22` calls max_tokens_total a hard
  cap. The newlines that join the blocks of an answer are not counted, so a conversation
  can ship one token more (CapIsExceeded), and no more than one (ConversationBound). Any
  expansion is sure to keep to the cap exactly when it asks for less than what is left,
  or fewer than 14 tokens are left (SafeExactly), and a conversation in which all do so
  keeps to it (AskingWithinKeepsTheCap).
- The comment in `src/server/progressive-query.ts:369-375` says the fallback of tier 3
  should not happen. It happens exactly when there are at most five hits
  (Tier3RepeatsExactly).
- The comment in `src/server/truncate.ts:8` says cuts inside a word are not allowed. They
  can happen, but only when the window has neither a sentence end nor whitespace
  (CutsPreferBoundaries).
- The comment in `src/keys/store.ts:170-179` says revoked keys can be resolved. That ends
  with the next KEK rotation, whose re-wrap skips revoked rows (SurvivesExactly,
  LateRotationLosesTheKey).
- The comment in `src/wiki/cross-reference.ts:20-24` promises bidirectional links for
  every page. A page whose slug is not normalized, such as `foo.md` from a file
  `foo.md.md`, is linked back under a name that does not match it, once more on every
  pass. The promise holds exactly when every page that links one way has a normalized
  slug (OnePassIsTheSymmetricClosure, SecondPassChangesNothing).
- The comment in `src/provenance/hash.ts:22-25` offers canonical text for any input. The
  copy of an object is made by assignment, which makes no member called `__proto__`, so
  the text does not show one; nor then does the chain that hashes it
  (CanonicalJsonShowsExactly, ProtoTamperIsUnseen). A number that overflows, such as
  `1e999` in a chain file, prints as null and is told apart from null neither in the text
  nor by the chain (OverflowTamperIsUnseen).
- The comment in `src/provenance/hash.ts:24` says keys are sorted lexicographically. The
  keys of an object that are array indices come first and in numeric order, so `9` comes
  before `10` (NineBeforeTen); LexicographicExactly says for which objects the comment
  holds.
- The comment in `src/ingestion/cost-tracker.ts:62-70` says the cache is kept in sync by
  incrementing. Onto a log whose last line lacks its newline the next entry is glued, and
  the scan then counts neither while the cache counts both (GluedEntriesAreLost);
  RecordKeepsRightExactly says for every entry whether the total is still right.
- The comment in `src/provenance/chain.ts:356` takes a write that throws for one that left
  nothing. When it throws after the line has reached the file, as a failing sync does,
  memory lacks that line: the chain stays linked exactly until the next line lands
  (AppendsLinearize), and a restart before that heals it (RestartHeals).
- The header of `src/provenance/redaction-emit-store.ts:27-31` says the cloud does not
  remove duplicates; `src/provenance/redaction-sink.ts:30-38` says it does, by event id.
  The model takes the second, later statement.

## Model

| member | source | states |
|---|---|---|
| `SchedulerSpec.StepKeepsInv` | src/ingestion/tenant-scheduler.ts:53-272 | every step (enqueue, tick, completion, setPaused, flag change, drain, stop) keeps: tenantOrder lists the keys of subqueues once each, rrIndex in bounds, globalActive the sum of the active counts and at most the global cap, every active count within its cap, per tenant accepted = launched ++ pending in order and launched = running + completed |
| `SchedulerSpec.SafetyOverRuns` | src/ingestion/tenant-scheduler.ts:53-272 | the same over every feasible run |
| `SchedulerSpec.InitialInv` | src/ingestion/tenant-scheduler.ts:28-47 | a new scheduler satisfies the invariant |
| `SchedulerSpec.LaunchFromFacts` | src/ingestion/tenant-scheduler.ts:185-207 | one pass of the round-robin loop keeps the invariant, only adds launches, and adds none to a paused tenant |
| `SchedulerSpec.CleanupKeepsBooks` | src/ingestion/tenant-scheduler.ts:244-261 | removing idle tenants and re-indexing the pointer loses no job and no active count |
| `SchedulerFairness.PausedIsNeverLaunched` | src/ingestion/tenant-scheduler.ts:191 | no step launches a job of a tenant that is paused when the step is taken |
| `SchedulerFairness.DrainIsExact` | src/ingestion/tenant-scheduler.ts:93-98 | resolvers are woken only by a tick that ends with nothing active and nothing pending, and then all of them |
| `SchedulerFairness.DrainWillFireOverRuns` | src/ingestion/tenant-scheduler.ts:217-272 | in every run, if callers wait in drain while the scheduler is idle, a tick is scheduled |
| `SchedulerFairness.TickLeavesNoneStartable` | src/ingestion/tenant-scheduler.ts:179-219 | a tick that leaves nothing active leaves no unpaused tenant with a positive cap and pending work |
| `SchedulerFairness.NeverStalls` | src/ingestion/tenant-scheduler.ts:105-119 | with a global cap of at least 1 and flags cleared only through setPaused, whenever no tick is scheduled and some unpaused tenant with a positive cap has work, a job is running |
| `SchedulerFairness.SilentUnpauseStalls` | src/ingestion/tenant-scheduler.ts:191 | clearing pause flags without setPaused stalls the scheduler if and only if it was at rest and a freed tenant has startable work |
| `SchedulerFairness.FirstInLineIsLaunched` | src/ingestion/tenant-scheduler.ts:185-207 | an eligible tenant at the pointer is launched by every launching tick |
| `SchedulerFairness.SkippedMeansCloser` | src/ingestion/tenant-scheduler.ts:209-215 | a launching tick that skips an eligible tenant strictly lowers its bound on further skips, although cleanup re-indexes the list in the same tick |
| `SchedulerFairness.CleanupPatience` | src/ingestion/tenant-scheduler.ts:244-261 | cleanup never raises that bound |
| `SchedulerFairness.BoundedWaiting` | src/ingestion/tenant-scheduler.ts:179-261 | with no new tenant and the tenant eligible at every launching tick, it is launched within n(n+1)/2 launching ticks |
| `SchedulerTicks.TickLaunchesExactly` | src/ingestion/tenant-scheduler.ts:179-219 | a tick starts one job, the oldest pending, of exactly the tenants that are not paused, have a job pending, are below their cap and have, at a smaller distance from the pointer, fewer such tenants than the global cap leaves room for |
| `SchedulerTicks.LaunchesExactlyWhen` | src/ingestion/tenant-scheduler.ts:185-207 | a tick launches something if and only if there is room and somebody eligible |
| `SchedulerTicks.TickListExactly` | src/ingestion/tenant-scheduler.ts:209-261 | a tick keeps in the list exactly the tenants with something pending or running, in their order, and moves the pointer one place if and only if it launched |
| `SchedulerTicks.PlacesAreHeld` | src/ingestion/tenant-scheduler.ts:53-68 | no other step moves the list or the pointer; a new tenant joins at the end |
| `SchedulerTicks.HistoryIsTheRun` | src/ingestion/tenant-scheduler.ts:53-241 | over every run: the accepted jobs of a tenant are those enqueued before any stop, in order; the completed ones those that settled; and the callers of drain that found the scheduler busy are those woken followed by those waiting |
| `SchedulerTicks.PausesFollow` | src/ingestion/tenant-scheduler.ts:109-119 | over every run a tenant is paused if and only if the last setPaused or change of flags left it so |
| `TenantScheduling.TenantScheduler.constructor` | src/ingestion/tenant-scheduler.ts:39-47 | starts in the initial state of the specification |
| `TenantScheduling.TenantScheduler.Enqueue` | src/ingestion/tenant-scheduler.ts:53-68 | takes the enqueue step; a stopped scheduler changes nothing |
| `TenantScheduling.TenantScheduler.GetQueueDepth` | src/ingestion/tenant-scheduler.ts:71-73 | the length of the queue of a tenant, 0 for an unknown one |
| `TenantScheduling.TenantScheduler.GetTotalQueueDepth` | src/ingestion/tenant-scheduler.ts:76-80 | the sum of the queue lengths; 0 exactly when nothing is pending |
| `TenantScheduling.TenantScheduler.Drain` | src/ingestion/tenant-scheduler.ts:93-98 | returns at once exactly when idle, otherwise registers the caller |
| `TenantScheduling.TenantScheduler.Stop` | src/ingestion/tenant-scheduler.ts:101-103 | takes the stop step |
| `TenantScheduling.TenantScheduler.SetPaused` | src/ingestion/tenant-scheduler.ts:109-119 | unpausing schedules a tick, pausing does not |
| `TenantScheduling.TenantScheduler.ScheduleTick` | src/ingestion/tenant-scheduler.ts:165-173 | sets the flag of the pending tick and changes nothing else |
| `TenantScheduling.TenantScheduler.RunTick` | src/ingestion/tenant-scheduler.ts:169-172 | clears the flag and takes a tick step; it starts a job of exactly the tenants picked |
| `TenantScheduling.TenantScheduler.ProcessTick` | src/ingestion/tenant-scheduler.ts:179-219 | the loop, the pointer, cleanup and the drain check together are the tick of the specification |
| `TenantScheduling.TenantScheduler.LaunchLoop` | src/ingestion/tenant-scheduler.ts:182-207 | the loop launches exactly the jobs the specification launches, in order, and reports whether it launched any; TickLaunchesExactly says which those are |
| `TenantScheduling.TenantScheduler.LaunchNext` | src/ingestion/tenant-scheduler.ts:200-206 | moves the oldest pending job of the tenant to the running ones |
| `TenantScheduling.TenantScheduler.CleanupEmptyTenants` | src/ingestion/tenant-scheduler.ts:244-261 | drops exactly the tenants with no pending and no running job and keeps the pointer in bounds |
| `TenantScheduling.TenantScheduler.Sweep` | src/ingestion/tenant-scheduler.ts:245-254 | the filter with its deletions, entry by entry |
| `TenantScheduling.TenantScheduler.KeepsPlace` | src/ingestion/tenant-scheduler.ts:246-253 | one callback of the filter: a tenant with nothing pending or running is dropped from both maps, any other keeps its place |
| `TenantScheduling.TenantScheduler.CheckDrained` | src/ingestion/tenant-scheduler.ts:263-272 | wakes all resolvers when idle and none otherwise |
| `TenantScheduling.TenantScheduler.CompleteJob` | src/ingestion/tenant-scheduler.ts:229-241 | takes the completion step and schedules a tick |
| `JsonText.EscapeDelimited` | src/provenance/hash.ts:36 | two escaped strings that agree up to a following quotation mark are escapes of the same string |
| `JsonText.NumberDelimited` | src/provenance/hash.ts:36 | a printed number ends where the text can no longer continue it |
| `JsonText.PrintDelimited` | src/provenance/hash.ts:36 | printed text is uniquely readable: two values whose prints agree before a delimiter are equal, fields in the same order, but for non-finite numbers, which print as null; by induction over nested arrays and objects |
| `JsonText.StringRead` | src/provenance/hash.ts:36 | a reader of section 7 of RFC 8259 gives back any printed string, up to its closing quotation mark |
| `JsonText.NumberRead` | src/provenance/hash.ts:36 | a number of section 6 of RFC 8259 is read to its end and no further, whatever delimiter follows |
| `JsonText.PrintRead` | src/provenance/hash.ts:36 | a reader of RFC 8259 that allows no white space between tokens gives back any printed value, members in their order and non-finite numbers as null, and what follows it |
| `JsonText.UnitQuoted` | src/provenance/hash.ts:36 | which units are written as two-character escapes, and that all others but controls and lone surrogates stand for themselves |
| `JsonText.ControlQuoted` | src/provenance/hash.ts:36 | the other control characters and lone surrogates are written as four lower-case hex digits |
| `CanonicalJson.NormalizeKeepsShown` | src/provenance/hash.ts:26-35 | copying an object in key order keeps its value with unordered objects, except for members called __proto__, which the assignment does not make |
| `CanonicalJson.EqualPrintsAlike` | src/provenance/hash.ts:26-37 | values that are the same but for such members and for which number is not finite print to the same text whatever order their keys were added in |
| `CanonicalJson.CanonicalJsonShowsExactly` | src/provenance/hash.ts:26-37 | canonicalJson(u) equals canonicalJson(v) if and only if u and v are the same value, objects unordered, once at every depth members called __proto__ are left out and non-finite numbers are null |
| `CanonicalJson.CanonicalJsonIsCanonical` | src/provenance/hash.ts:26-37 | where neither has such a member or number, canonicalJson(u) equals canonicalJson(v) if and only if u and v are equal as values with unordered objects |
| `CanonicalJson.ShownIsMeaning` | src/provenance/hash.ts:26-37 | without such members and numbers nothing of a value is lost |
| `CanonicalJson.ProtoIsUnseen` | src/provenance/hash.ts:30-33 | a member of that name can be added to any object that has none: another value, the same text |
| `CanonicalJson.OverflowIsUnseen` | src/provenance/hash.ts:36 | a null can be made a number that overflows, as 1e999 does: another value, the same text |
| `CanonicalJson.RankIsOrder` | src/provenance/hash.ts:30-33 | the rank by which the model sorts keys puts array indices, which are the numerals below 2^32 - 1, first and in numeric order, and then the other keys unit by unit |
| `CanonicalJson.RankInjective` | src/provenance/hash.ts:30-33 | different keys have different ranks |
| `CanonicalJson.CanonicalJsonReads` | src/provenance/hash.ts:26-37 | the text of canonicalJson(v) is JSON without white space between tokens; it reads as a value with the meaning of v, but for members called __proto__ and non-finite numbers, in which the keys of every object at every depth ascend |
| `CanonicalJson.LexicographicExactly` | src/provenance/hash.ts:24 | the keys of the copy are in lexicographic order if and only if no key whose text is smaller than that of an array index is anything but an index of smaller value |
| `CanonicalJson.NineBeforeTen` | src/provenance/hash.ts:24 | for the keys 9 and 10 they are not |
| `ProvenancePayload.PayloadTextDetermines` | src/provenance/chain.ts:429-445 | for payloads with fields of any JSON type, or none, the hashed texts are equal if and only if every field agrees as far as canonical printing shows it |
| `ProvenancePayload.AgreeMeansInFull` | src/provenance/chain.ts:429-445 | which is agreement as values where no member is called __proto__ and no number overflows |
| `ProvenancePayload.Zeros` | src/provenance/hash.ts:20 | the genesis hash is 64 zero digits |
| `ProvenancePayload.IntTextInjective` | src/provenance/chain.ts:276 | different sequence numbers print differently |
| `ProvenancePayload.IntTextIsNumber` | src/provenance/chain.ts:276 | a sequence number prints as a JSON number, the decimal numeral of its value |
| `ProvenanceSpec.HexRoundTrip` | src/provenance/chain.ts:599-600 | decoding a stored MAC gives back the bytes that were encoded |
| `ProvenanceSpec.SignedPasses` | src/provenance/chain.ts:305-316 | a record passes the signature check wherever the key it names resolves to the key that signed it |
| `ProvenanceSpec.HmacExactly` | src/provenance/chain.ts:567-616 | a record passes if and only if it is unsigned or the key it calls for is there and the MAC of its id and chain hash is the one stored; each failure is reported in exactly its own case |
| `ProvenanceSpec.NoErrorsMeansIntact` | src/provenance/chain.ts:392-487 | verify reports nothing if and only if every record has the right position, links and hashes and passes its signature check |
| `ProvenanceSpec.ErrorsInExactly` | src/provenance/chain.ts:392-487 | an error with a reason is reported of a record if and only if that is wrong with it: its position, its links to the record before it, one of its digests, or its signature |
| `ProvenanceSpec.TamperEvidence` | src/provenance/chain.ts:392-487 | two non-empty linked chains that end in the same chain_hash have the same length and agree on every payload field of every record as far as canonical printing shows it, or verification hashes two different texts, one of each chain, to the same digest |
| `ProvenanceSpec.TamperEvidenceInFull` | src/provenance/chain.ts:392-487 | where no record has a member called __proto__ or a number that overflows, the same with agreement as values |
| `ProvenanceSpec.AgreeingChangeIsUnseen` | src/provenance/chain.ts:429-452 | that is exactly as far as it goes: a payload that agrees so can be put in place of any other, and links, signatures and last hash stay as they were |
| `ProvenanceSpec.ProtoTamperIsUnseen` | src/provenance/chain.ts:443-452 | a member called __proto__ put into the metadata of any record changes nothing verification sees |
| `ProvenanceSpec.OverflowTamperIsUnseen` | src/provenance/chain.ts:443-452 | nor does a null in the metadata turned into a number that overflows |
| `ProvenanceSpec.MetadataTamperIsUnseen` | src/provenance/chain.ts:443-452 | nor any metadata that differ but print alike, whatever record of the chain they are put into |
| `ProvenanceSpec.AcceptedChainsAgree` | src/provenance/chain.ts:392-487 | the same stated of two chains for which verify reports no error, each under its own keys |
| `ProvenanceSpec.LastRecordPinned` | src/provenance/chain.ts:445-460 | the last step of that argument: both hashed parts are 64 units long, so concatenation is unambiguous |
| `ProvenanceAppend.AppendExtends` | src/provenance/chain.ts:265-343 | the record append builds from the tail of a linked chain extends it to a linked chain, and the memory kept is that of the longer chain |
| `ProvenanceAppend.RecoverIntact` | src/provenance/chain.ts:171-249 | init on a linked file whose last signature passes rebuilds the tail exactly |
| `ProvenanceAppend.RecoverExactly` | src/provenance/chain.ts:171-249 | init adopts a tail if and only if the file is empty, or the last record it can read carries its own two digests and passes the signature check; and what it then adopts |
| `ProvenanceAppend.ParsedLineByLine` | src/provenance/chain.ts:490-505 | reading goes line by line, and a blank or malformed line gives nothing |
| `ProvenanceContents.RecordCarries` | src/provenance/chain.ts:257-343 | the payload object of a record has, under each of its literal keys, the value the caller of append passed, metadata and a tenant exactly when there are any, the position memory gave, and no other key |
| `ProvenanceContents.HashedTextSays` | src/provenance/chain.ts:293 | the text hashed into its id reads, as JSON, as that object, its keys ascending |
| `ProvenanceAppend.SequentialRunLinked` | src/provenance/chain.ts:257-386 | appending one by one keeps the chain linked, one record a job |
| `ProvenanceAppend.TornWriteBreaksTheNextAppend` | src/provenance/chain.ts:345-360 | a write that landed but was reported as failed leaves memory behind the file, and the next append then breaks the chain, while one after a restart would not |
| `ProvenanceConcurrency.StepKeepsLockInv` | src/provenance/chain.ts:623-632 | in the promise chain of the lock, a promise has settled only after the one before it has and its ticket has released |
| `ProvenanceConcurrency.SettledMeansReleased` | src/provenance/chain.ts:623-632 | what a ticket awaits has settled only when every earlier ticket has released |
| `ProvenanceConcurrency.MutualExclusion` | src/provenance/chain.ts:623-632 | at most one append is between taking and releasing the lock |
| `ProvenanceConcurrency.EntersAfterReleases` | src/provenance/chain.ts:383-385 | once all earlier tickets have released, by success or by failure, a ticket gets in after at most as many settlings |
| `ProvenanceConcurrency.NeverDeadlocked` | src/provenance/chain.ts:623-632 | as long as some append has not released, one of them or the lock can take a step |
| `ProvenanceConcurrency.AppendsFinish` | src/provenance/chain.ts:257-386 | the appends under way take a bounded number of steps, and when none can take another all have released |
| `ProvenanceConcurrency.RunsKeepInv` | src/provenance/chain.ts:257-386 | every interleaving keeps: the lock is in order, the file holds the records that landed in ticket order, each made from the memory left by the calls done before it, and memory is that of a sequential run of the calls done |
| `ProvenanceConcurrency.AppendsLinearize` | src/provenance/chain.ts:257-386 | however appends overlap, fail, or fail after their line has landed: memory is that of the appends that returned, run one by one in ticket order; the file is the sequential run of those that landed as long as no line lands after a torn one, and stays linked exactly as long |
| `ProvenanceConcurrency.LandedRecordsCarry` | src/provenance/chain.ts:257-386 | in every interleaving the file is the one opened followed by the landed records in ticket order, and each carries, key by key, what its own call was made with |
| `ProvenanceConcurrency.TicketsAreCalls` | src/provenance/chain.ts:257-386 | ticket k is the k-th call: until it fails or lands it keeps the input of that call and the time at which it entered |
| `ProvenanceConcurrency.AppendsVerifyExactly` | src/provenance/chain.ts:392-487 | with key events between any two steps of overlapping appends, the links are right if and only if no line landed after a torn one, and all signatures pass if and only if the key of every record opens under the current KEK |
| `ProvenanceConcurrency.VerifyStaysOkWhileAppending` | src/provenance/chain.ts:392-487 | so with no KEK rotation past a revocation verify reports no error, however appends and key events interleave, if and only if no line landed after a torn one |
| `ProvenanceConcurrency.InitRebuildsMemory` | src/provenance/chain.ts:198-248 | with no append in its critical section a fresh init adopts the tail of the whole file, or refuses exactly if the key of the last record no longer opens; what it adopts is the live nextSeq, lastChainHash, lastId and count if and only if no line was torn |
| `ProvenanceConcurrency.InitAlwaysRebuilds` | src/provenance/chain.ts:198-248 | with no KEK rotation past a revocation it always adopts it |
| `ProvenanceConcurrency.RestartHeals` | src/provenance/chain.ts:171-249 | after any such run the file can be opened again as a linked and signed one, from which all of this starts anew, if and only if no line landed after a torn one |
| `ProvenanceChaining.ProvenanceChain.constructor` | src/provenance/chain.ts:132-151 | starts uninitialized at sequence number 1 and the genesis hash |
| `ProvenanceChaining.ProvenanceChain.ReadAll` | src/provenance/chain.ts:490-505 | the parsed records in order, malformed lines skipped |
| `ProvenanceChaining.ProvenanceChain.VerifyHmac` | src/provenance/chain.ts:567-616 | the signature check of the specification, with its five failures and the case that resolving throws |
| `ProvenanceChaining.ProvenanceChain.CheckTail` | src/provenance/chain.ts:206-243 | accepts the last record exactly when its id, chain hash and signature recompute |
| `ProvenanceChaining.ProvenanceChain.Init` | src/provenance/chain.ts:171-249 | recovers the tail or refuses, and is idempotent |
| `ProvenanceChaining.ProvenanceChain.Load` | src/provenance/chain.ts:181-248 | the memory it leaves is the one recovery defines; any failure leaves the chain uninitialized |
| `ProvenanceChaining.ProvenanceChain.PickSigner` | src/provenance/chain.ts:305-316 | the active key of the workspace, else the fallback key, else none; always one the verifier can resolve |
| `ProvenanceChaining.ProvenanceChain.Append` | src/provenance/chain.ts:257-386 | an uninitialized chain is initialized first, and refuses if that fails; then a write that succeeds adds exactly the record of the specification, which carries what the caller passed, one that is lost changes neither file nor memory, and one that is torn changes the file only |
| `ProvenanceChaining.ProvenanceChain.WriteNext` | src/provenance/chain.ts:265-360 | the critical section by itself |
| `ProvenanceChaining.ProvenanceChain.Verify` | src/provenance/chain.ts:392-487 | the error list, counts and verdict of the specification; verifiedRecords is the record count minus the error count |
| `ProvenanceChaining.ProvenanceChain.CheckAll` | src/provenance/chain.ts:394-479 | the loop of verify collects exactly the errors of the specification, and fails only if a key cannot be opened |
| `ProvenanceChaining.ProvenanceChain.CheckRecord` | src/provenance/chain.ts:399-474 | the errors of one record, links first and signature last |
| `ProvenanceChaining.ProvenanceChain.CheckLinks` | src/provenance/chain.ts:400-460 | the five link errors in the order of the source |
| `ProvenanceChaining.CacheIsInvisible` | src/provenance/chain.ts:579 | what the key cache holds never changes the result of a signature check |
| `KeyStoreSpec.StepKeepsInv` | src/keys/store.ts:140-404 | every operation keeps: one active key a workspace at most, every non-revoked row unwraps under the current KEK, every cached DEK is the one of its row; states move only active to rotating to archived, or to revoked, and rows are never dropped |
| `KeyStoreSpec.SafetyOverRuns` | src/keys/store.ts:140-404 | the same over every run |
| `KeyStoreSpec.RotateKekKeepsInv` | src/keys/store.ts:337-386 | in such a store a 32-byte KEK is always accepted and no DEK changes |
| `KeyStoreSpec.DekIsConstant` | src/keys/store.ts:198-404 | the DEK of a key id never changes over a run, and a revoked row not at all |
| `KeyStoreSpec.ResolvesExactly` | src/keys/store.ts:180-196 | a key resolves to its own DEK if and only if its envelope is under the KEK in force |
| `KeyStoreSpec.SurvivesExactly` | src/keys/store.ts:180-404 | after any run a key resolves if and only if the KEK in force is the one it was revoked under |
| `KeyStoreSpec.KekHoldsAfterRevocation` | src/keys/store.ts:337-386 | with no KEK rotation after the revocation of a key, the KEK it was revoked under stays in force |
| `KeyStoreSpec.ResolvesWithoutLateRotation` | src/keys/store.ts:170-196 | a key resolves in every state as long as no KEK rotation follows its revocation |
| `KeyStoreSpec.LateRotationLosesTheKey` | src/keys/store.ts:321-323 | revoking a key and then rotating the KEK makes it unresolvable |
| `KeyStoreSpec.ReopenKeepsInvExactly` | src/keys/store.ts:98-116 | a restart on the same table, with an empty cache, keeps the invariant under exactly the KEK in force, or any of 32 bytes if every row is revoked |
| `KeyLives.NewKeyIsActive` | src/keys/store.ts:140-245 | a key provisioned while there is no active one, or rotated in, is the active key of its workspace at once and resolves to the DEK it was made with |
| `KeyLives.ActiveFollowsEvents` | src/keys/store.ts:140-404 | after any run the active key of a workspace is the latest one rotated in, or provisioned while there was none, unless it has been revoked since |
| `KeyLives.LifeFollowsEvents` | src/keys/store.ts:140-404 | after any run the state, times and DEK of a key are what the events that name it or its workspace have made of them |
| `KeyLives.KekFollowsEvents` | src/keys/store.ts:337-386 | the KEK in force is the last 32-byte one rotated to, or the one of a later restart |
| `KeyStoring.KeyStore.constructor` | src/keys/store.ts:98-116 | opens a table, new or used, with an empty cache and a KEK it does not try out; the store is well kept if and only if the table has one active key a workspace at most and the KEK opens its live rows |
| `KeyStoring.KeyStore.ActiveRow` | src/keys/store.ts:448-454 | the active row of a workspace, if there is one |
| `KeyStoring.KeyStore.UnwrapWithCache` | src/keys/store.ts:465-474 | the DEK of the row, cached after the first opening; nothing if the envelope does not open |
| `KeyStoring.KeyStore.Provision` | src/keys/store.ts:140-158 | refused exactly when the workspace has an active key, otherwise a new key that is active from then on |
| `KeyStoring.KeyStore.ActiveKey` | src/keys/store.ts:164-168 | the active key with its own DEK; in a well-kept store this cannot fail |
| `KeyStoring.KeyStore.ResolveById` | src/keys/store.ts:180-196 | missing, found or throwing as the specification says, in any state |
| `KeyStoring.KeyStore.Rotate` | src/keys/store.ts:207-245 | the active key becomes rotating and a new one active, in one step; the new key is the active one from then on |
| `KeyStoring.KeyStore.Archive` | src/keys/store.ts:255-262 | only a rotating key is archived; the result says whether one was |
| `KeyStoring.KeyStore.ArchiveOverlapped` | src/keys/store.ts:278-309 | exactly the rotating keys of the workspace rotated at or before the cutoff |
| `KeyStoring.KeyStore.RotateKek` | src/keys/store.ts:337-386 | re-wraps all non-revoked rows and swaps the KEK, or changes nothing |
| `KeyStoring.KeyStore.Revoke` | src/keys/store.ts:397-404 | revokes from any other state; the result says whether it did |
| `ProvenanceSignatures.SignatureSurvivesExactly` | src/provenance/chain.ts:567-616 | after any key events a record passes verifyHmac if and only if the KEK in force is the one its key was revoked under; otherwise looking the key up throws |
| `ProvenanceSignatures.SignatureSurvives` | src/provenance/chain.ts:567-616 | a record appended under a key passes after any provision, rotate, archive, archiveOverlapped, revoke and rotateKek, provided no rotateKek follows the revocation of that key |
| `ProvenanceSignatures.AppendNamesTheActiveKey` | src/provenance/chain.ts:305-316 | a record appended after any key events names the key they left active and carries the MAC of its id and chain hash under that DEK; without such a key that of the fallback key, or none |
| `ProvenanceSignatures.VerifiesExactly` | src/provenance/chain.ts:392-487 | after any run of appends and key events all signatures pass if and only if every record names a key that opens under the current KEK |
| `ProvenanceSignatures.VerifyStaysOk` | src/provenance/chain.ts:392-487 | with no KEK rotation past a revocation, verify reports no error after any run, also on a file that begins with unsigned records |
| `DuplicateGroups.GroupDuplicates` | src/wiki/health.ts:291-321 | returns exactly the connected components of size above one of the pair graph, disjoint and each sorted |
| `DuplicateGroups.PageForest.Find` | src/wiki/health.ts:293-300 | terminates, returns the root, points every page on the path at it, and changes no other parent and no root |
| `DuplicateGroups.PageForest.Add` | src/wiki/health.ts:308-309 | a new page becomes its own root, a known one stays |
| `DuplicateGroups.PageForest.Union` | src/wiki/health.ts:301-305 | merges the two classes and no others |
| `DuplicateGroups.CompressKeepsForest` | src/wiki/health.ts:295-298 | pointing a page at its root keeps the parent map acyclic |
| `DuplicateGroups.MergedTracks` | src/wiki/health.ts:307-311 | after a pair, two pages share a root if and only if the pairs so far connect them |
| `DuplicateGroups.SameRootIffConnected` | src/wiki/health.ts:313-318 | equal roots mean connected, and connected means equal roots |
| `DuplicateGroups.CollectGroups` | src/wiki/health.ts:313-320 | collecting by root and keeping the larger buckets gives exactly the groups |
| `DuplicateGroups.FillBuckets` | src/wiki/health.ts:313-318 | every page goes into the bucket of its root, once, and every bucket is listed once |
| `PageGraph.ConnectedKeepsLabel` | src/wiki/health.ts:288 | a label that every pair agrees on is constant on each component |
| `CrossReference.NormalizedExactly` | src/wiki/cross-reference.ts:50-52 | a slug is normalized if and only if it has no outer whitespace, no leading slash and no .md ending |
| `CrossReference.OwnPathReachesExactly` | src/wiki/cross-reference.ts:15-18 | a link that is the relative path of a page normalizes to the slug of the page if and only if the path has no backslash, no leading slash and no outer whitespace |
| `CrossReference.OnePassIsTheSymmetricClosure` | src/wiki/cross-reference.ts:25-44 | for any pages with distinct slugs: normalized, every list gains exactly the slugs of the pages that linked to its page, and every link ends up answered, if and only if every page that links one way has a normalized slug |
| `CrossReference.PassAddsExactlyTheMissing` | src/wiki/cross-reference.ts:25-44 | under that condition every related list ends as the old list followed by exactly the slugs of the pages it failed to link back to, in page order |
| `CrossReference.PassStableExactly` | src/wiki/cross-reference.ts:25-44 | a pass changes nothing if and only if every link has its link back |
| `CrossReference.SecondPassChangesNothing` | src/wiki/cross-reference.ts:25-44 | a second pass changes nothing, under exactly the same condition |
| `CrossReference.SlugMustBeNormalized` | src/wiki/cross-reference.ts:32-37 | for a page that links to another and nothing else, the condition is that its slug is normalized |
| `CrossReference.BadAppendShows` | src/wiki/cross-reference.ts:35-37 | an appended slug that is not normalized always leaves some link unanswered |
| `CrossReference.PassExplained` | src/wiki/cross-reference.ts:31-41 | every appended entry is the slug of a page that links to that list, appended when no entry answered it |
| `CrossReference.RepairBidirectionalLinks` | src/wiki/cross-reference.ts:25-44 | in place, the lists become those of the pass, and the pages handed back are those whose slug was collected |
| `CrossReference.AnswerLink` | src/wiki/cross-reference.ts:34-39 | one link: unknown targets are ignored, a missing link back is appended once |
| `CrossReference.IndexBySlug` | src/wiki/cross-reference.ts:26-27 | a later page replaces an earlier one with the same slug |
| `CrossReference.SelectedExactly` | src/wiki/cross-reference.ts:43 | with distinct slugs the pages handed back are exactly those whose list changed |
| `CrossReference.DetectMissingBacklinks` | src/wiki/health.ts:428-465 | the findings of the specification, in page and link order |
| `CrossReference.FindingsExact` | src/wiki/health.ts:442-464 | a pair of pages is reported if and only if the first links to the second and not back |
| `CrossReference.NoFindingsExactly` | src/wiki/health.ts:428-465 | no findings if and only if all links among the pages are answered |
| `CrossReference.RepairLeavesNoFindings` | src/wiki/cross-reference.ts:25-44 | after a repair the detector reports nothing, under exactly the same condition |
| `OutboxRows.ListPendingExact` | src/provenance/redaction-emit-store.ts:178-190 | a drain reads pending rows only, each once, oldest first, and leaves one out only when the limit is reached and the row is younger than all taken; empty exactly when nothing is pending or the limit is 0 |
| `OutboxRows.ListedOldestFirst` | src/provenance/redaction-emit-store.ts:178-190 | oldest first is by creation time, and by id where the times are the same |
| `OutboxRows.StatementsKeepRows` | src/provenance/redaction-emit-store.ts:202-275 | no statement changes what a row was created with, lowers its attempts, or touches a sent or archived row |
| `OutboxRuns.StepKeepsInv` | src/provenance/redaction-emit-worker.ts:134-190 | each step of producers, worker, network and cloud, a crash included, keeps the outbox invariant |
| `OutboxRuns.OutboxConservation` | src/provenance/redaction-emit-worker.ts:134-190 | in every run with crashes between any two store or sink operations the table is exactly the enqueued events with one status each, every sent event is in the cloud with its payload, and the cloud holds no id twice and nothing that was not enqueued |
| `OutboxRuns.RunKeepsInv` | src/provenance/redaction-emit-store.ts:8-18 | rows and cloud entries only accumulate; sent and archived rows never change again |
| `OutboxRuns.SentEventArrived` | src/provenance/redaction-sink.ts:30-38 | a sent row is in the cloud with its own payload |
| `OutboxLives.StepMovesRow` | src/provenance/redaction-emit-worker.ts:134-190 | each step leaves sent and archived rows as they are; a pending row becomes sent when a batch with it was accepted, gains one attempt and the first 500 units of the error when one was refused, becomes archived when its attempts are used up, and otherwise stays as it is |
| `OutboxLives.FateOfARow` | src/provenance/redaction-emit-worker.ts:134-190 | over every run with crashes: a row that is still pending has one attempt for each refused batch with it, an archived one at least the attempts allowed, and a sent one was in a batch that was accepted |
| `OutboxLives.ArchivedUsedUp` | src/provenance/redaction-emit-store.ts:256-275 | in every run an archived row has used up its attempts |
| `OutboxLives.AcceptedBatchIsSent` | src/provenance/redaction-emit-worker.ts:149-158 | after a post that was accepted every row of the batch that was pending is sent, and no other row changes |
| `OutboxLives.AcceptedOutboxIsSent` | src/provenance/redaction-emit-worker.ts:134-190 | against a cloud that accepts, every row that was pending ends as sent |
| `OutboxLives.OversizedSendsNothing` | src/provenance/redaction-sink.ts:108-114 | a batch over the cap, which only a negative batch size can list, sends nothing, whatever the cloud would say |
| `OutboxDrain.TickIsARun` | src/provenance/redaction-emit-worker.ts:134-174 | a tick nothing interrupts does to the table what the state machine does |
| `OutboxDrain.TickLowersPotential` | src/provenance/redaction-emit-worker.ts:138-174 | a tick with pending work strictly lowers the sum of attempts left if and only if the batch size is not 0 |
| `OutboxDrain.OutboxDrains` | src/provenance/redaction-emit-worker.ts:134-190 | whatever the replies, that many ticks leave no row pending |
| `OutboxDrain.TickKeepsWithinAttempts` | src/provenance/redaction-emit-store.ts:256-275 | after a refused tick no pending row has used up its attempts, and an accepted or idle tick adds none |
| `OutboxDrain.BackoffClosedForm` | src/provenance/redaction-emit-worker.ts:181-189 | after k failures in a row the interval is the base times 2^k up to the cap, and the base after a success |
| `RedactionOutbox.RedactionEmitStore.Enqueue` | src/provenance/redaction-emit-store.ts:157-171 | a new pending row with no attempts; an id already present is refused and changes nothing |
| `RedactionOutbox.RedactionEmitStore.MarkSent` | src/provenance/redaction-emit-store.ts:202-217 | the listed pending rows become sent, no others; the count is the number that left the pending state |
| `RedactionOutbox.RedactionEmitStore.MarkFailed` | src/provenance/redaction-emit-store.ts:224-246 | the listed pending rows gain an attempt each time they are listed; the count is the number of attempts added |
| `RedactionOutbox.RedactionEmitStore.ArchiveExhausted` | src/provenance/redaction-emit-store.ts:256-275 | exactly the pending rows at or over the cap are archived, and their ids returned |
| `RedactionOutbox.RedactionEmitWorker.constructor` | src/provenance/redaction-emit-worker.ts:75-86 | the defaults, and the batch size asked for up to 1000 |
| `RedactionOutbox.RedactionEmitWorker.BeginTick` | src/provenance/redaction-emit-worker.ts:139-143 | lists a batch; an empty one ends the tick as a success |
| `RedactionOutbox.RedactionEmitWorker.SettleTick` | src/provenance/redaction-emit-worker.ts:149-174 | a reply marks the batch sent, or failed with the exhausted rows archived |
| `RedactionOutbox.RedactionEmitWorker.Finish` | src/provenance/redaction-emit-worker.ts:181-189 | resets or doubles the interval and arms the timer unless stopped; a tick that threw ends here as a failure |
| `RedactionOutbox.RedactionEmitWorker.Tick` | src/provenance/redaction-emit-worker.ts:134-190 | the table, the interval and the timer after an undisturbed tick; nothing without a sink |
| `RedactionOutbox.RedactionEmitWorker.ScheduleNext` | src/provenance/redaction-emit-worker.ts:192-199 | the timer is armed with the current interval unless stopped |
| `RedactionOutbox.RedactionEmitWorker.Start` | src/provenance/redaction-emit-worker.ts:88-111 | runs the first tick at once; without a sink nothing changes |
| `RedactionOutbox.RedactionEmitWorker.Stop` | src/provenance/redaction-emit-worker.ts:113-121 | clears the timer and sets the flag under which no other is armed |
| `RateLimiting.WindowBound` | src/server/middleware.ts:80-93 | for every key, interleaving and interval at most C + C(t-s)/60000 takes are allowed |
| `RateLimiting.AllowsExactly` | src/server/middleware.ts:80-93 | after any run a take is allowed if and only if in every interval that ends with it the takes allowed, this one included, are at most C + C * length / 60000; refused takes do not count |
| `RateLimiting.AdmittedWithinLevel` | src/server/middleware.ts:80-93 | from any sound state, at most what the bucket holds plus what flows in |
| `RateLimiting.SweepsAreInvisible` | src/server/middleware.ts:96-101 | sweeps that spare buckets idle for up to 59999 ms change no answer |
| `RateLimiting.SweepingIsInvisibleExactly` | src/server/middleware.ts:96-101 | over integer milliseconds sweeping is invisible in every run if and only if it spares buckets idle for up to 59999 ms |
| `RateLimiting.AfterKeepsSound` | src/server/middleware.ts:67-101 | every bucket stays between empty and the capacity |
| `RateLimiting.RateLimiter.constructor` | src/server/middleware.ts:72-75 | a capacity of at least 1 |
| `RateLimiting.RateLimiter.Take` | src/server/middleware.ts:80-93 | the answer and the bucket of the specification |
| `RateLimiting.RateLimiter.Sweep` | src/server/middleware.ts:96-101 | exactly the buckets last used before the cutoff are dropped |
| `Debounce.SafetyOverRuns` | src/watcher/debounce.ts:50-136 | after every run no path is both added and deleted, the buffer is empty or below the batch cap, the timer is armed exactly when something is buffered, and the window is in its range for growth of at least 1 |
| `Debounce.BatchingPreservesEffect` | src/watcher/debounce.ts:50-86 | until a stop, the batches and then the buffer have, on any file set, the effect of the raw stream |
| `Debounce.FlushedIsComplete` | src/watcher/debounce.ts:73-86 | right after flushNow, or once the timer has fired, the batches alone have that effect |
| `Debounce.HandsOverExactly` | src/watcher/debounce.ts:50-136 | a batch is handed over, of all that is buffered, exactly when a push fills it, the timer fires or flushNow is called, with something buffered |
| `Debounce.WindowFollowsEvents` | src/watcher/debounce.ts:109-136 | the window is the initial one multiplied, rounded and capped once for every event since the last batch from the burst threshold on; an armed timer waits that long |
| `Debounce.RoundIsNearest` | src/watcher/debounce.ts:116 | rounding is to the nearest integer, halves upwards |
| `Debounce.NothingAfterStop` | src/watcher/debounce.ts:89-97 | after a stop nothing more is handed over and no timer is armed |
| `Debounce.WaitStaysInRange` | src/watcher/debounce.ts:112-118 | growing the window never shortens it and never exceeds the largest window |
| `Debounce.DebounceBatcher.constructor` | src/watcher/debounce.ts:43-47 | starts empty with the initial window |
| `Debounce.DebounceBatcher.Push` | src/watcher/debounce.ts:50-57 | an add replaces a buffered delete; ignored once stopped |
| `Debounce.DebounceBatcher.PushDelete` | src/watcher/debounce.ts:65-70 | a delete replaces a buffered add; ignored once stopped |
| `Debounce.DebounceBatcher.FlushNow` | src/watcher/debounce.ts:73-86 | hands over both sets, sorted, and resets the window; an empty buffer hands over nothing |
| `Debounce.DebounceBatcher.Stop` | src/watcher/debounce.ts:89-97 | drops the buffer and the timer |
| `Debounce.DebounceBatcher.RegisterEvent` | src/watcher/debounce.ts:109-127 | grows the window in a burst, flushes at the cap, otherwise arms the timer |
| `Debounce.DebounceBatcher.TimerFires` | src/watcher/debounce.ts:131-134 | a timer that fires flushes |
| `Debounce.SortedPaths` | src/watcher/debounce.ts:79-80 | the members in strictly increasing order, whatever order the set is walked in |
| `CostTracking.CachedSpendIsTheScan` | src/ingestion/cost-tracker.ts:88-128 | with days that do not run backwards, successful writes and finite costs, every answer of spentToday is the scan of the log at that moment, for any log found at the start whose last line is blank or has its newline, and any addition, rounding or not |
| `CostTracking.AfterKeepsCacheOk` | src/ingestion/cost-tracker.ts:88-128 | each such record and read keeps the cached total right, or its day is past |
| `CostTracking.RecordKeepsRightExactly` | src/ingestion/cost-tracker.ts:88-115 | for any cache, entry, clock and outcome of the write, and costs that make a difference: the cache is right or dropped afterwards if and only if it has no day, or the entry is dated another day, or cache and log agree on counting it; glued onto a line without its newline, they agree if and only if the entry is not of today and the line was not counted for its day |
| `CostTracking.GluedEntriesAreLost` | src/ingestion/cost-tracker.ts:88-115 | a concrete run: one unterminated record of today, a read, one more entry of today, and the cache holds the sum of the two while the scan holds zero |
| `CostTracking.ScanAppended` | src/ingestion/cost-tracker.ts:106-108 | what appending a line does to the scan of a day, glued onto an unfinished line or not |
| `CostTracking.CountsExactly` | src/ingestion/cost-tracker.ts:43-47 | a line counts for a day if and only if it has a cost and a timestamp whose first ten code units are the day |
| `CostTracking.AnswerRightExactly` | src/ingestion/cost-tracker.ts:121-128 | an answer is the scan if and only if the cache is of another day or right |
| `CostTracking.SumCostsForDay` | src/ingestion/cost-tracker.ts:28-55 | the sum over the well-formed lines of the day, or an error if the file is unreadable |
| `CostTracking.CostTracker.RecordEntry` | src/ingestion/cost-tracker.ts:88-115 | the cache update comes first; the line follows if the write succeeds, glued onto an unfinished one |
| `CostTracking.CostTracker.SpentToday` | src/ingestion/cost-tracker.ts:121-128 | the cached total on the cached day, otherwise a scan that is then cached |
| `Truncation.TruncateToTokenBudget` | src/server/truncate.ts:56-87 | the two backward scans find the cut of the specification |
| `Truncation.TruncatedBounds` | src/server/truncate.ts:51-60 | the result is a beginning of the text within four units a token, and the whole text exactly when it fits |
| `Truncation.CutsPreferBoundaries` | src/server/truncate.ts:65-86 | the window is the last 30 percent of the budget; the cut follows the last sentence end of the window; without one it precedes the last whitespace; only with neither is it a hard cut |
| `Truncation.TokensCountChars` | src/server/truncate.ts:40-48 | counting tokens and counting characters agree on what fits |
| `ProgressiveRender.RenderHitBound` | src/server/progressive-query.ts:393-448 | the block of a hit is within its budget unless its header alone is over it |
| `ProgressiveRender.FillKeepsPageOk` | src/server/progressive-query.ts:314-322 | the shared loop never counts more than the budget and counts every block it takes |
| `ProgressiveRender.Tier0Bound` | src/server/progressive-query.ts:279-287 | tier 0 delivers at most its budget |
| `ProgressiveRender.TierBound` | src/server/progressive-query.ts:293-391 | tiers 1 to 3 deliver at most one token over their budget |
| `ProgressiveRender.TierOverruns` | src/server/progressive-query.ts:293-391 | under every budget of at least 14 tokens and for each of the tiers 1 to 3 there are hits, formatted as the search formats them, for which the tier delivers one token more |
| `ProgressiveRender.SmallTierHolds` | src/server/progressive-query.ts:293-391 | under fewer than 14 tokens no formatted hits make a tier deliver more than its budget: there is room for one block only, and no newline joins it to another |
| `ProgressiveRender.OverrunsExactly` | src/server/progressive-query.ts:293-391 | a tier can deliver more than its budget if and only if the budget is at least 14 tokens |
| `ProgressiveRender.DeltasPartition` | src/server/progressive-query.ts:188-190 | the hits the four tiers add are the first eight, in order, none twice |
| `ProgressiveRender.Tier3RepeatsExactly` | src/server/progressive-query.ts:368-376 | tier 3 renders its own hits if and only if there are more than five, and otherwise earlier hits again |
| `ProgressiveRender.RenderHitSectionLedes` | src/server/progressive-query.ts:402-437 | the loop over the sections with its shortened last block |
| `ProgressiveRender.FillPage` | src/server/progressive-query.ts:314-322 | the loop all tiers share stops at the first block that does not fit |
| `ProgressiveRender.RenderTier1` | src/server/progressive-query.ts:293-324 | outline of the top hit, then the next hits |
| `ProgressiveRender.RenderTier2` | src/server/progressive-query.ts:331-358 | section ledes of the top hits, then the new hits |
| `ProgressiveRender.RenderTier3` | src/server/progressive-query.ts:366-391 | full bodies of the new hits |
| `ProgressiveRender.Render` | src/server/progressive-query.ts:257-276 | the tier asked for, nothing without a budget |
| `ProgressiveContent.HitInFull` | src/server/progressive-query.ts:393-448 | with the tokens it needs the block of a hit is its title, path and score and then the whole of the text its tier is about |
| `ProgressiveContent.HitShowsABeginning` | src/server/progressive-query.ts:393-448 | with fewer it shows a beginning of that text |
| `ProgressiveContent.SectionsShowABeginning` | src/server/progressive-query.ts:402-437 | section ledes are shown whole and in order, the last one perhaps shortened |
| `ProgressiveContent.Tier0InFull` | src/server/progressive-query.ts:279-287 | the first answer shows the lede of the top hit in full if there is room |
| `ProgressiveContent.TierInFull` | src/server/progressive-query.ts:293-391 | with ten times the room of its longest block a tier shows all of its blocks in full: the outline of the top hit and the ledes of the next two; the section ledes of the first three and the ledes of the next two; the bodies of hits six to eight, or of all hits if there are at most five |
| `ProgressiveQuery.ConversationBound` | src/server/progressive-query.ts:168-221 | over any sequence of expansions the tokens shipped are those of the answers and at most max_tokens_total + 1 |
| `ProgressiveQuery.ExpandKeepsEntryOk` | src/server/progressive-query.ts:181-202 | each expansion keeps that bound, and one is given only while tokens are left |
| `ProgressiveQuery.GrantedExactly` | src/server/progressive-query.ts:171-191 | an expansion is granted if and only if a tier is to come, a token is left and the request amounts to one; the budget is the smaller of the rounded-down request, 1024 if it is missing or not positive, and what is left |
| `ProgressiveQuery.CapIsExceeded` | src/server/progressive-query.ts:181-202 | two answers, the second to a default expansion, that ship 23 tokens under a cap of 22 |
| `ProgressiveQuery.AskingWithinKeepsTheCap` | src/server/progressive-query.ts:181-183 | a conversation in which every expansion granted asks for less than what is left, or is granted with fewer than 14 tokens left, keeps to its cap |
| `ProgressiveQuery.SafeExactly` | src/server/progressive-query.ts:181-183 | the first, second and third expansion alike keep to the cap for all hits if and only if they ask for less than what is left, or fewer than 14 tokens are left |
| `ProgressiveQuery.AtMostThreeExpansions` | src/server/progressive-query.ts:177-179 | each tier is served at most once |
| `ProgressiveQuery.Query` | src/server/progressive-query.ts:107-155 | tier 0 within the smaller of the two budgets, with a continuation, handed out only if there is more to tell; a fixed text and no continuation without hits |
| `ProgressiveQuery.Expand` | src/server/progressive-query.ts:168-221 | the three refusals, or the next tier with the entry advanced; no other entry changes |
| `ProgressiveQuery.ProgressiveCache.Put` | src/server/progressive-cache.ts:80-92 | adds the entry and drops the stale ones and, if that leaves the cache full, one accessed no later than any other left; every other entry stays |
| `ProgressiveQuery.ProgressiveCache.Get` | src/server/progressive-cache.ts:97-106 | finds and touches a live entry, drops an expired one |
| `ProgressiveQuery.ProgressiveCache.EvictExpired` | src/server/progressive-cache.ts:129-135 | drops exactly the entries idle beyond the time to live |
| `ProgressiveQuery.ProgressiveCache.EvictLru` | src/server/progressive-cache.ts:137-147 | drops one entry accessed no later than any other |

## Left out

- Input and output as such: file handles, SQLite's engine, HTTP, timers, loggers, metrics; only their outcomes appear, as parameters.
- The internals of SHA-256, HMAC and AES-GCM, nonces, and constant-time comparison.
- JavaScript values that are not JSON in canonicalJson: `undefined` inside a value, functions, `toJSON`.
- Provenance records are kept as values, with a sequence number, links, digests, signature and key id of their declared types (all other payload fields may hold any JSON value or be absent): writing a record as a JSON line and parsing it back is taken to return it, fact_hashes fields and the merkle root are not represented, and a missing chain file is an empty one.
- A second process writing the chain file, and append racing an unfinished init; the daemon initializes first and is the only writer.
- ProvenanceChaining.ProvenanceChain.Append: takes the critical section undisturbed, its lock being the subject of ProvenanceConcurrency; a write lands whole, is lost or is torn after the whole line, so one that leaves part of a line is not represented.
- The methods of KeyStoring.KeyStore other than ResolveById and its parts require a well-kept store, whose KEK opens its live rows; the source checks no KEK when it opens a table, and KeyStoreSpec.ReopenKeepsInvExactly says which ones do.
- RedactionOutbox.RedactionEmitWorker.Stop: does not wait for the tick in flight, which ends later by SettleTick and, the worker being stopped, arms no timer.
- ISO timestamps in the key store are integers; the outbox and the cost log keep theirs as text.
- Scheduler latency statistics and getStatus, caps that change over time, and an execute callback that throws synchronously or enqueues while the tick is running.
- The scheduler is not work-conserving, and no such claim is made: a tick launches at most one job a tenant and does not reschedule itself.
- Building the wiki-relative path of a page (node's path functions); a page carries its relative path. Finding ids and descriptions of the health report are reduced to the two slugs.
- The order in which SQLite returns the ids of archived rows (unspecified by the query) is taken to be insertion order, and its limit on the number of bound variables is not represented.
- An outbox store operation that throws inside a tick is a crash in OutboxRuns and a failed Finish in RedactionOutbox; rows an exception would roll back are unchanged. Timer delays beyond what setTimeout accepts are not clamped.
- The rate limiter's tokens are exact reals and its clock whole milliseconds; binary rounding of refills is not represented. A rate that is not a number is not either.
- The debounce window is a whole number of milliseconds between events and its growth factor an exact real; the watcher's retry path, which puts back adds only, is outside the batcher.
- A failed write of the cost log writes nothing; one that leaves part of a line is the unfinished last line a later tracker finds.
- The cost tracker's per-operation caps (checkOperationBudget, wouldExceedDaily) only compare the cached total with limits.
- ProgressiveQuery.SafeExactly: speaks of hits as the search formats them, scores with three decimals and outline lines with a bullet and a title; ConversationBound needs neither.
- Parsing of pages in progressive retrieval: frontmatter, first paragraphs, outlines and section ledes arrive already extracted, with scores already formatted; the 0.6 and 0.3 shares are exact reals. Reported estimates for the next tier, labels and hit counts only describe the result.
- ProgressiveQuery.Expand: reads the clock once for the whole call, because nothing in the call waits.
- CrossReference.RepairBidirectionalLinks: takes each page object once. Pages whose paths give the same slug are followed by the method, but its promises are proved for distinct slugs.
- Health-score formulas, slug helpers, config merging, redaction patterns and IP filtering, which would only add easy members.
