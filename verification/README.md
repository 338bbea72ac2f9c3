# Soter: a verified model of its state machines, caches and audit trails

Soter checks humanitarian aid claims with language models and keeps an audit trail of what was decided.
This project models the parts of its AI service, its backend's audit and analytics utilities and its
on-chain deployment scripts whose correctness depends on more than one function: protocols over shared
maps, logs that must survive restarts, windows of time, and transformations that must preserve meaning.

`dafny verify dfyconfig.toml` checks all of it.

| Files | What they model |
|---|---|
| `CacheKeys`, `SingleFlight`, `SingleFlightSafety`, `CacheTransparency`, `CacheSharing` | the `cached_response` decorator: identity and content keys, and the single-flight protocol as a state machine over any number of callers |
| `CacheInvalidation`, `UnmatchedIds` | deleting cached verifications by artifact, with the glob match of Redis written out, and the ids it does not find |
| `Json`, `JsonMeaning`, `JsonCanonical`, `JsonText`, `JsonReader`, `JsonOrder`, `JsonSettled` | `sortDeep`, `jsonDeepEqual` and `JSON.stringify` on UTF-16 text, a reader of JSON text, what a JSON value means and what its text keeps of it |
| `AuditChain`, `AuditVerification` | canonical metadata, entry hashes, the chain fold, appending and the verification walk |
| `DecisionAudit` | the append-only decision log with its indexes, pruning, failing rewrites and reload |
| `RateLimiter` | the in-memory sliding window |
| `PiiSpans` | choosing, masking and previewing detected spans |
| `UploadSessions`, `UploadRuns` | resumable uploads, their rollback and the two-phase purge |
| `Failover`, `ProviderVisits`, `CircuitBreakers`, `BreakerAlerts`, `CostCeiling` | the provider work list of claim verification and the three mechanisms that steer it |
| `DeadLetter` | rate-limited, audited replays |
| `DeploymentRegistry` | registering, finding and publishing contract deployments |
| `DashboardStats` | the breakdowns of the dashboard and their rounding |
| `Basics`, `Sorting`, `Timestamps` | shared: result shapes, orders and stable sorting, counting timestamps |

Each stateful component has a class whose methods are proved equal to functions on values; runs are
sequences of calls to those functions, and the theorems quantify over all of them. Time, identifiers,
model answers and whether Redis or the disk serves a call are parameters.

## What turned out differently from what one might expect

* A cached result is served as JSON gives it back. The cache is transparent exactly when JSON does not
  alter the function's results (`CacheTransparency.TransparentExactly`).
* `canonicalJson` loses an own member named `__proto__`, because assigning it sets the prototype, and
  writes an infinite number, which `1e400` is read as, as `null`, while `jsonDeepEqual` compares both.
  The two agree on all values without either (`AuditChain.CanonicalJsonIffDeepEqual`), and what
  `canonicalJson` distinguishes in general is stated as well (`AuditChain.CanonicalJsonExactly`).
* Verification compares the visible metadata with the parsed canonical text. An untouched log therefore
  fails when metadata with a `__proto__` member, or metadata that is a string, was appended to it, and
  passes in every other case (`AuditVerification.AppendedLogVerifiesExactly`).
* An anonymized row is not linked to the rows before it, so an anchor pins the rows after the last
  anonymized one and no others: a log that passes still does, against the same anchor, without the rows
  in front of an anonymized one (`AuditVerification.AnchorPinsTail`, `AuditVerification.AnonymizedRowBegins`).
* `docs/audit-log-integrity.md` (section 7.3) says that an empty chain fails the anchored check; the code
  returns before it looks at the anchor, and the model follows the code (`AuditVerification.ValidExactly`).
* Invalidation by artifact is made of the id as it is, while sanitizing has changed the id in the key. No
  identity key is found for an id (free of `[` and backslashes) that has a `]` or five or more colons
  (`UnmatchedIds.TooManyIsMissed`), nor for one with two or more colons and no `=`, `*`, `?`
  (`UnmatchedIds.ColonsAreMissed`). An id with an equals sign can be found across a separator of the key:
  what a pattern without wildcards finds is `UnmatchedIds.LiteralPatternExactly`.
* Artifact ids are joined with commas, so an id with a comma reads like two in the identity key
  (`CacheKeys.CommaIdsCollide`; `CacheKeys.IdentityKeysExactly` says when identity keys are shared).
* Where the primary prompt of a provider cannot be delivered and that trips its breaker, a valid answer to
  the fallback prompt is returned but leaves the breaker open (`ProviderVisits.BreakerExactly`).
* The limiter reads an empty deque when its limit is not positive.
* With a maximum of zero or less the dead-letter queue still grants the first replay
  (`DeadLetter.MaximumKeptExactly`).
* A circuit breaker whose threshold is not positive is closed at its threshold from the start
  (`CircuitBreakers.ClosedBelowThresholdExactly`).

## Model

| member | source | states |
|---|---|---|
| `CacheKeys.ArtifactOrderIrrelevant` | app/ai-service/api/v1/humanitarian.py:398-417 | neither key depends on the order in which a request lists its artifacts |
| `CacheKeys.LastColon` | app/ai-service/services/cache.py:72-95 | the digest at the end of a key can be read off it, whatever the tags contain |
| `CacheKeys.KeysStandForArguments` | app/ai-service/services/cache.py:290-331 | the identity key and the content key of one call stand for the same arguments, those without the excluded tags and the content hash |
| `CacheKeys.SharedKeySameArguments` | app/ai-service/api/v1/humanitarian.py:160-209 | two requests that share any key agree in service, organisation, model, prompt version and all other arguments; only artifacts and content hash may differ |
| `CacheKeys.ContentKeysExactly` | app/ai-service/services/cache.py:308-331 | two requests with evidence share the content key if and only if they agree in service, all other arguments and the sanitized content hash, whatever their artifacts; a hash without special characters counts as it is |
| `CacheKeys.IdentityKeysExactly` | app/ai-service/services/cache.py:290-307 | two requests share the identity key if and only if they agree in service and all other arguments and their sorted ids join to one text, which for non-empty ids without commas means the same artifacts |
| `CacheKeys.CommaIdsCollide` | app/ai-service/api/v1/humanitarian.py:398-400 | one id with a comma and the two ids it spells give one identity key |
| `CacheKeys.SanitizedIsClean` | app/ai-service/services/cache.py:97-106 | a sanitized value has no wildcard, bracket or colon, and is unchanged exactly if it had none |
| `CacheInvalidation.CacheService.DeletePattern` | app/ai-service/services/cache.py:175-203 | exactly the matching keys go, the count is their number, and an error deletes nothing |
| `CacheInvalidation.CacheService.InvalidateVerificationByArtifact` | app/ai-service/services/cache_invalidation.py:74-106 | the store afterwards is the old one without the keys of the patterns whose deletion was served, each of which may fail by itself, and the count is the difference |
| `CacheInvalidation.PrimaryKeyIsMatched` | app/ai-service/services/cache_invalidation.py:95-97 | the pattern of an artifact matches the identity key of every request that lists it, whatever its other artifacts, if the id is not empty and has no colon, bracket or backslash |
| `CacheInvalidation.ContentKeyIsMatched` | app/ai-service/services/cache_invalidation.py:98-100 | the second pattern matches every content key |
| `CacheInvalidation.InvalidationComplete` | app/ai-service/services/cache_invalidation.py:74-106 | for such an id, afterwards no entry is one that the decorator writes for a request listing the artifact, neither under its identity nor under its content key |
| `CacheInvalidation.PartialInvalidation` | app/ai-service/services/cache_invalidation.py:74-106 | for such an id whichever of the two deletions is served removes its own key of every request listing the artifact, and every entry that is left is unchanged |
| `CacheInvalidation.InvalidationConfined` | app/ai-service/services/cache_invalidation.py:74-106 | entries outside the verification namespace stay |
| `UnmatchedIds.OwnPatternExactly` | app/ai-service/services/cache.py:97-106 | an id without opening bracket and backslash matches its own sanitized form exactly when it has no colon and no closing bracket |
| `UnmatchedIds.LiteralPatternExactly` | app/ai-service/services/cache_invalidation.py:95-97 | the pattern of an id without wildcards, brackets and backslashes matches exactly the keys of the namespace in which the id stands somewhere after `artifact_tag=` |
| `UnmatchedIds.SurvivesExactly` | app/ai-service/services/cache_invalidation.py:74-106 | for such an id exactly the entries survive, and unchanged, in whose key it does not stand after `artifact_tag=` and that have no content hash |
| `UnmatchedIds.TooManyIsMissed` | app/ai-service/services/cache_invalidation.py:95-97 | an id without opening bracket and backslash that has a closing bracket, or five or more colons, is found in no identity key of any request |
| `UnmatchedIds.ColonsAreMissed` | app/ai-service/services/cache_invalidation.py:95-97 | an id with two or more colons and none of `=`, `*`, `?`, `[` and backslash is found in no identity key of any request |
| `UnmatchedIds.GlobConsumes` | app/ai-service/services/cache.py:175-203 | a plain character of a pattern is consumed by an equal one of every text it matches |
| `SingleFlight.Worker.Arrive` | app/ai-service/services/cache.py:333-365 | hit, content hit with backfill, or miss, exactly as the step function of the state machine |
| `SingleFlight.Worker.Enter` | app/ai-service/services/cache.py:366-397 | under the lock a caller answers from a finished flight, waits for an unfinished one, or begins one |
| `SingleFlight.Worker.FuncReturns` | app/ai-service/services/cache.py:399-404 | the function's result is on its way to the tables, or for a fallback straight to the store |
| `SingleFlight.Worker.Publish` | app/ai-service/services/cache.py:405-420 | result recorded, both keys stored, event set and cleanup scheduled in one step |
| `SingleFlight.Worker.PublishError` | app/ai-service/services/cache.py:420-432 | error recorded, event set, cleanup scheduled, nothing stored |
| `SingleFlight.Worker.Resume` | app/ai-service/services/cache.py:433-452 | a woken waiter takes the recorded outcome or falls back to the function |
| `SingleFlight.Worker.RunCleanup` | app/ai-service/services/cache.py:210-223 | a cleanup removes its key from all three tables |
| `SingleFlightSafety.StepKeeps` | app/ai-service/services/cache.py:366-452 | every step of every caller, cleanup and loss keeps the invariant of tables, owners, waiters and flight counts |
| `SingleFlightSafety.ExactlyOneOwner` | app/ai-service/services/cache.py:366-397 | at every moment of every run an unset event has exactly one owner |
| `SingleFlightSafety.CompletedFlightAnswers` | app/ai-service/services/cache.py:370-384 | an event still in the table is set exactly when it has an outcome; the completed branch always returns or raises, and `is_computing` is always assigned |
| `SingleFlightSafety.CleanupRemovesOwnFlight` | app/ai-service/services/cache.py:210-223 | a cleanup only ever removes the flight it was scheduled for, never a later one of the same key |
| `SingleFlightSafety.FlightsConserved` | app/ai-service/services/cache.py:210-223 | per key, flights begun are flights cleaned up plus the one in the table |
| `SingleFlightSafety.FallbackExactly` | app/ai-service/services/cache.py:433-452 | a woken waiter runs the function itself exactly when its key has no finished flight any more, so never before the cleanup of its own |
| `SingleFlightSafety.WaitersHaveOwners` | app/ai-service/services/cache.py:385-390 | an unset event that is waited on has an owner |
| `CacheTransparency.AnswersComeFromSameArguments` | app/ai-service/services/cache.py:333-452 | whatever mix of hits, backfills, joins, fallbacks, losses and failures led there, an answer was produced, and an exception raised, by an execution for the caller's own arguments |
| `CacheTransparency.TransparentExactly` | app/ai-service/services/cache.py:108-153 | in all runs of a deterministic function every call that returns gets the function's value if and only if JSON does not alter the results |
| `CacheTransparency.NeverAnotherTenantsAnswer` | app/ai-service/api/v1/humanitarian.py:163-209 | an answer of the verification endpoint came from a request of the same organisation with the same arguments |
| `CacheSharing.ArrivalExactly` | app/ai-service/services/cache.py:333-365 | an arriving call is answered exactly when one of its keys hits, the identity key first, and a hit of the content key alone is remembered under the identity key |
| `CacheSharing.ResultStored` | app/ai-service/services/cache.py:399-420 | a result is stored under both keys of its call, as far as the writes are served, and under no other |
| `CacheSharing.JoinedIsRemembered` | app/ai-service/services/cache.py:370-384 | a caller that takes the result of another's flight has it stored under its own identity key exactly if it has a content key |
| `CacheSharing.StoredResultIsShared` | app/ai-service/services/cache.py:345-365 | in every run, once a result was stored under a content key each later call with that key is answered without an execution, unless the entry is lost or a null |
| `CacheSharing.SameFlightJoins` | app/ai-service/services/cache.py:366-397 | a call that gets the lock while another with its content key is computing or storing waits for that one and begins nothing |
| `CacheSharing.SameEvidenceShares` | app/ai-service/api/v1/humanitarian.py:398-417 | two requests with one evidence hash and equal other arguments share one verification even if they name other artifacts |
| `Json.SortObject` | app/backend/src/audit/audit-chain.util.ts:31-37 | the loop over sorted keys builds the object that `sortDeep` is specified by |
| `Json.ObjectsEqual` | app/backend/src/audit/audit-chain.util.ts:71-82 | the loop over the sorted keys of both objects decides their deep equality |
| `JsonMeaning.DeepEqualIsSameMeaning` | app/backend/src/audit/audit-chain.util.ts:62-82 | `jsonDeepEqual` holds exactly between values that mean the same, objects being maps |
| `JsonCanonical.SortDeepMeaning` | app/backend/src/audit/audit-chain.util.ts:24-40 | `sortDeep` keeps the meaning of a value, but for `__proto__` members |
| `JsonCanonical.SortDeepIsNormalForm` | app/backend/src/audit/audit-chain.util.ts:24-40 | two values have one normal form exactly when they mean the same without `__proto__` members |
| `JsonCanonical.SortDeepIdempotent` | app/backend/src/audit/audit-chain.util.ts:24-40 | sorting a second time changes nothing |
| `JsonCanonical.MemberOrderIrrelevant` | app/backend/src/audit/audit-chain.util.ts:15-22 | deeply equal values have the same normal form, whatever the order of members at any depth |
| `JsonOrder.SortDeepInOrder` | app/backend/src/audit/audit-chain.util.ts:24-40 | at every depth members come with array indexes first, in numeric order, and then by code units |
| `JsonOrder.UnitsLeExactly` | app/backend/src/audit/audit-chain.util.ts:31-33 | the order of keys puts a beginning first and otherwise goes by the first unit that differs |
| `JsonOrder.TwoSpaces` | app/backend/src/audit/audit-chain.util.ts:20-22 | elements and members stand on lines of their own, indented by two spaces for each level |
| `JsonOrder.PlainTextIsCopied` | app/backend/src/audit/audit-chain.util.ts:20-22 | text without quotes, backslashes, control characters and surrogates is not escaped |
| `JsonOrder.EscapesAreShortest` | app/backend/src/audit/audit-chain.util.ts:20-22 | what must be escaped gets its short form where there is one, else four hexadecimal digits in lower case |
| `JsonText.QuotedInjective` | app/backend/src/audit/audit-chain.util.ts:20-22 | the text of a JSON string up to its closing quote determines the string, lone surrogates and escapes included |
| `JsonText.PrintInjective` | app/backend/src/audit/audit-chain.util.ts:20-22 | the pretty-printed text of a value without infinite numbers determines it, whatever follows |
| `JsonReader.PrintedRead` | app/backend/src/audit/audit-chain.util.ts:20-22 | round trip: the pretty-printed text of a value without infinite numbers is read as that value by a reader of JSON, whatever follows |
| `JsonReader.StringRead` | app/backend/src/audit/audit-chain.util.ts:20-22 | an escaped string is read as the string, lone surrogates included |
| `JsonSettled.PrintSettled` | app/backend/src/audit/audit-chain.util.ts:20-22 | a value prints like the one in which every infinite number is null |
| `JsonSettled.TextKeepsExactly` | app/backend/src/audit/audit-chain.util.ts:20-82 | what the canonical text of a value says is deeply equal to the value exactly when it has neither a `__proto__` member nor an infinite number |
| `AuditChain.CanonicalJsonExactly` | app/backend/src/audit/audit-chain.util.ts:20-40 | canonical texts agree exactly when the values mean the same without `__proto__` members and with null for infinite numbers |
| `AuditChain.CanonicalJsonIffDeepEqual` | app/backend/src/audit/audit-chain.util.ts:20-82 | on values with neither, exactly when they are deeply equal |
| `AuditChain.ProtoMemberIsLost` | app/backend/src/audit/audit-chain.util.ts:32-36 | with such a member they may agree although the values are not deeply equal |
| `AuditChain.InfiniteIsLost` | app/backend/src/audit/audit-chain.util.ts:20-22 | and so they do for an infinite number and null under one key |
| `AuditChain.StringBypasses` | app/backend/src/audit/audit-chain.util.ts:47-54 | a string is taken as canonical already, so it collides with the value it spells although the two are not equal |
| `AuditChain.PayloadDeterminesFields` | app/backend/src/audit/audit-chain.util.ts:89-127 | the array payload determines its fields one by one: no separator ambiguity |
| `AuditChain.PayloadIsJson` | app/backend/src/audit/audit-chain.util.ts:113-125 | the payload is JSON text of an array of strings: version, id, sequence, previous hash, actor, entity, entity id, action, timestamp and metadata hash, in this order |
| `AuditChain.IntTextInjective` | app/backend/src/audit/audit-chain.util.ts:114-118 | different sequence numbers have different texts |
| `AuditChain.HeadFixesHashes` | app/backend/src/audit/audit-chain.util.ts:180-199 | for any way of hashing whose hashes show their links, two lists that fold to one head have one length and the same hash at every place |
| `AuditChain.SealDetermines` | app/backend/src/audit/audit-chain.util.ts:98-127 | on texts without a collision two rows have one entry hash if and only if they agree on id, sequence number, previous hash, actor, entity, entity id, action, timestamp and canonical metadata |
| `AuditChain.HeadHashDeterminesLog` | app/backend/src/audit/audit-chain.util.ts:153-199 | two lists that verify from genesis and end in one head hash have one length and agree, row by row, on each of these fields |
| `AuditChain.TruncationShowsOnlyInHead` | app/backend/src/audit/audit-chain.util.ts:141-199 | a list cut short still verifies, but with another head hash |
| `AuditChain.AppendsVerify` | app/backend/src/audit/audit-chain.service.ts:116-171 | whatever is appended, the log folds without error, its head is the hash stored last, and its entries are numbered from one without a gap |
| `AuditChain.AppendsStored` | app/backend/src/audit/audit-chain.service.ts:116-171 | each append has its row in the log, with the actor, entity, action and metadata that were given and the hash of the row before; null or missing metadata is the empty object |
| `AuditVerification.VerifyChain` | app/backend/src/audit/audit-chain.service.ts:225-345 | the walk with its issue limit decides the validity that the following rows characterise |
| `AuditVerification.WalkFindsExactly` | app/backend/src/audit/audit-chain.service.ts:244-330 | over any sealed rows the walk finds no issue exactly when every row has a sequence number, greater than the one before it, and is anonymized or continues the chain from the hash stored in front of it, with metadata that matches its canonical text |
| `AuditVerification.ValidExactly` | app/backend/src/audit/audit-chain.service.ts:225-345 | the check, anchored or not, passes exactly for the empty log and for logs of which that is true and whose last stored hash is the anchor, if one is given |
| `AuditVerification.NumbersRise` | app/backend/src/audit/audit-chain.service.ts:276-285 | in a log that passes the sequence numbers rise strictly, anonymized rows included |
| `AuditVerification.AnchorPinsTail` | app/backend/src/audit/audit-chain.service.ts:186-192 | two logs that pass with the same anchor agree on every hashed field of their last rows, as far back as neither has an anonymized one, and on the hash stored in front of these |
| `AuditVerification.AnonymizedRowBegins` | app/backend/src/audit/audit-chain.service.ts:287-308 | and no further: a log that passes also passes, with the same anchor, without the rows in front of an anonymized one |
| `AuditVerification.AnchorPinsLog` | app/backend/src/audit/audit-chain.service.ts:186-192 | two non-empty logs without anonymized rows that pass with the same anchor have one length and agree on every hashed field of every row |
| `AuditVerification.AnonymizingKeepsValid` | app/backend/src/audit/audit-chain.service.ts:294-308 | anonymizing any rows of a log that verifies leaves it verifying, against the same anchor |
| `AuditVerification.MatchesExactly` | app/backend/src/audit/audit-chain.service.ts:554-578 | the metadata of an untouched row matches its canonical text exactly when it is not a string and has no `__proto__` member |
| `AuditVerification.AppendedLogVerifiesExactly` | app/backend/src/audit/audit-chain.service.ts:116-171 | a log that was appended passes, anchored at its own head, exactly when that is true of all its metadata |
| `AuditVerification.AppendedLogReadsExactly` | app/backend/src/audit/audit-chain.service.ts:116-171 | with the reader of this project in place of `JSON.parse` that holds of all well-formed metadata and without any assumption on reading |
| `DecisionAudit.DecisionAuditStore.constructor` | app/ai-service/services/decision_audit.py:187-220 | opening replays the well-formed lines in order, prunes and compacts |
| `DecisionAudit.DecisionAuditStore.Append` | app/ai-service/services/decision_audit.py:346-371 | log, records, indexes and write counter after an append, with the sweep at every hundredth |
| `DecisionAudit.DecisionAuditStore.Prune` | app/ai-service/services/decision_audit.py:287-301 | expired records leave memory; the file follows if the rewrite succeeds; the number dropped is returned |
| `DecisionAudit.IndexExactly` | app/ai-service/services/decision_audit.py:251-261 | an index holds exactly the non-empty values that occur, each with the ids of its records in order |
| `DecisionAudit.ByIdExactly` | app/ai-service/services/decision_audit.py:251-261 | with distinct ids the id index finds exactly the record with that id |
| `DecisionAudit.DecisionAuditStore.Get` | app/ai-service/services/decision_audit.py:373-375 | the record with the id, or none if there is none |
| `DecisionAudit.DecisionAuditStore.Query` | app/ai-service/services/decision_audit.py:377-416 | the answer is what a linear scan with all filters finds, newest first, cut to the limit so that nothing left out is newer, in whatever order the candidate set is read |
| `DecisionAudit.ScanExactly` | app/ai-service/services/decision_audit.py:391-411 | what a query matches are the records with every identifier and the type it names, an empty one naming none |
| `DecisionAudit.RestartEquivalence` | app/ai-service/services/decision_audit.py:187-247 | after any run of appends, prunes, failed rewrites and reloads, loading the file at any later time gives the records in memory pruned at that time, in the same order |
| `DecisionAudit.NothingLost` | app/ai-service/services/decision_audit.py:275-361 | and these are all records ever accepted that have not expired, in order |
| `DecisionAudit.HeldExactly` | app/ai-service/services/decision_audit.py:275-301 | after any run a record no older than the retention, or any record if the retention is not positive, is held in memory and in the file exactly as often as it was accepted |
| `DecisionAudit.SweptExactly` | app/ai-service/services/decision_audit.py:346-361 | expired records leave on opening, on pruning and with every hundredth append since opening, when the file is compacted if anything left; at every other append nothing leaves |
| `DecisionAudit.RunKeepsIdsDistinct` | app/ai-service/services/decision_audit.py:251-361 | while ids are not reused, the store has distinct ids at every point of every run |
| `RateLimiter.RateLimiterService.Check` | app/ai-service/services/rate_limiter.py:178-231 | the deque of the key and the verdict after one call; other keys stay |
| `RateLimiter.WindowSafety` | app/ai-service/services/rate_limiter.py:178-231 | in every run with a monotone clock any half-open window holds at most `limit` admissions of a key |
| `RateLimiter.RefusedExactly` | app/ai-service/services/rate_limiter.py:188-213 | although old timestamps are dropped, a request is refused exactly when `limit` of all admissions ever made lie in the window that ends now |
| `RateLimiter.RetryAfterIsLeast` | app/ai-service/services/rate_limiter.py:194-213 | `retry_after` lies in [1, window] and is the least whole number of seconds after which the key is admitted |
| `RateLimiter.AdmissionIsTold` | app/ai-service/services/rate_limiter.py:215-231 | `remaining` is the limit less all admissions of the window, this one included, and `reset_seconds` the least whole number of seconds after which one of them has left it |
| `RateLimiter.NonPositiveLimitAlwaysFails` | app/ai-service/services/rate_limiter.py:194-204 | with a limit of zero or less no request of any run is answered |
| `PiiSpans.DedupeAndSort` | app/ai-service/services/pii_scrubber.py:498-525 | the loop computes the greedy selection |
| `PiiSpans.AllowlistedExactly` | app/ai-service/services/pii_scrubber.py:502-506 | a detected span is to be masked exactly if it lies in the text and no stretch of it between spaces or its ends is an allowlisted word |
| `PiiSpans.SelectionPlaced` | app/ai-service/services/pii_scrubber.py:498-525 | the selection is in order, pairwise disjoint, inside the text and drawn from the spans without an allowlisted word |
| `PiiSpans.DiscardedStartsInsideKept` | app/ai-service/services/pii_scrubber.py:502-525 | every detected span without an allowlisted word is kept or starts inside a kept one; of two that start at one place the longer is kept, of equal ranges the email |
| `PiiSpans.WhollyMaskedExactly` | app/ai-service/services/pii_scrubber.py:515-523 | such a span lies wholly inside a kept one exactly when no kept span ends in its middle |
| `PiiSpans.MaskSpans` | app/ai-service/services/pii_scrubber.py:527-548 | the loop computes the masked text and the token counts |
| `PiiSpans.OneSpanMasked` | app/ai-service/services/pii_scrubber.py:527-548 | the text around a masked span stays, and the token in its place names its label |
| `PiiSpans.TokenCountsExactly` | app/ai-service/services/pii_scrubber.py:533-546 | token counts are the numbers of spans label by label, and no other token is counted |
| `PiiSpans.CountsAddUp` | app/ai-service/services/pii_scrubber.py:132-153 | the six counts of the summary add up to the number of spans |
| `PiiSpans.BuildPreviewSegments` | app/ai-service/services/pii_scrubber.py:168-200 | the loop computes the segments |
| `PiiSpans.SegmentsTile` | app/ai-service/services/pii_scrubber.py:168-200 | the segments cover the text once, from its start to its end |
| `PiiSpans.RedactedAreSpans` | app/ai-service/services/pii_scrubber.py:185-193 | the redacted segments are the spans, one by one, with their categories |
| `PiiSpans.PreviewAndMaskAgree` | app/ai-service/services/pii_scrubber.py:168-200 | for any detected spans at all, filling the tokens into the preview gives the masked text |
| `UploadSessions.UploadSessionService.Create` | app/ai-service/services/upload_sessions.py:109-141 | the refusals in order, or a new empty session |
| `UploadSessions.UploadSessionService.RequireActive` | app/ai-service/services/upload_sessions.py:88-97 | not found, expired and purged, foreign, or usable |
| `UploadSessions.UploadSessionService.RecalculateReceivedBytes` | app/ai-service/services/upload_sessions.py:99-105 | the sum over the received set, in any order, is the size of the stored chunks |
| `UploadSessions.UploadSessionService.SaveChunk` | app/ai-service/services/upload_sessions.py:147-176 | sessions and chunk files after a chunk, with the rollback |
| `UploadSessions.UploadSessionService.Finalize` | app/ai-service/services/upload_sessions.py:178-206 | sessions, files and artifacts after finalizing |
| `UploadRuns.ReceivedIsStored` | app/ai-service/services/upload_sessions.py:147-176 | for every unfinished session of every run, `received_chunks` is the set of chunk files and `received_bytes` their size, never above the maximum |
| `UploadRuns.CreatedForItsOwner` | app/ai-service/services/upload_sessions.py:109-141 | when a session is created, and that it then can be looked up by its owner and nobody else, up to the end of its time |
| `UploadRuns.StrangersRefused` | app/ai-service/services/upload_sessions.py:88-97 | of any store: a caller with an empty id or another than the owner's is refused by looking up, saving and finalizing, and nothing changes; expired sessions are removed, unknown ones not found |
| `UploadRuns.OwnerGetsThrough` | app/ai-service/services/upload_sessions.py:88-97 | the owner of a session in time is refused for none of these reasons, and finalizing a finished session again succeeds without a change |
| `UploadRuns.SaveExactly` | app/ai-service/services/upload_sessions.py:147-176 | which chunk is refused for what reason, and that it is accepted exactly when it is in range, not empty and replaces the old one within the maximum; one byte too many removes the index |
| `UploadRuns.FinalizeExactly` | app/ai-service/services/upload_sessions.py:178-206 | finalizing succeeds exactly when all chunks are there and add up to the announced size, and writes them in order; else which of the two is missing is told |
| `UploadRuns.ArtifactIsTheFile` | app/ai-service/services/upload_sessions.py:147-206 | if accepted chunks carry the consecutive pieces of a file, the artifact is the file byte for byte, whatever the order, the retransmissions and the other calls |
| `UploadRuns.SelectedAreDead` | app/ai-service/services/upload_sessions.py:214-242 | whatever happens between its phases, a purge only deletes sessions that were expired and unfinished when selected and that no later call can use |
| `UploadRuns.PurgeSelectsExactly` | app/ai-service/services/upload_sessions.py:214-242 | a purge selects exactly the unfinished sessions whose time is over, and leaves neither such a session nor its chunks |
| `UploadRuns.KeptUntilExpiry` | app/ai-service/services/upload_sessions.py:214-242 | until it expires no session is lost, whatever calls and purges there are, and its owner, sizes and artifact stay |
| `UploadRuns.PurgeConfined` | app/ai-service/services/upload_sessions.py:230-242 | deleting leaves every other session, every session's directory and all artifacts |
| `UploadRuns.DeletionIsInvisible` | app/ai-service/services/upload_sessions.py:79-97 | to any call it makes no difference whether a selected session is deleted yet, but for the reason of a refusal it gets either way |
| `BreakerAlerts.CircuitBreakerAlerter.NotifyTransition` | app/ai-service/services/circuit_breaker_alerts.py:209-254 | what is remembered and counted, and whether an alert goes out |
| `BreakerAlerts.AlertsSpaced` | app/ai-service/services/circuit_breaker_alerts.py:229-260 | alerts of one provider and event are at least the window apart, whatever the clock does |
| `BreakerAlerts.AlertsBounded` | app/ai-service/services/circuit_breaker_alerts.py:256-260 | any span of length T holds at most floor(T / W) + 1 of them |
| `BreakerAlerts.SuppressedExactly` | app/ai-service/services/circuit_breaker_alerts.py:209-260 | an alertable transition is suppressed exactly when an alert of its kind went out less than a window before; with alerts switched off nothing goes out or is remembered |
| `BreakerAlerts.EveryEventAccountedFor` | app/ai-service/services/circuit_breaker_alerts.py:229-254 | alerts dispatched and suppressed add up to the alertable transitions |
| `CircuitBreakers.CircuitBreaker.Allow` | app/ai-service/services/circuit_breaker.py:140-151 | admission, state and alert of a request |
| `CircuitBreakers.CircuitBreaker.Success` | app/ai-service/services/circuit_breaker.py:153-159 | state and alert after a success |
| `CircuitBreakers.CircuitBreaker.Failure` | app/ai-service/services/circuit_breaker.py:161-172 | state and alert after a failure |
| `CircuitBreakers.TrippedAtThreshold` | app/ai-service/services/circuit_breaker.py:161-172 | open and half-open breakers have reached the threshold |
| `CircuitBreakers.ClosedBelowThresholdExactly` | app/ai-service/services/circuit_breaker.py:161-172 | closed breakers stay below it in every run exactly when it is at least one |
| `CircuitBreakers.TripsExactly` | app/ai-service/services/circuit_breaker.py:153-172 | the breaker is closed exactly as long as fewer failures than the threshold came in a row |
| `CircuitBreakers.HoldsOpen` | app/ai-service/services/circuit_breaker.py:140-172 | once open it admits nothing before the timeout, whatever else comes in, unless it is reset |
| `CircuitBreakers.ProbeDecides` | app/ai-service/services/circuit_breaker.py:140-172 | the request admitted after the timeout decides: its success closes the breaker with nothing counted, its failure starts another timeout |
| `CircuitBreakers.RetryTimeIsLeast` | app/ai-service/services/circuit_breaker.py:174-179 | `time_until_retry` is the least wait after which a request is admitted |
| `CircuitBreakers.RecoveryFollowsOpening` | app/ai-service/services/circuit_breaker_alerts.py:137-147 | every recovery directly follows an opening, and the last event tells whether the breaker is closed |
| `CircuitBreakers.AnnouncedExactly` | app/ai-service/services/circuit_breaker_alerts.py:137-147 | an opening is told whenever the breaker opens, from whatever phase, and a recovery whenever it closes, and nothing else is |
| `CostCeiling.ProviderCostCeiling.RecordSpend` | app/ai-service/services/provider_cost_ceiling.py:51-62 | of all buckets exactly that of the provider and its current window grows, by the cost, if that is positive and the provider has a ceiling; no other bucket changes or appears |
| `CostCeiling.SpendBounded` | app/ai-service/services/provider_cost_ceiling.py:45-62 | with n pieces of work at a time spend stays below the limit plus n costs in every window, rollover included |
| `CostCeiling.NonPositiveLimitSpendsNothing` | app/ai-service/services/provider_cost_ceiling.py:45-49 | without a positive limit nothing is ever spent |
| `CostCeiling.SpendIsCosts` | app/ai-service/services/provider_cost_ceiling.py:51-62 | a bucket holds the sum of the positive costs recorded in its window |
| `CostCeiling.ExceededExactly` | app/ai-service/services/provider_cost_ceiling.py:45-49 | a check fails exactly when the costs recorded in its window have reached the limit |
| `Failover.HumanitarianVerificationService.CallProvider` | app/ai-service/services/humanitarian_verification.py:388-455 | the bounded repair loop: what came of it and how many replies it used |
| `Failover.HumanitarianVerificationService.VerifyClaim` | app/ai-service/services/humanitarian_verification.py:140-266 | the work list loop ends, with the outcome and the state of the search that the following rows characterise |
| `Failover.ExaminedOnce` | app/ai-service/services/humanitarian_verification.py:147-188 | promotion only permutes what is pending: each listed provider is examined at most once, and each exactly once before exhaustion is raised |
| `Failover.FirstValidAnswerWins` | app/ai-service/services/humanitarian_verification.py:198-262 | at most four calls per provider and none to a skipped one; a verification is the first valid answer received, every other ending means there was none |
| `Failover.ManualReviewExactly` | app/ai-service/services/humanitarian_verification.py:149-188 | after a provider at its ceiling comes its fallback, or manual review if that is not pending, and manual review has no other cause |
| `Failover.SequentialSpendBounded` | app/ai-service/services/humanitarian_verification.py:147-238 | over any sequence of claims spend stays in every window below the limit plus the largest single cost |
| `Failover.PromptEffects` | app/ai-service/services/humanitarian_verification.py:213-262 | refusals and malformed output leave breaker and spend alone, a transport failure counts once, a valid answer clears the count and is returned, and no other provider is affected |
| `Failover.OnlyTransportFailuresTrip` | app/ai-service/services/humanitarian_verification.py:239-262 | refusals and malformed output never open a breaker |
| `ProviderVisits.SearchIsChain` | app/ai-service/services/humanitarian_verification.py:147-266 | verification over a list is a chain of verifications with one provider each: every provider comes up in the state the one before it leaves, and the last one's outcome is the outcome |
| `ProviderVisits.InListOrder` | app/ai-service/services/humanitarian_verification.py:147-149 | unless a ceiling is reached providers come up in the order of the list |
| `ProviderVisits.JudgedExactly` | app/ai-service/services/humanitarian_verification.py:149-193 | in every search a provider below its ceiling is skipped without a call exactly while its breaker is open and its recovery timeout not over; if supported it is called otherwise |
| `ProviderVisits.SkippedExactly` | app/ai-service/services/humanitarian_verification.py:149-193 | a skipped provider leaves breakers, spend and calls as they were |
| `ProviderVisits.CalledExactly` | app/ai-service/services/humanitarian_verification.py:196-262 | a called provider gets the primary prompt and then the fallback prompt, each with one more attempt after malformed output, and the first valid answer is the outcome |
| `ProviderVisits.BreakerExactly` | app/ai-service/services/humanitarian_verification.py:196-262 | what the deciding replies make of its breaker, and that no other breaker moves |
| `ProviderVisits.SpentExactly` | app/ai-service/services/humanitarian_verification.py:213-238 | the cost of the answer is spent in the window of its recording, and nothing without an answer |
| `DeadLetter.IdsDiffer` | app/ai-service/services/dead_letter.py:102-105 | an item's id determines its kind and task |
| `DeadLetter.DeadLetterQueue.Add` | app/ai-service/services/dead_letter.py:107-150 | a known item becomes pending again with its attempts and log, a new one starts empty |
| `DeadLetter.DeadLetterQueue.CheckReplayable` | app/ai-service/services/dead_letter.py:169-189 | the reason for refusing a replay, or none |
| `DeadLetter.DeadLetterQueue.RecordAttempt` | app/ai-service/services/dead_letter.py:191-230 | log, counter and status after a replay |
| `DeadLetter.AuditLogNumberedAndSpaced` | app/ai-service/services/dead_letter.py:191-230 | in every run the log is numbered from one to the attempts, attempts are a cooldown apart, and the status fits the last |
| `DeadLetter.HistoryExactly` | app/ai-service/services/dead_letter.py:107-230 | after any run an item is known exactly if it was added, with what was given last, all its attempts in order, and a status that follows from the last call about it; adding it again reopens it |
| `DeadLetter.RefusedExactly` | app/ai-service/services/dead_letter.py:169-189 | when a replay is refused and why, told from the calls of the run, and that it is granted in every other case |
| `DeadLetter.ReplaysBounded` | app/ai-service/services/dead_letter.py:169-230 | no item is replayed more often than the maximum, or once if that is less, plus once per re-add |
| `DeadLetter.MaximumKeptExactly` | app/ai-service/services/dead_letter.py:169-230 | the maximum itself plus re-adds bounds every run exactly when it is at least one |
| `DeploymentRegistry.Registry.Register` | app/onchain/scripts/register-deployment.py:119-129 | afterwards the list is sorted by date, looking the artifact up finds the new record, which is listed once, no other record of the artifact is, and every other record is listed as often as before |
| `DeploymentRegistry.OneRecordPerArtifact` | app/onchain/scripts/verify-deployment.py:17-27 | at most one record per network, version and contract id, and looking it up finds the last registered |
| `DeploymentRegistry.BuildContractRegistry` | app/onchain/scripts/generate-registry.py:105-144 | the two loops compute the contract map |
| `DeploymentRegistry.ListedExactly` | app/onchain/scripts/generate-registry.py:105-138 | listed are the contracts of the workspace, each with its own version, and every other contract with a record, with the version of its first |
| `DeploymentRegistry.ShowsLastOfEach` | app/onchain/scripts/generate-registry.py:124-144 | for every contract, named by its records or the primary one, and every network the last of these records is shown, and nothing if there is none |
| `DeploymentRegistry.EveryContractListed` | app/onchain/scripts/generate-registry.py:107-113 | every contract of the workspace is listed with its own version |
| `DeploymentRegistry.ShowsNewest` | app/onchain/scripts/generate-registry.py:124-144 | for each network the standing deployment of the greatest date is shown, of several the one registered last |
| `DashboardStats.ComputeGlobalStats` | app/backend/src/analytics/analytics.service.ts:262-343 | the one pass computes the total, the recipients and the three rounded breakdowns |
| `DashboardStats.BucketsExactly` | app/backend/src/analytics/analytics.service.ts:278-304 | every label that occurs has one bucket, with the number and the amount of exactly its claims |
| `DashboardStats.LabelsMean` | app/backend/src/analytics/analytics.service.ts:271-304 | under a label stand the claims of that token, region or day, those without a token under UNKNOWN and those without a region under Unknown |
| `DashboardStats.Round2Near` | app/backend/src/analytics/analytics.service.ts:306-343 | rounding gives the nearest cent, and of two the upper |
| `DashboardStats.GroupingConserves` | app/backend/src/analytics/analytics.service.ts:278-304 | whatever claims are grouped by, each is counted once and the amounts add up to the total |
| `DashboardStats.BreakdownsAddUp` | app/backend/src/analytics/analytics.service.ts:306-343 | each shown breakdown of k labels counts every claim and adds up to the shown total within 0.005 (k + 1); the time series is in order |

## Left out

- The cache key digest is idealised in the theorems about arguments (distinct inputs, distinct digests without a colon); SHA-256 in the audit chain is assumed free of collisions only on the texts that were hashed.
- SharedKeySameArguments: says nothing about content hashes that collide; the evidence hash itself is not modelled.
- `cached_response` on synchronous functions, with the cache switched off, and under task cancellation; entries expire or are deleted by an arbitrary loss step.
- InvalidationComplete: speaks of the entries present; a flight in progress may write the key again afterwards.
- ColonsAreMissed: ids with one colon, or with two to four together with `=`, are found only where the key happens to spell them across a separator, as LiteralPatternExactly says; ids with `[` or a backslash are not classified. Empty ids are refused before a key is made (app/ai-service/services/artifact_access.py:64).
- The invalidation helpers for task status, artifact access, model and prompt version, which are single patterns.
- Values of the audit chain are JSON values without dates; numbers are their printed text, and identifiers and timestamps the texts that are hashed.
- AppendedLogVerifiesExactly: `JSON.parse` is a parameter; assumed of it is that it reads the canonical text of what was appended as what the text says, and a string only from a longer text. AppendedLogReadsExactly needs no such assumption, but its reader is not all of `JSON.parse`: it keeps numbers as they are written and members as they come. The JSON column is taken to hold the metadata with null for infinite numbers.
- VerifyChain: legacy rows, paging and the report's texts are not modelled.
- The decision store switched off, a file that cannot be opened, an append that fails half-way, and redaction; a record's other fields are one opaque text.
- DecisionAuditStore.Query: assumes distinct record ids, which the store generates; with repeated ids a lookup by identifier returns the last record for each.
- `_check_redis` of the rate limiter, whose check and insert are not atomic, and the parsing of limits and keys.
- Detection of spans (regular expressions and spaCy), and the preview of structured fields, which has no segment for plain values.
- Upload file names, content directories as files, and the purge of expired artifacts; reading a chunk file that vanished cannot happen by ReceivedIsStored and is the empty text in Assembled.
- Breakers in the work list are kept as values of `CircuitBreakers.Breaker`, so sharing one breaker object between services is not captured; prompts, error texts and metrics are not modelled.
- The delivery of alerts, their payload and signature.
- Spend shared through Redis and floating-point rounding of costs.
- The order of keys in the generated registry file, the markdown record and the hash check of the artifact.
- Dashboard amounts are exact reals, so floating-point error in the sums is not captured; the summary cards are independent database counts.
- HTTP routes, Nest modules, Prisma and Redis clients, Celery, webhooks, images, fraud scoring, mobile and web clients: input and output, or rules that concern one branch.
