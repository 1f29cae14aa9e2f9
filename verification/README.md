# Models of the platform's concurrency and state cores

Each module models one part of the platform's code and proves the properties that code is there to
keep. `dafny verify dfyconfig.toml` checks all of them.

| module | what it models |
|---|---|
| `IdempotentRequests` | the table of claimed keys, its four atomic statements, and the claim's two-attempt loop with everybody else's statements in between |
| `IdempotencyProtocol` | every request of every process racing on that table: arrivals, upserts, reads, records, releases, deaths, clock ticks, key rotations |
| `IdempotencyHooks` | the two halves of one request around its handler |
| `RequestFingerprints`, `CanonicalJson`, `JsonReading` | the request text that is digested, down to the escapes of a JSON string, and a reader of such texts |
| `Expressions` | the template expression reader and a printer for its trees |
| `SealedStore`, `PromiseChain` | the sealed secret file: cached readers, chained puts, other writers; and the chain itself, which also serialises a connection's statements |
| `SecretLayers` | trees of layered secret stores: fetch, describe, put |
| `RemoteCache` | the secret manager's answers and the copy kept of them |
| `Scheduler`, `SchedulerRaces` | one tick of the worker; any number of ticks, jobs, tenants and a stop interleaving |
| `Transactions`, `InterleavedSavepoints` | transactions, savepoints and handlers that may fail at any statement; several savepoint calls at once on one connection |
| `Migrations` | up and down commands over the ledger and the schema |
| `ToolPrices` | halalas shown as riyals and read back in floating point, and the spend ceiling |

Code that changes things step by step is a class or a method proved against a function; what
interleaves is a state machine whose step is a stretch of code between two awaits, or one
committed statement. A run is any sequence of steps, so a lemma about runs is about every
interleaving.

Two conditions of the idempotency protocol are stated in the open. A live handler finishes within
the lease (`Within`), and the lease is no longer than the replay window. `now()` is read once in a
claim's transaction, and other requests step between its upsert and its read.

## What was found

Where the code does not meet a property on all inputs, the model keeps the code as it is, a lemma
gives the input, and another says exactly when the property holds.

- A JSON member named `__proto__` is dropped from the canonical text, because `result[key] = …`
  does not create it. `{"__proto__": 1}` and `{}` have one text: `ProtoMemberIsLost`. The text is
  injective up to exactly that: `SameTextExactly`. This is about the function. The API builds Fastify
  without `onProtoPoisoning` (`apps/api/src/app.ts:21-29`), whose default refuses a body with such a
  key before it gets here, so it is not a claim about requests the API takes.
- `describeMaterial` drops a field of that name the same way, so material holding nothing else is
  fetched while its description is empty: `ProtoFieldIsNotShown`. Every field is shown if and only if
  none has that name: `DescribesAllExactly`.
- Handlers that run for less than d are alone under their key if and only if d is at most the lease
  and at most the replay window (`SafeExactly`); so handlers that finish within the lease are alone if
  and only if the lease is no longer than the window (`TimelySafetyExactly`). `OverrunLetsTwoRun` has
  the run with two.
- The sealed file's cached read is linearizable if and only if no two versions of the file have the
  same modification time and size: `LinearizableExactly`, with the run in `LookalikesBreakIt`.
- A put that landed is never lost, with no other process writing, under the same condition and no
  other. Saving material of equal length within one tick of the file system's clock is enough: a
  reader that is slow to parse an older version leaves it in the cache, and the next put is served
  that version, renames it over the file and drops the put in between. `LookalikeLosesAPut` is the
  run, `NoPutIsLostExactly` and `OpensToTheLastExactly` the conditions.
- A sealed secret opens exactly while the version it was sealed under still has the key it had then:
  `OpensExactly`. Rotations that keep the old versions keep it open: `OpensToTheLastPut`.
- A put to the secret manager is seen by every later call if and only if no load the manager had
  answered before the put is still on its way. Such a load fills the cache again with the old
  material after the put emptied it, unless the cache time is zero: `PutIsSeenExactly`,
  `OldLoadIsServed`, reached in `OldLoadIsReached`.
- A handler that catches a failed statement without a savepoint is told that it succeeded, while
  COMMIT rolled its work back: `SwallowedFailureLosesTheWork`. A success is kept if and only if the
  handler does not end that way: `SuccessIsKeptExactly`.
- Callers may gather statements of one connection with `Promise.all`. Savepoint calls that interleave
  there all go through if and only if each is closed before the ones set before it: releasing an
  earlier one drops the later, whose own close then fails: `InterleavedSucceedExactly`.
- The spend ceiling holds, from nothing spent, if and only if calls do not overlap or nothing can be
  bought at all: `CeilingHoldsExactly`. With at most k calls under way at prices up to m, the most
  that is spent is the ceiling and k − 1 times the lesser of m and the ceiling, and it is spent:
  `MostThatIsSpent`, `OverlapReachesTheBound`.
- `packages/core/src/idempotency.ts:34-35` says that a claim older than the lease is taken over. The
  code takes it over only for the same request under the same key version, and makes anything else
  wait for the window to end: `TakeoverExactly`.
- `apps/api/src/idempotency.ts:178-181` argues that releasing a key is safe because a 4xx charged
  nothing. The code releases on every status of 400 or more and on an answer that is not text: within
  the window the key can be claimed again after one's own answer if and only if that answer was not a
  text below 400 (`KeyIsFreedExactly`). What a handler did before it answered is not part of the
  model.

## Model

| member | source | states |
|---|---|---|
| IdempotentRequests.Table.TryClaim | packages/core/src/idempotency.ts:136-162 | the upsert claims exactly an absent row, one whose window is over whatever it holds, or one of the same request and key version past the lease; it starts a new window with no answer, and changes no other row |
| IdempotentRequests.Table.RecordResponse | packages/core/src/idempotency.ts:231-256 | the answer is written, and true returned, exactly when the row is in flight under the caller's fingerprint |
| IdempotentRequests.Table.ReleaseClaim | packages/core/src/idempotency.ts:265-275 | exactly a row in flight under the caller's fingerprint is deleted |
| IdempotentRequests.Attempt | packages/core/src/idempotency.ts:135-219 | one pass of the loop: the answer is claimed exactly when the key could be had at the upsert; a decided answer is true of the key's cell at an instant inside the call; an undecided one means the row was deleted between the upsert and the read |
| IdempotentRequests.ClaimIdempotentRequest | packages/core/src/idempotency.ts:127-220 | for every interleaving of the others' statements, the answer is true of the key's cell at one instant inside the call; a claim leaves the cell held for this request; "could not be claimed" means a deletion fell between upsert and read both times |
| IdempotentRequests.JudgeReadsTheCell | packages/core/src/idempotency.ts:186-216 | a row answers by what the key holds for this request, whatever key version it was written under |
| IdempotentRequests.TakeoverExactly | packages/core/src/idempotency.ts:151-155 | an in-flight row changes hands exactly at the end of its window, or past the lease for the same request under the same key version |
| IdempotentRequests.ClaimsExactly | packages/core/src/idempotency.ts:137-156 | a claim gives the key to the request if and only if it is free, its window is over, or the same request held it under the same version past the lease; the whole new row, and nothing else changed |
| IdempotentRequests.RecordsExactly | packages/core/src/idempotency.ts:235-272 | the whole row after a record, and that a release deletes exactly a row in flight under the fingerprint |
| IdempotentRequests.StatementsKeepShape | packages/core/src/idempotency.ts:140-155 | any sequence of statements keeps every row's answer all there or not at all, and its digest of its own tenant and version |
| IdempotentRequests.AbsenceNeedsDeletion | packages/core/src/idempotency.ts:179-184 | a row that was there and is gone was released by some statement in between |
| IdempotencyProtocol.RowShapeAlways | packages/core/src/idempotency.ts:198-206 | in every reachable state in-flight rows carry no response and completed rows all of it, so the half-recorded error is never answered |
| IdempotencyProtocol.AnswersLinearise | packages/core/src/idempotency.ts:135-219 | every answer is given by a read of the row it is true of, and a claim turns the cell into this request's own |
| IdempotencyProtocol.RefinesCells | packages/core/src/idempotency.ts:135-275 | the table refines one cell a key (free, held, done): it is taken only when free, expired or abandoned by the same request, and answered or let go only by a holder of the same request |
| IdempotencyProtocol.ClaimsAndReadsExactly | packages/core/src/idempotency.ts:135-219 | in every run an upsert ends in the handler exactly when its key could be had by its own clock, any key whose window is over included, and a read answers exactly when it finds the row or was the second |
| IdempotencyProtocol.StaleHolderIsHarmless | packages/core/src/idempotency.ts:231-275 | a late record or release changes the table only if the row is still of the holder's own request and key version, and never another key's row |
| IdempotencyProtocol.RecordedAnswerIsStable | packages/core/src/idempotency.ts:141-156 | until its window ends no step of anybody changes a completed row |
| IdempotencyProtocol.RecordedAnswerIsReplayed | packages/core/src/idempotency.ts:186-216 | while the window lasts every upsert under the key fails, every read replays the recorded answer to the same request under any key version, and refuses every other request |
| IdempotencyProtocol.AtMostTwoUpserts | packages/core/src/idempotency.ts:135-135 | a request makes at most two upserts, whatever the others do |
| IdempotencyProtocol.UnclaimableNeedsTwoReleases | packages/core/src/idempotency.ts:179-219 | "could not be claimed" is reached only if somebody released the row between upsert and read of both attempts |
| IdempotencyProtocol.TimelyStepKeepsExclusive | packages/core/src/idempotency.ts:151-155 | no step of a state whose handlers are young enough breaks the tie between each running handler and an in-flight row of its own fingerprint and claim time |
| IdempotencyProtocol.TimelyRunsAreExclusive | apps/api/src/idempotency.ts:128-160 | in every state of every run whose handlers run for less than lease and window, at most one handler runs under a key, and its row is its own |
| IdempotencyProtocol.OverrunLetsTwoRun | packages/core/src/idempotency.ts:44-51 | a handler that outlives the lease, or the window, shares its key with a second one |
| IdempotencyProtocol.SafeExactly | packages/core/src/idempotency.ts:41-51 | handlers that run for less than d are alone under their keys in every run if and only if d is at most the lease and at most the window |
| IdempotencyProtocol.TimelySafetyExactly | packages/core/src/idempotency.ts:41-51 | handlers that finish within the lease are alone if and only if the lease is no longer than the replay window |
| IdempotencyProtocol.ShippedIntervalsAreSafe | packages/core/src/idempotency.ts:41-51 | with a day and ten minutes handlers are alone if and only if they run for at most ten minutes |
| IdempotencyHooks.Exchange.ClaimIdempotency | apps/api/src/idempotency.ts:101-161 | a covered request enters the handler exactly when it carries a claim, whose row is its own fresh one; otherwise it is told by what the key holds: still running, a different request, the recorded response, or broken |
| IdempotencyHooks.CoveredExactly | apps/api/src/idempotency.ts:51-117 | which requests claim a key at all |
| IdempotencyHooks.OutcomeTells | apps/api/src/idempotency.ts:134-160 | each answer of the claim becomes what the key's own holding says, and only a claim enters |
| IdempotencyHooks.Exchange.OnSend | apps/api/src/idempotency.ts:164-231 | the claim is used once: a text answer below 400 is recorded, anything else releases, and no claim means no write |
| IdempotencyHooks.RetryIsReplayed | apps/api/src/idempotency.ts:145-152 | after a success every retry gets the same status, body and content type under any key version, every other request is refused, and the key cannot be claimed within its window |
| IdempotencyHooks.RefusalFreesTheKey | apps/api/src/idempotency.ts:174-203 | after a refusal or a stream the key is free to any request |
| IdempotencyHooks.KeyIsFreedExactly | apps/api/src/idempotency.ts:173-204 | within the window the key can be claimed again after one's own answer if and only if it was not a text below 400 |
| IdempotencyHooks.LostClaimWritesNothing | apps/api/src/idempotency.ts:206-228 | a claim taken over by another request, by a later key version, or already answered writes nothing |
| RequestFingerprints.SameRequestTextExactly | packages/core/src/idempotency.ts:80-91 | two requests have one text if and only if their methods agree letter by letter up to case, their routes are equal, their bodies mean the same with none as null, and their parameters do with none as the empty object |
| RequestFingerprints.SameFingerprintExactly | packages/core/src/idempotency.ts:80-91 | two fingerprints match if and only if tenant, key version and request do |
| CanonicalJson.CanonicalizeByLoop | packages/core/src/canonical-json.ts:12-28 | the loop form makes the canonical value |
| CanonicalJson.CopyElements | packages/core/src/canonical-json.ts:16-18 | arrays are canonicalised element by element |
| CanonicalJson.CopyMembers | packages/core/src/canonical-json.ts:19-27 | objects are copied key by key in sorted order, undefined members left out |
| CanonicalJson.CanonicalizeWorks | packages/core/src/canonical-json.ts:12-28 | the result has strictly sorted, distinct keys and nothing undefined, and means what the value meant but for `__proto__` members |
| CanonicalJson.NumberTextExactly | packages/core/src/canonical-json.ts:9-9 | the texts a number may have: a digit or a minus, then digits, signs, points and exponent marks |
| CanonicalJson.QuotedIsInjective | packages/core/src/canonical-json.ts:9-9 | a quoted string is read back from any text it starts, lone surrogates and escapes included |
| CanonicalJson.StringifyIsInjective | packages/core/src/canonical-json.ts:8-10 | equal texts of canonical values come from equal meanings, wherever the texts stand |
| CanonicalJson.SameMeaningSameText | packages/core/src/canonical-json.ts:12-28 | canonical values of one meaning have one text, whatever order their members came in |
| CanonicalJson.SameTextExactly | packages/core/src/canonical-json.ts:8-28 | two values have one canonical text, or none, if and only if both or neither are undefined and they agree up to member order, undefined members and `__proto__` members |
| CanonicalJson.InjectiveWithoutProto | packages/core/src/canonical-json.ts:8-28 | without `__proto__` members the text is injective on what the values say |
| CanonicalJson.ProtoMemberIsLost | packages/core/src/canonical-json.ts:20-26 | with one it is not: two different values, one text |
| JsonReading.QuotedReadsBack | packages/core/src/canonical-json.ts:9-9 | a string written is a string of the grammar, and reads back as itself |
| JsonReading.ValueReadsBack | packages/core/src/canonical-json.ts:8-10 | every canonical value's text, before anything that may follow a value, reads back as the value |
| JsonReading.CanonicalTextReadsBack | packages/core/src/canonical-json.ts:8-28 | the canonical text is JSON read to its end (sections 2 to 7 of RFC 8259), and what it says means what the value means |
| JsonReading.CanonicalTextIsWellPaired | packages/core/src/idempotency.ts:81-90 | the text holds no half of a surrogate pair, so encoding it in UTF-8 to be digested keeps different texts different |
| Expressions.Resolve | design_handoff_verification_platform/prototype/support.js:205-236 | terminates on every string, malformed ones included, with the value the reader's grammar gives |
| Expressions.Classify | design_handoff_verification_platform/prototype/support.js:206-226 | the tests of resolve in their order find the expression's outermost shape |
| Expressions.ParensWrapWhole | design_handoff_verification_platform/prototype/support.js:237-247 | true exactly when no bracket before the last character closes the first |
| Expressions.FindTopLevelEquality | design_handoff_verification_platform/prototype/support.js:248-262 | finds the first equality at depth zero with something before it, or says there is none |
| Expressions.FindCloser | design_handoff_verification_platform/prototype/support.js:275-285 | finds the bracket that closes an opened one, or says there is none |
| Expressions.ResolvePath | design_handoff_verification_platform/prototype/support.js:263-294 | terminates on every path text with the value walking it gives |
| Expressions.EqualityIsFound | design_handoff_verification_platform/prototype/support.js:211-225 | between two parenthesised balanced operands the printed operator is the one that splits them |
| Expressions.LongestOperatorExactly | design_handoff_verification_platform/prototype/support.js:211-220 | at an operator's place the longest of the four that stands there is taken, in malformed texts too |
| Expressions.BangIsNegation | design_handoff_verification_platform/prototype/support.js:226-226 | a bang before a parenthesised operand is a negation and not half of an operator |
| Expressions.ReadParenthesised | design_handoff_verification_platform/prototype/support.js:208-210 | a printed tree in parentheses reads as the tree |
| Expressions.WalksToValue | design_handoff_verification_platform/prototype/support.js:263-294 | walking a printed path gets to the path's value, whatever path follows it |
| Expressions.ReadInvertsPrint | design_handoff_verification_platform/prototype/support.js:205-294 | for every printable tree and every store of values, reading its text gives its meaning |
| Expressions.SpacesExactly | design_handoff_verification_platform/prototype/support.js:206-206 | which characters trim removes |
| Expressions.TrimsExactly | design_handoff_verification_platform/prototype/support.js:206-206 | trim takes the spaces of both ends and nothing else |
| Expressions.LettersExactly | design_handoff_verification_platform/prototype/support.js:203-203 | the letters a name may begin with |
| Expressions.NumbersExactly | design_handoff_verification_platform/prototype/support.js:204-231 | a number is an optional sign, digits, and an optional point with digits |
| Expressions.MemberExactly | design_handoff_verification_platform/prototype/support.js:269-273 | after a dot stands a name or else a run of digits |
| Expressions.QuotedIsString | design_handoff_verification_platform/prototype/support.js:232-234 | quotes stand for whatever is between them |
| PromiseChain.StepKeepsOrder | packages/providers/src/sealed-store.ts:87-92 | every step keeps jobs starting only after all before them are over, and none skipped |
| PromiseChain.ChainSerialises | packages/db/src/client.ts:78-93 | whatever fails, no statement is skipped, no two run at once, they start in issue order, and something can always happen |
| PromiseChain.OneFailureWouldStopTheRest | packages/db/src/client.ts:84-91 | what swallowing the failure is for: were the queue the result itself, in every run a body would run only when all before it succeeded, and be skipped only for a failure before it |
| PromiseChain.FirstOfTwoFails | packages/providers/src/sealed-store.ts:87-92 | after a failing body the next one can start; without the catch it is skipped |
| SealedStore.ReadsAreLinearizable | packages/providers/src/sealed-store.ts:130-164 | with versions that stat tells apart, every read returns a version that was on disk between its start and its return |
| SealedStore.LinearizableExactly | packages/providers/src/sealed-store.ts:141-145 | every read of every run is linearizable if and only if no two versions look alike to stat |
| SealedStore.NoPutIsLost | packages/providers/src/sealed-store.ts:87-128 | with no other writer and versions that stat tells apart, at every instant the file holds the initial entries with the puts that landed applied in issue order, whatever readers do and whichever puts fail; puts never overlap |
| SealedStore.LookalikeLosesAPut | packages/providers/src/sealed-store.ts:127-164 | with two versions that look alike, a run in which a slow reader makes the next put drop one that had landed |
| SealedStore.NoPutIsLostExactly | packages/providers/src/sealed-store.ts:87-164 | with no other writer, every run keeps every landed put if and only if no two versions look alike to stat |
| SealedStore.SealedWithAKeyOfItsVersion | packages/providers/src/sealed-store.ts:94-102 | a put seals under a version that was current while it ran, with a key that version had then or later |
| SealedStore.OpensExactly | packages/providers/src/sealed-store.ts:166-192 | with no other writer and versions that stat tells apart, after any puts and any changes of the keys a reference opens to its last landed material exactly while its version still has the key it was sealed with, and the entry opens under no other reference |
| SealedStore.KeysAreTheLastSet | packages/providers/src/sealed-store.ts:94-102 | in every run the keys read are the ones set last, and putting and reading change none |
| SealedStore.OpensToTheLastPut | packages/providers/src/sealed-store.ts:166-192 | with no other writer and versions that stat tells apart, after any puts and any rotations that keep old versions readable a reference opens to its last landed material |
| SealedStore.OpensToTheLastExactly | packages/providers/src/sealed-store.ts:87-192 | with no other writer and such rotations, every reference opens to its last landed material in every run if and only if no two versions look alike to stat |
| SealedStore.SealedFileSecretStore.ReadFile | packages/providers/src/sealed-store.ts:130-164 | returns the file's entries whether from the cache or not, none for a missing file, and an error for one that does not parse |
| SealedStore.SealedFileSecretStore.Fetch | packages/providers/src/sealed-store.ts:62-76 | material exactly when the entry is there, opens and has a field, and each failure told apart |
| SealedStore.SealedFileSecretStore.Write | packages/providers/src/sealed-store.ts:94-128 | replaces one entry and keeps the others, sealed so that it opens under its reference alone, drops the cache, and changes nothing when the file cannot be read or the version has no key |
| SecretLayers.FillFields | packages/providers/src/sealed-store.ts:205-216 | one field a name, masked for identifiers and digested otherwise, `__proto__` left out |
| SecretLayers.FieldsAreMaskedExactly | packages/providers/src/sealed-store.ts:203-246 | which fields are masked and which digested, and what of a masked one is shown |
| SecretLayers.MiddlesAreHidden | packages/providers/src/sealed-store.ts:241-246 | two long identifiers with the same ends are described alike |
| SecretLayers.StoresGiveExactly | packages/providers/src/credentials.ts:183-264 | what each kind of store gives, read off what it holds |
| SecretLayers.StoresFailExactly | packages/providers/src/credentials.ts:236-273 | when each kind of store fails rather than says nothing |
| SecretLayers.DescribesAllExactly | packages/providers/src/sealed-store.ts:209-214 | a description shows every field if and only if none is named `__proto__` |
| SecretLayers.ProtoFieldIsNotShown | packages/providers/src/sealed-store.ts:209-230 | a secret with that one field is fetched and described as empty |
| SecretLayers.FetchLayers | packages/providers/src/sealed-store.ts:267-277 | the loop returns what the first layer that answers returns, and otherwise the last error |
| SecretLayers.DescribeLayers | packages/providers/src/sealed-store.ts:299-315 | the loop returns the first description, and otherwise the earliest failure, and otherwise nothing |
| SecretLayers.PutLayers | packages/providers/src/sealed-store.ts:317-325 | the loop writes the first writable layer and no other |
| SecretLayers.StoresTakeExactly | packages/providers/src/credentials.ts:178-226 | which stores accept writes, when a put is taken and which refusal is given when it is not |
| SecretLayers.FetchOfLeaf | packages/providers/src/credentials.ts:183-190 | each store's fetch tells what the store knows: held, empty or broken |
| SecretLayers.DescribeOfLeaf | packages/providers/src/credentials.ts:269-273 | each store's describe tells the same |
| SecretLayers.NestingDoesNotMatter | packages/providers/src/sealed-store.ts:255-315 | nested layers answer fetch and describe as the flat list of their leaves |
| SecretLayers.SameStoryWhenHeld | packages/providers/src/sealed-store.ts:290-298 | fetch returns and describe describes the material of one layer, the first that holds the reference |
| SecretLayers.SameStoryWhenNotHeld | packages/providers/src/sealed-store.ts:290-298 | with no holder, fetch raises the last layer's error, and describe says nothing if and only if every layer did, and otherwise raises the earliest failure |
| SecretLayers.FetchAndDescribeAgree | packages/providers/src/sealed-store.ts:267-315 | a fetch succeeds if and only if describe has something to say, of the same material, which has a field |
| SecretLayers.PutGoesToTheFirstWritable | packages/providers/src/sealed-store.ts:317-325 | in any nesting a put changes the first leaf that accepts writes and no other |
| SecretLayers.NowhereToWrite | packages/providers/src/sealed-store.ts:319-323 | with no such leaf the put is refused |
| SecretLayers.OtherReferencesAreUntouched | packages/providers/src/sealed-store.ts:317-325 | a put under one reference changes nothing any other reference answers |
| SecretLayers.PutThenFetchExactly | packages/providers/src/sealed-store.ts:248-254 | a fetch after a put returns the new material if and only if it has a field and no layer before the written one holds the reference with other material |
| RemoteCache.StalenessIsBounded | packages/providers/src/credentials.ts:327-388 | what a call returns was the manager's content at an instant no older than the cache time plus the duration of the load that fetched it, and it was just loaded or its cache time was not over |
| RemoteCache.StepKeepsGood | packages/providers/src/credentials.ts:327-428 | every step keeps each cached and answered version one that the manager held when it answered |
| RemoteCache.PutIsSeenExactly | packages/providers/src/credentials.ts:396-412 | from the moment a put drops the copy, every later call sees it or something newer, for ever, if and only if no older answer is on its way or the cache time is zero |
| RemoteCache.PutIsAppliedExactly | packages/providers/src/credentials.ts:396-405 | the version a put is applied as is the last one and holds its material |
| RemoteCache.ServedTheCopyExactly | packages/providers/src/credentials.ts:327-331 | however long it waits, a call is served the copy if and only if its cache time is not over |
| RemoteCache.OldLoadIsServed | packages/providers/src/credentials.ts:384-411 | such an answer fills the cache after the put and is served to the next call |
| RemoteCache.OldLoadIsReached | packages/providers/src/credentials.ts:354-412 | a run that ends after a put with an older answer on its way |
| RemoteCache.HttpSecretStore.Load | packages/providers/src/credentials.ts:354-388 | nothing, a failure and material told apart; only material is cached |
| RemoteCache.HttpSecretStore.Fetch | packages/providers/src/credentials.ts:327-341 | when calls do not overlap whatever is served is what the manager holds |
| RemoteCache.HttpSecretStore.Describe | packages/providers/src/credentials.ts:422-428 | describes what a fetch at the same instant would be given |
| RemoteCache.HttpSecretStore.Put | packages/providers/src/credentials.ts:396-412 | a taken put changes the manager and drops the copy; a refused one changes neither |
| RemoteCache.HttpSecretStore.Forget | packages/providers/src/credentials.ts:414-420 | drops one copy or all |
| RemoteCache.HttpSecretStore.PutThenFetch | packages/providers/src/credentials.ts:396-412 | a fetch right after a taken put returns what was put |
| Scheduler.Scheduler.constructor | apps/worker/src/schedule.ts:89-97 | every job is due at startup and nothing else is listed |
| Scheduler.Scheduler.Tick | apps/worker/src/schedule.ts:100-127 | the runs are the expected ones, each due job is rescheduled, no slot stays taken, and a stopped scheduler runs nothing |
| Scheduler.Scheduler.RunJob | apps/worker/src/schedule.ts:129-149 | one run a tenant in order, or the first tenant alone for a global job |
| Scheduler.Scheduler.RunOnce | apps/worker/src/schedule.ts:151-167 | not ok exactly when the body threw or the deleting connection is missing |
| Scheduler.JobsAreRescheduled | apps/worker/src/schedule.ts:119-122 | a due job waits its interval from its end, every other job keeps its time |
| Scheduler.RunsExactly | apps/worker/src/schedule.ts:100-176 | a run is made if and only if it is of a due job over one of its tenants, with ok told exactly |
| Scheduler.RunsAreInJobOrder | apps/worker/src/schedule.ts:104-118 | the runs stand in job order, a due job's in its tenant list's order, and a job that is not due adds none |
| Scheduler.FailuresAreIsolated | apps/worker/src/schedule.ts:162-166 | whatever throws, the same jobs are attempted over the same tenants in the same order |
| SchedulerRaces.StepKeepsSlots | apps/worker/src/schedule.ts:112-122 | every step keeps the taken slots exactly those of the ticks holding them, one tick a slot |
| SchedulerRaces.JobsNeverOverlap | apps/worker/src/schedule.ts:89-127 | over any overlapping ticks no job overlaps itself, no slot outlives its tick, and a job's next run starts at least its interval after its last one ended |
| SchedulerRaces.DueExactly | apps/worker/src/schedule.ts:93-122 | in every run a job is due exactly its interval after its last run ended, and from the start before its first |
| SchedulerRaces.LooksAtEveryJobInTurn | apps/worker/src/schedule.ts:100-123 | a tick looks at every job in turn from the first with the clock it started at, and is done only at the end of the list or once stopped |
| SchedulerRaces.TakesWhatIsDueExactly | apps/worker/src/schedule.ts:104-116 | a tick takes a job's slot if and only if the scheduler runs on, the job is due and nobody holds it |
| SchedulerRaces.VisitsItsTenants | apps/worker/src/schedule.ts:129-149 | a visit nobody stops begins one body for each tenant it was given, or the one of a global job with a first tenant |
| SchedulerRaces.AtMostOneMoreBody | apps/worker/src/schedule.ts:129-149 | once stopped, a tick begins at most one more body, and only of a global job whose tenant list it was getting |
| SchedulerRaces.StopIsABarrier | apps/worker/src/schedule.ts:203-212 | once stop has resolved nothing is in flight and no body ever begins |
| SchedulerRaces.StopCanResolve | apps/worker/src/schedule.ts:209-211 | from every stopped state some steps of slot holders alone give all slots back |
| SchedulerRaces.EveryScheduleDrains | apps/worker/src/schedule.ts:209-211 | in every run after stop, holders take no more steps than the work they had, stop can resolve exactly when that is done, and until then a holder can step |
| Transactions.PoolClient.RunHandler | packages/db/src/client.ts:95-113 | a handler's statements, throws, recoveries and savepoints run against the connection's state |
| Transactions.PoolClient.WithSavepoint | packages/db/src/client.ts:46-57 | sets, releases or rolls back the savepoint as the connection answers, with a failure at SAVEPOINT or RELEASE as well |
| Transactions.PoolClient.WithTenant | packages/db/src/client.ts:95-148 | begins, sets the tenant, runs, commits or rolls back, with or without a tenant |
| Transactions.HandlersComeTo | packages/db/src/client.ts:40-57 | for every handler tree and a failure at any of its statements, SAVEPOINT and RELEASE included, the connection's stack of savepoints comes to what the nesting says |
| Transactions.TransactExactly | packages/db/src/client.ts:95-148 | for every handler and a failure at any statement but ROLLBACK, every statement acting under the caller's tenant, what is committed, what the caller is told, and that the connection goes back clean |
| Transactions.SuccessIsKeptExactly | packages/db/src/client.ts:41-44 | a reported success holds its work, for every failure, if and only if the handler does not return from an aborted transaction |
| Transactions.DisciplinedComesToItsMeaning | packages/db/src/client.ts:41-44 | a handler whose failing statements are propagated or in a savepoint comes to exactly its surviving effects |
| Transactions.ThrowingSavepointRestores | packages/db/src/client.ts:49-56 | whatever its body does, the transaction is usable after a savepoint exactly when it could be set, and one that throws after that restores its entry state |
| Transactions.CommitsExactlyOrNothing | packages/db/src/client.ts:95-148 | a disciplined handler commits exactly its surviving effects or nothing, and returns exactly when it committed |
| Transactions.SwallowedFailureLosesTheWork | packages/db/src/client.ts:41-44 | a swallowed failure is reported as a success and commits nothing |
| Transactions.ReusedNameRestoresTooLittle | packages/db/src/client.ts:47-48 | why savepoint names are random: a reused name restores only to the inner savepoint |
| InterleavedSavepoints.ClosingAnEarlierDrops | packages/db/src/client.ts:46-57 | releasing or rolling back to an earlier savepoint drops every one set after it |
| InterleavedSavepoints.DroppedFails | packages/db/src/client.ts:46-57 | a savepoint dropped while open fails its own close in every continuation |
| InterleavedSavepoints.InterleavedSucceedExactly | packages/db/src/client.ts:46-93 | in a transaction whose statements otherwise succeed, every interleaving of savepoint calls goes through if and only if they nest |
| Migrations.AssertNoDrift | packages/db/src/migrator.ts:88-102 | reports the first record whose file is missing or changed |
| Migrations.NoDriftExactly | packages/db/src/migrator.ts:88-102 | no drift if and only if every record has its file, unchanged |
| Migrations.DownChecksWhatStays | packages/db/src/migrator.ts:153-164 | on the way down exactly the records that stay applied are checked |
| Migrations.RefusedUntouched | packages/db/src/migrator.ts:60-64 | a gap in the versions refuses both commands, drift of any record refuses up and drift of one that stays refuses down, with nothing changed |
| Migrations.Client.Migrate | packages/db/src/migrator.ts:124-138 | a failure at any statement leaves schema and ledger as they were, success changes both |
| Migrations.InsertedExactly | packages/db/src/migrator.ts:128-131 | recording adds one row and keeps every other |
| Migrations.InsertedInOrder | packages/db/src/migrator.ts:82-84 | a ledger of rising versions reads in that order with the new row in its place |
| Migrations.DeletedExactly | packages/db/src/migrator.ts:178-181 | undoing takes out the version's rows and nothing else, the others in their order |
| Migrations.MigrateUp | packages/db/src/migrator.ts:109-144 | the loop applies the unapplied migrations up to the target in order and stops at the first failure |
| Migrations.MigrateDown | packages/db/src/migrator.ts:146-194 | the loop undoes the applied migrations above the target, latest first, and stops at the first failure |
| Migrations.UpReaches | packages/db/src/migrator.ts:109-144 | from the first k applied, up leaves the first max(k, min(to, n)), or stops before the first failing one, with the schema of what it reached |
| Migrations.DownReaches | packages/db/src/migrator.ts:146-194 | down leaves the first min(k, to), or stops at the first failing one, with the schema of what it reached |
| Migrations.LedgerAlwaysPrefix | packages/db/src/migrator.ts:109-194 | over any commands with failures at any statement the ledger is a prefix and the schema the composition of its ups |
| Migrations.DownThenUpRestores | packages/db/src/migrator.ts:109-194 | down then up restores schema and ledger |
| ToolPrices.NearestIsNearest | apps/mcp/src/tools.ts:70-72 | toFixed takes the nearest hundredth, the larger of two |
| ToolPrices.DecimalReadsBack | apps/mcp/src/tools.ts:163-163 | the printed decimal, with its sign, reads back as the exact hundredths |
| ToolPrices.RiyalsIsExact | apps/mcp/src/tools.ts:70-72 | below 2^51 halalas, above or below zero, the text is the price itself, however the quotient rounds |
| ToolPrices.QuotedPricePasses | apps/mcp/src/tools.ts:70-76 | below 2^51 halalas toHalalas(Number(riyals(h))) is h, for any rounding within 2^-53 over the range of prices |
| ToolPrices.BoundIsSharp | apps/mcp/src/tools.ts:70-76 | at 2^51 a rounding within 2^-53 can miss |
| ToolPrices.QuoteThenRunIsConfirmed | apps/mcp/src/tools.ts:155-198 | confirming the quoted figure is never refused for the cost |
| ToolPrices.SpendLimit.RunVerification | apps/mcp/src/tools.ts:182-211 | by the first row with the code: the paid request is sent exactly when the cost is confirmed and there is room, the listed price is charged exactly when it ran and was no replay, and which refusal is given when |
| ToolPrices.PriceIsTheListedOne | apps/mcp/src/tools.ts:120-136 | the price of a call is the one in the first row with its code, in halalas, or the refusal that fits |
| ToolPrices.AnsweredAtItsListedPrice | apps/mcp/src/tools.ts:182-211 | a call that ran and was no replay is charged the price it is listed at, and nothing otherwise |
| ToolPrices.ListedInHalalas | apps/mcp/src/tools.ts:74-76 | a price listed as the number nearest h hundredths, below 2^51, is charged as h halalas |
| ToolPrices.SpentIsWhatWasPaidFor | apps/mcp/src/tools.ts:43-68 | over any calls that do not overlap, spent is the sum of the listed prices of the calls answered as run and not replayed, and never passes the ceiling |
| ToolPrices.CallsAreSteps | apps/mcp/src/tools.ts:182-210 | one call is an admission exactly when a confirmed price has room and a settlement charged exactly when it ran and was no replay |
| ToolPrices.OverlapPassesByAtMost | apps/mcp/src/tools.ts:198-209 | k calls under way pass the ceiling by at most k - 1 prices |
| ToolPrices.OverlapReachesTheBound | apps/mcp/src/tools.ts:198-209 | from nothing spent, k overlapping calls do spend the ceiling and k - 1 of the dearest price that fits under it |
| ToolPrices.MostThatIsSpent | apps/mcp/src/tools.ts:198-209 | that is the least bound on what k overlapping calls can spend |
| ToolPrices.CeilingHoldsExactly | apps/mcp/src/tools.ts:198-209 | the ceiling holds if and only if calls do not overlap, or no price or no ceiling lets anything be bought |

## Left out

- SQL, row locks, row-level security and roles: a statement is one atomic step on a map, and a transaction an abstract machine.
- HMAC, AES-GCM, HKDF and SHA-256: a fingerprint stands for tenant, key version and text; a sealed entry opens only under the reference it was sealed with; a digest stands for the value.
- Fastify's hook order, headers, logging and rate limits; handlers are outside, and an answer that is a stream or a buffer is a release.
- The rollback of a claim's own transaction after its upsert: a claim statement is committed when it is taken.
- NoPutIsLost: assumes no other process writes the file meanwhile; the code takes no lock across processes. NoPutIsLostExactly says when stat must tell versions apart.
- OpensToTheLastPut: takes an entry to be authenticated, and speaks of rotations that keep old versions; OpensExactly has the rest.
- The sealed file's interleavings are on values, not objects: the class models one call at a time.
- StalenessIsBounded: the machine is about one reference; the cache keeps references apart.
- References named like a property every object inherits ("constructor"), for which an object literal answers by itself.
- Object keys are emitted in one fixed total order; integer-like keys coming first is an instance of it.
- Functions, dates, toJSON, bigints and symbols as JSON values; RequestFingerprints upper-cases ASCII only, which an HTTP method is.
- The JavaScript operations on values (truthiness, both equalities, property access) are parameters of Expressions, so its laws hold whatever they are; a value's own getters do not run code.
- The idempotency key is taken trimmed, and an array header by its first value.
- Timers: SchedulerRaces lets a tick start at any point, which covers start and its loop; onError and onTick do not throw, job names are distinct, intervals are not negative and the clock does not go back.
- Transactions: ROLLBACK and ROLLBACK TO SAVEPOINT are taken to succeed, savepoint names to be fresh, and a handler to issue its statements one after another; InterleavedSavepoints has calls that interleave, without failing statements of their own. assertUuid is not modelled.
- A COMMIT that took effect while its acknowledgement was lost, in Transactions and Migrations: a failed COMMIT committed nothing.
- Migrations: reading and naming the files (loadMigrations but for its contiguity check), and scripts that commit inside themselves; the files stay the same between commands, and DownReaches, LedgerAlwaysPrefix and DownThenUpRestores take each down to invert its up.
- ToolPrices: doubles are reals with a relative rounding error, calls that overlap have no prices below zero, halalas are unbounded integers, and amounts of 10^21 and more, which toFixed prints otherwise, are left out.
- Credential precedence, provider bindings, environment parsing, pagination, the step runner and the console: easy members or user interface.
