# A verified model of the tenant API platform's protocols

The platform keeps its state in database rows and a Redis sorted set, and many processes work on them
at once. This project models the protocols those processes follow, and proves what they promise over
every interleaving.

How a protocol is modelled. A row machine (`Outbox`, `Idempotency`, `Refresh`, `Invoices`, `Projects`)
has one step per SQL statement, or per transaction where the statements of one commit together, with the
statement's WHERE clause as its guard. `Run` applies any list of steps, by any number of workers or
requests, so a lemma about `Run` is a statement about every interleaving; a process that dies takes no
further step. Beside each machine stands a class with the same fields, whose methods are the source's
procedures, statement by statement; each is proved to be a run of the machine. Where a procedure has
several statements, a parameter (`before`, `between`, `late`, `env`) is whatever others commit in between, and
the contract holds for all of it.

| file | what it models |
|---|---|
| `Backoff.dfy`, `Outbox.dfy`, `Fence.dfy`, `OutboxStore.dfy`, `Worker.dfy` | the webhook outbox: retry schedule, leased and fenced queue, how long the fence is unique, repository, serial worker |
| `Capture.dfy`, `Idempotency.dfy`, `KeySlot.dfy` | idempotency keys: response recorder, claim protocol of one key, repository and middleware |
| `Refresh.dfy`, `RefreshStore.dfy` | refresh-token families: rotation, replay detection, revocation |
| `RateLimit.dfy` | the sliding-window script against the full history of admissions |
| `Money.dfy`, `Invoices.dfy`, `InvoiceEffects.dfy`, `InvoiceStore.dfy`, `Drift.dfy`, `DraftRace.dfy`, `Oversized.dfy`, `MoveConflicts.dfy` | checked money, invoice lifecycle, notifications, numbering, what each statement leaves, how far a subtotal drifts from its lines, drafts too large to move, what a refused transition reports |
| `Projects.dfy`, `ProjectStore.dfy`, `UpdateConflicts.dfy` | optimistic versions, the audit trail, what a refused update reports |
| `Keyset.dfy`, `Base64.dfy`, `Cursor.dfy` | walks over changing tables and the tokens that carry them |
| `Text.dfy`, `Decimal.dfy`, `Hex.dfy`, `Signature.dfy`, `Slug.dfy` | the signature header and project slugs |

Trusted: statements take effect atomically, one database clock never runs backwards, fresh ids and
secrets are distinct, and the columns' defaults and unique keys are those the repositories rely on. Of the
CHECK constraints one is modelled, because a receiver decides whether it holds: the range of a delivery's
last status (internal/platform/migrations/0010_webhooks.sql, line 121). The others restate what the
machines keep or what callers check first; beyond that it is trusted that the platform's own handlers
answer with codes in 100..599, that error texts can be stored, and that a new refresh token expires after
the database's present (internal/platform/migrations/0006_idempotency.sql, line 50, and 0002_auth.sql,
line 64). Of triggers and foreign keys the machines take over one thing: the guard on invoice items
(internal/platform/migrations/0008_invoices.sql, lines 296-342) refuses line changes of an issued
invoice, but reads its row without a lock, and the foreign key's lock does not conflict with an UPDATE
of the invoice; so an edit waits for competing edits at its own UPDATE and no sooner, unless both change
one line or take one position.

Where the code does less than its comments or its users might expect, the model follows the code:

- A replay resets `attempts`, so the attempt number fences only within one replay epoch
  (`Outbox.SettleHitsOwnClaim`, `Outbox.ReplayReissuesTheAttemptNumber`); no number comes back within
  138 s, though, and it can right after (`Fence.FencesForIff`).
- A receiver that answers with a status code outside 100..599 keeps its delivery from ever ending: the
  settle fails, the lease lapses, and the row is claimed again, without limit
  (`Outbox.UnstorableNeverEnds`, `Outbox.AttemptsWithoutEnd`).
- A replay can answer not-found for a delivery that is there and has just died
  (`OutboxStore.DeadIsNotFound`).
- The default worker batch of 10 exceeds the 5 that one lease covers (`Worker.SlowPoll`).
- `Complete` carries no claim token, and the constructor accepts a retention below the lease
  (`Idempotency.LateHandlerCompletesAnothersClaim`, `Idempotency.ExclusionIff`).
- Invoice numbers have no gaps, although the allocator's comment announces them
  (`Invoices.NumbersHaveNoGaps`).
- `recomputeTotals` sums before it locks, so two edits of one draft can leave a subtotal that is not the
  sum of the lines, although its comment calls that impossible, and an issue freezes it
  (`DraftRace.StrandedSubtotal`, `DraftRace.FrozenStrandedSubtotal`). `Drift.SubtotalLacksTheWindow` says
  by how much, over every run. Positions need not follow the order of insertion either
  (`DraftRace.AdditionOutOfOrder`).
- A transition also fails when its notification exceeds 64 KiB, and nothing limits how many lines are added
  to a draft: one with enough of them can be neither issued nor voided until lines are removed
  (`Oversized.StuckDraft`, `Invoices.MovesIffItFits`).
- A refused transition can report the very version the caller expected (`MoveConflicts.CurrentVersionRefused`,
  `MoveConflicts.NamesExpectedOnlyIf`).
- A project's audit pre-image is not tied to the expected version (`Projects.StalePreImage`), and the read
  that classifies a failed update is a later statement, so it can report the very version expected: to a
  caller that was ahead of the row, and to no other (`UpdateConflicts.NamesExpectedIff`).
- Verification of a signature does not bound timestamps far in the future
  (`Signature.SignedBodyIsAcceptedIff`, `Signature.FarFutureIsAccepted`).
- The slug error message speaks of single hyphens; the pattern admits doubled ones, which only slugs
  supplied by a caller can have (`Slug.PatternIsNotTidy`).
- The invoice audit image is taken before the items are loaded, so its item count is always 0; it is not
  part of this model.

Check everything with `dafny verify dfyconfig.toml --resource-limit 2000000`.

## Model

| member | source | states |
|---|---|---|
| Outbox.SettleHitsOwnClaim | internal/webhook/store.go:306-347 | Fencing, over every run of the table after a claim: with no replay of the row in between, a settle under the claim's attempt number writes the row iff the row is still the very one that claim wrote and its lease is live; and whenever such a settle matches, the row is its own claim's iff the replay count is unchanged. |
| Outbox.OneOwnerAtATime | internal/webhook/store.go:173-191 | Whenever a row is claimed again, the earlier claim had settled or its lease had lapsed, the new fence is strictly higher, and the earlier claim never owns the row again, replays included: re-claim and matching settle are never both enabled. |
| Outbox.FenceNeverFalls | internal/webhook/store.go:173-191 | (replays, attempts) never falls along any run of a row. |
| Outbox.FenceIdentifiesRow | internal/webhook/store.go:306-347 | A delivering row whose fence is unchanged since a claim is exactly the row that claim wrote. |
| Outbox.DeliveringAgainMeansHigherFence | internal/webhook/store.go:173-191 | A row that is not delivering can become so only with a strictly higher fence. |
| Outbox.ReplayReissuesTheAttemptNumber | internal/webhook/store.go:426-433 | Counterexample without the replay condition: after six lapsed claims, a dead letter and a replay, the first worker's attempt number matches a row another claim owns. |
| Fence.NumberIsUniqueForAWhile | internal/webhook/store.go:306-347 | The fence without the replay condition, on one clock: for 138 s and two clock ticks from its claim an attempt number identifies the claim whatever is replayed meanwhile, so a settle under it writes the row iff the row is that claim's own and its lease is live. |
| Fence.FencesForIff | internal/webhook/store.go:306-347 | For every time t: over all one-clock runs shorter than t an attempt number matches only its own claim's row iff t is at most 138 s and two ticks. |
| Fence.NumberComesBack | internal/webhook/store.go:426-433 | The fastest run back to a number: three failures with the shortest jitter, two lapsed leases, a dead letter, a replay, a claim. |
| Fence.FenceHolds | internal/webhook/store.go:306-347 | The same between any two positions of any run of the table. |
| Fence.LeaseHolds | internal/webhook/store.go:173-191 | While its lease lasts a claimed row stays exactly as the claim left it, over every interleaving in which each settle of the row is made within that time of the claim it belongs to: holders from before a replay included. |
| Fence.RunAcrossEpochs | internal/webhook/webhook.go:118-174 | Over every one-clock run a row keeps its least schedule, and after a replay the one that starts when the old epoch can first have died. |
| Outbox.RunIsRowwise | internal/webhook/store.go:163-211 | A run of the table is, row by row, a run of each row: statements lose no row and rows do not interfere. |
| Outbox.ReachableRowsAreSane | internal/webhook/store.go:273-347 | In every reachable table: pending means fewer than 6 attempts, dead means at least 6, delivering iff a lease is set, delivered iff a delivery time is set. |
| Outbox.DeliveredIsFinal | internal/webhook/store.go:173-191 | A delivered row never changes again, and no row's message, event id or endpoint ever changes. |
| Outbox.UnfinishedIsClaimable | internal/webhook/store.go:173-191 | Delayed, never lost: a row is claimable iff it is unfinished and its wake-up time has come. |
| Outbox.AttemptsCountClaims | internal/webhook/store.go:173-191 | Within a replay epoch the attempt counter grows by exactly the number of claims; if no lease is lost there are at most six. |
| Outbox.SettleWritesIff | internal/webhook/store.go:305-347 | In every state a settle changes a row iff it matches and its status code lies in 100..599; the column has a CHECK. |
| Outbox.UnstorableNeverEnds | internal/platform/migrations/0010_webhooks.sql:121-121 | Over every run, a row whose receiver answers only with other codes is never delivered and never dead; its attempts count its claims. |
| Outbox.AttemptsWithoutEnd | internal/platform/migrations/0010_webhooks.sql:121-121 | For every n there is such a run after which the row is being delivered for the n-th time. |
| Outbox.DeathIsNotEarly | internal/webhook/webhook.go:118-174 | On one clock no run makes a row dead earlier than 138 s into its epoch, however many workers crash, nor earlier than 1968 s if no lease is lost. |
| Outbox.StepKeepsSchedule | internal/webhook/store.go:273-347 | Every statement keeps a row behind the least schedule its attempt number implies (the invariant of the previous row). |
| Backoff.NextDelay | internal/webhook/webhook.go:157-174 | None exactly from the sixth failure on; otherwise between half the nominal delay and all of it, whatever the jitter draw. |
| Backoff.Schedule | internal/webhook/webhook.go:118-139 | The nominal delays are 1, 5, 30, 300 and 3600 seconds, the last for every later failure too. |
| Backoff.DelayIsJittered | internal/webhook/webhook.go:157-174 | After each of the first five failures the delay is the nominal one times (1 + jitter) / 2, the draw clamped to 0..1, rounded to the nanosecond; there is none from the sixth failure on. |
| Backoff.ScheduledWaitBounds | internal/webhook/webhook.go:121-174 | For every five jitter draws, the waits before a dead letter add up to between 1968 s and 3936 s. |
| OutboxStore.Store.Enqueue | internal/webhook/store.go:66-116 | Refusals in the source's order, which write nothing. Otherwise each active endpoint of the tenant that subscribed to the event, and no other, gains a pending row that is due now and carries the event; no other row changes, and the count is the number of rows gained. |
| OutboxStore.FanOut | internal/webhook/store.go:95-102 | As many rows as targets, each a copy of the message for its endpoint. |
| OutboxStore.OldestDue | internal/webhook/store.go:173-183 | A loop that picks distinct due unlocked rows, as many as the batch allows, none later than one left out, in wake-up order. |
| OutboxStore.Store.Claim | internal/webhook/store.go:163-211 | Hands out only unlocked rows that are waiting and due or held under a lapsed lease, each under a lease of 60 s as its next attempt. A due unlocked row is left out only when the batch (10 when not positive) is full of rows that wake before it; no other row changes. It is the Claim step on the whole table. |
| OutboxStore.Store.Settle | internal/webhook/store.go:249-365 | Lease-lost unless the row is delivering under a live lease at that attempt; failed, with nothing written, when the code lies outside 100..599. Otherwise an answer of 200 to 299 delivers the row for good; any other leaves it dead from the sixth attempt on and else pending until the jittered 1, 5, 30, 300 or 3600 s have passed. Status and error of the answer are recorded, and no other row changes. It is the Settle step. |
| OutboxStore.Store.Replay | internal/webhook/store.go:411-476 | Requeues iff the delivery is visible and dead: pending, due now, no attempts, one more replay, the rest as it was. Otherwise it answers as a later read of the row says: a visible one is not found iff it died in between. |
| OutboxStore.DeadIsNotFound | internal/webhook/store.go:452-470 | The answer the source calls unreachable: a delivery in its last attempt dies between the two statements of a replay. |
| Worker.ItemOwnsIff | internal/webhook/worker.go:225-252 | On one clock and within 138 s, item i has lost its row when the deliveries up to its own took at least the lease, and owns it when they took less, provided the others settle within 138 s and two ticks of their own claims. |
| Worker.Attempt | internal/webhook/worker.go:245-291 | One delivery and its settle, after anything others committed meanwhile: it is the next stretch of the run. It is recorded iff the item still owns its row and the status can be stored, and then the row reflects the receiver's answer as Settle says; it fails iff it owns the row alone, and reports a lost lease otherwise, and then writes nothing. |
| Worker.Poll | internal/webhook/worker.go:225-242 | Against every interleaving the poll is a run, item by item, and each answers as Attempt says. On one clock and within 138 s of the claim an item owns its row not once the lease has passed, and always before that if the others settle within 138 s and two ticks of their own claims. Nothing is asked of the deliveries after the item. |
| Worker.FiveIsTheLargestSafeBatch | internal/webhook/webhook.go:91-101 | All items of a batch of n stay within the lease for all deliveries that keep to the timeout iff n <= 5. |
| Worker.SlowPoll | internal/webhook/worker.go:225-252 | A poll of up to 13 items whose deliveries take their full timeout: items 0 to 4 settle, items 5 and up report a lost lease (the default batch is 10). |
| Idempotency.OneGeneration | internal/idempotency/store.go:272-302 | With no timing assumption, until the row is deleted: nobody else inserts, at most one Complete succeeds, take-overs are more than a lease apart, and a completed record never changes. |
| Idempotency.SweepRemovesIff | internal/idempotency/store.go:432-476 | A sweep removes the row iff it is past its retention, or in progress for longer than the lease; it stops no handler. |
| Idempotency.HandlerRunsPerGeneration | internal/idempotency/store.go:125-194 | One insert opens a generation and every further handler run is a successful take-over; their number is bounded by the lease periods that passed. |
| Idempotency.CompletedIsStable | internal/idempotency/store.go:387-411 | From a completion to the row's expiry no run changes the record or tells a handler to run. |
| Idempotency.PromptRunsAreExclusive | internal/idempotency/store.go:202-302 | If handlers finish or die within a bound that is at most the lease and below the retention, then over any interleaving (sweeps included) at most one request runs, the row is that request's own claim, and every Complete of a running request hits it. |
| Idempotency.ExclusionIff | internal/idempotency/store.go:81-89 | For all positive leases and retentions and every bound: all runs whose handlers finish within the bound are exclusive iff bound <= lease and bound < retention. |
| Idempotency.EarlyTakeOverRun | internal/idempotency/store.go:272-302 | The run that breaks exclusion when the bound exceeds the lease: a take-over while the first request still runs. |
| Idempotency.EarlySweepRun | internal/idempotency/store.go:465-475 | The run that breaks exclusion when the bound reaches the retention: a sweep deletes the expired row of a running request. |
| Idempotency.LateHandlerCompletesAnothersClaim | internal/idempotency/store.go:387-411 | Complete carries no claim token: a request that outlived its lease records its response in its successor's row, and the successor's Complete misses. |
| KeySlot.Slot.InsertRow | internal/idempotency/store.go:202-238 | The insert claims iff no row exists, and then writes a claim made now that expires after the retention. |
| KeySlot.Slot.ClearExpired | internal/idempotency/store.go:247-265 | Deletes iff the row is completed and past its retention. |
| KeySlot.Slot.TakeOver | internal/idempotency/store.go:272-302 | Takes the row iff it is in progress and older than the lease at that moment, and then makes it a claim of now. |
| KeySlot.Slot.CompleteRow | internal/idempotency/store.go:366-411 | Records iff the row is still in progress: status, whitelisted headers, and the body unless it overflowed; the rest of the row stays. |
| KeySlot.Slot.TryClaim | internal/idempotency/store.go:202-238 | Against any interleaving it is a run of those statements with an insert of its own. It claims iff the key is free at them: no row at the insert, or a completed one past its retention at the delete and none at the second insert; otherwise it leaves nothing of its own. |
| KeySlot.Slot.Begin | internal/idempotency/store.go:125-194 | Against any interleaving: every run contains an insert of its own; it proceeds iff one of its own statements won the key, and whenever the key is free at its first attempt. A replay, mismatch or not-replayable answer is what the row says at a read of the run; a concurrent-duplicate answer means that a read found a live claim of the same request, or its take-over was lost, or the row was gone at both reads. Alone with the key, the answer is the one the row dictates: proceed iff there is none, or a completed one past its retention, or a stale claim of the same request; mismatch for another fingerprint; replay, refusal or duplicate otherwise. |
| KeySlot.Slot.Round | internal/idempotency/store.go:142-186 | One attempt of the outer loop, with the same clauses; undecided iff the row was there at the insert and gone at the read. |
| KeySlot.Slot.ReadAndTakeOver | internal/idempotency/store.go:156-186 | What follows a failed claim: the answer of the row read, with the fingerprint compared first, and a take-over iff it is a stale claim of the same request. |
| KeySlot.RunHandler | internal/httpx/idempotency.go:128-166 | The record has the handler's status and exactly the bytes it wrote, or is marked overflowed iff there were more than 64 KiB. |
| KeySlot.Serve | internal/httpx/idempotency.go:75-166 | Begin, handler, Complete in order. Unless it is refused, the handler runs, and panics iff it is said to; its response is recorded iff the row is still in progress at the Complete that ends the run, and a recorded response is in the row. Alone with the key, it is refused exactly for the reason the row gives, and whatever ran is recorded. |
| KeySlot.ReplayIsFaithful | internal/httpx/idempotency.go:273-292 | End to end: after a recorded response, every read up to the row's expiry replays that status and exactly those bytes, or refuses iff there were more than 64 KiB. |
| Capture.Recorder.Write | internal/idempotency/capture.go:145-161 | Every byte reaches the client; the copy stays the whole response or is known not to fit. |
| Capture.Recorder.WriteHeader | internal/idempotency/capture.go:137-143 | Only the first status counts. |
| Capture.Recorder.Captured | internal/idempotency/capture.go:182-189 | Overflow iff the total exceeds 64 KiB, otherwise the bytes are those the client received. |
| Capture.EncodeHeaders | internal/idempotency/capture.go:43-57 | Exactly the whitelisted headers that carry a value. |
| Capture.DecodeHeaders | internal/idempotency/capture.go:65-86 | Exactly the well-formed names with a clean value left, each with its values without CR, LF or NUL. |
| Capture.HeadersSurviveIffWhitelisted | internal/idempotency/capture.go:43-86 | A header with clean values comes back from the store unchanged iff it is Content-Type, Location or ETag. |
| Capture.SafeValuesFilter | internal/idempotency/capture.go:71-80 | Of several stored values exactly those without CR, LF and NUL are replayed, in their order. |
| Capture.ReplayedHeadersAreClean | internal/idempotency/capture.go:65-125 | Whatever the store holds, no replayed header name or value contains CR, LF or NUL, and no name a colon or a space. |
| Refresh.FamiliesAreLinear | internal/authn/refresh.go:237-348 | Over any interleaving of any number of rotations (look-up, family check, commit as separate steps), sessions, revocations and crashes, every family is one chain through all its tokens: each but the last consumed and linked to the next, the last unconsumed and unlinked. |
| Refresh.ChainsCountRotations | internal/authn/refresh.go:237-348 | Chains only grow, and a family has one token more than it has had successful rotations. |
| Refresh.StepKeepsLinear | internal/authn/refresh.go:237-348 | Every single step keeps every chain, extending only the chain of a successful rotation. |
| Refresh.TokenIsSingleUse | internal/authn/refresh.go:318-331 | Of any number of presenters of one token, in any interleaving, at most one gets a successor; none once it is consumed. |
| Refresh.RevocationIsFinal | internal/authn/refresh.go:353-371 | After a revocation commits, at most one rotation of the family can still commit, and none unless a request was past its family check holding the unconsumed token; its successor is never rotatable. |
| Refresh.RevokedFamilyAdmitsNobody | internal/authn/refresh.go:278-310 | No step after a revocation takes a request of the family past its family check. |
| Refresh.LateRotationWasInFlight | internal/authn/refresh.go:278-344 | Whoever still rotates a revoked family was already past its check, on the same token, when the revocation committed. |
| Refresh.OnlyReplayOutsideGraceRevokes | internal/authn/refresh.go:300-366 | A lost claim race never revokes; a rotation revokes only the family of a token consumed longer ago than the grace window. |
| Refresh.UnconsumedIsLast | internal/authn/refresh.go:318-344 | The unconsumed token of a family is the end of its chain. |
| RefreshStore.Store.StartSession | internal/authn/refresh.go:126-159 | A new family with its first token, or a refusal of a non-positive lifetime that writes nothing. |
| RefreshStore.Store.LookUp | internal/authn/refresh.go:257-270 | The first read, after anything others committed, finds the token iff the database has it. |
| RefreshStore.Store.CheckFamily | internal/authn/refresh.go:278-310 | The verdict, from the rows: revoked iff the family is revoked at the family read; else expired iff the token expires no later than the check; else go iff it was unconsumed at the lookup; else a retry race iff it had been consumed within the grace window, and a replay otherwise. No row changes. |
| RefreshStore.Store.Commit | internal/authn/refresh.go:312-348 | Issues a successor iff the token is unconsumed at that moment and the new hash free; then the token is consumed at its transaction time and linked to the successor, which inherits family and user; otherwise no row changes. |
| RefreshStore.Store.RevokeReplayed | internal/authn/refresh.go:353-366 | A detected replay leaves the family revoked, now if it was not before, and no other row changed; when that transaction fails, nothing changes. |
| RefreshStore.Store.Rotate | internal/authn/refresh.go:200-371 | The whole procedure against any interleaving, from the rows its statements find. Unknown iff the secret is empty or the lookup finds no token, bad lifetime as stated. Otherwise: revoked family, then expired token, each leaving the rows alone; a token consumed within the grace window is a lost race and leaves the family alone; one consumed before that is a reported reuse, the family ends revoked unless that transaction failed, and the answer says which; an unconsumed one gets a successor iff it is still unconsumed at the claim and the new hash is free. The same from the initial rows when nobody else commits. |
| RefreshStore.Store.CheckAndClaim | internal/authn/refresh.go:278-366 | The part after the lookup, with the same answers. |
| RefreshStore.Store.RevokeFamilies | internal/authn/refresh.go:380-394 | Revokes exactly the targeted live families, now, and counts them; every other family stays as it was. |
| RefreshStore.Store.RevokeByPresentedToken | internal/authn/refresh.go:406-439 | Revokes the family of a known token and nothing else. |
| RefreshStore.Store.RevokeAllForUser | internal/authn/refresh.go:446-466 | Is the Revoke step for the families of the user: exactly the live ones are revoked and counted, and every other family, earlier revocations included, stays as it was. |
| RateLimit.Bucket.Call | internal/ratelimit/ratelimit.go:98-130 | One run of the script, after any evictions and expiries, answers exactly what the full history of admissions dictates and extends it by the call iff admitted. |
| RateLimit.Bucket.Prune | internal/ratelimit/ratelimit.go:104-109 | What eviction leaves is the history's admissions in (now - W, now]. |
| RateLimit.Bucket.Expire | internal/ratelimit/ratelimit.go:121-127 | Dropping the key at its deadline loses no admission the window still needs. |
| RateLimit.EvictionIsTheWindow | internal/ratelimit/ratelimit.go:104-109 | The surviving suffix of the sorted set is the window of the whole history. |
| RateLimit.EveryWindowWithinLimit | internal/ratelimit/ratelimit.go:98-130 | Over any run on a non-decreasing clock, every half-open interval of window length, wherever it lies, holds at most `limit` admissions. |
| RateLimit.ResetIsExact | internal/ratelimit/ratelimit.go:111-129 | After a refusal with reset r and nobody admitted meanwhile, every call before now + r is refused and the one at now + r is admitted, for every limit above zero (and only for those). |
| RateLimit.AdmittedResetIsExact | internal/ratelimit/ratelimit.go:111-129 | The reset of an admitted call: with nobody admitted meanwhile, the window keeps every admission it counts until now + reset, and at that moment it loses one. |
| RateLimit.RemainingIsExact | internal/ratelimit/ratelimit.go:115-129 | A call is admitted iff there is room; the remaining number is the room less one, or zero; and exactly that many of any further calls at that instant are admitted. |
| RateLimit.RetryAfterIsTight | internal/httpx/ratelimit.go:157-177 | The Retry-After seconds are never early, less than a second late, and a client that waits them out with nobody else admitted is admitted. |
| Money.LineTotal | internal/invoice/invoice.go:267-280 | Succeeds iff the quantity is positive, the price is not negative and the true product fits int64; then exact, and no intermediate value wraps. A refusal names the first of the three that fails. |
| Money.SumTotals | internal/invoice/invoice.go:287-299 | The loop succeeds iff no amount is negative and the true sum fits int64, and then gives it; a refusal names what is wrong with the first amount that is negative or does not fit. |
| Money.SumIgnoresOrder | internal/invoice/invoice.go:287-299 | Whether lines add up, and to what, depends only on the multiset of amounts. |
| Money.InvoiceTotal | internal/invoice/invoice.go:302-310 | Succeeds iff neither part is negative and the true sum fits. |
| Invoices.ReachableInvoicesAreSound | internal/invoice/store.go:252-797 | Over every run, with the statements of edits and transitions interleaved: each invoice's log replays, every change obeying CanTransition and continuing from the one before, to its present status; each status is entered at most once; the version counts its committed mutations; every line is exact and the total is subtotal plus tax. |
| Invoices.EntersEachStatusOnce | internal/invoice/invoice.go:319-329 | A log that replays enters no status twice and none ranked above the present one; so paid is entered at most once. |
| Invoices.StepKeepsOk | internal/invoice/store.go:495-797 | Every statement keeps that, edits and transitions in flight included. |
| Invoices.IssuedMoneyIsFrozen | internal/invoice/store.go:638-656 | From issue onward lines, subtotal and total never change, whatever edits were in flight at the issue, and the log only grows. |
| Invoices.OneWinnerPerVersion | internal/invoice/store.go:732-744 | With the read and the guarded UPDATE as separate steps among any others, at most one transition succeeds per version of an invoice. |
| Invoices.TransitionNotifiesEachListenerOnce | internal/invoice/store.go:693-797 | A committed transition adds exactly one outbox row for each endpoint active and subscribed at that point; a failed one, an oversized payload included, adds none. |
| Invoices.EachEventIsQueuedOnce | internal/invoice/store.go:101-112 | Over every run an endpoint is queued at most one notice of an invoice's being created, issued, paid or voided. |
| Invoices.MovesIffItFits | internal/invoice/store.go:774-781 | At the version it has, a transition moves an invoice iff its notification fits 64 KiB. |
| Invoices.OversizedDraftIsStuck | internal/invoice/store.go:774-781 | A draft with more lines than that stays a draft over every run that removes none, for every payload size that grows by a byte a line. |
| Oversized.StuckDraft | internal/invoice/store.go:495-559 | Such a draft can be reached from the first invoice on, and no later run without a removal moves it. |
| MoveConflicts.NamesExpectedOnlyIf | internal/invoice/store.go:747-758 | A conflict can name the very version the caller expected only if the row has it already and the status differs, or is behind it and can still get there: a draft, or an open invoice one step away with a notification that fits. |
| MoveConflicts.NamesExpectedIf | internal/invoice/store.go:747-758 | And then some run before the classifying read makes it so. |
| MoveConflicts.IssuedRoom | internal/invoice/store.go:732-744 | Over every run an issued invoice changes at most once more. |
| MoveConflicts.CurrentVersionRefused | internal/invoice/store.go:732-758 | A run whose conflict says expected version 2, current version 2. |
| Invoices.NumbersHaveNoGaps | internal/invoice/store.go:223-235 | Over every run the numbers handed out are exactly 1 to next - 1, each to one invoice, failed creations included (the comment at lines 219-222 says otherwise). |
| InvoiceStore.PriceInvoice | internal/invoice/store.go:256-279 | Everything checked before the transaction: bad input iff a documented limit is exceeded, bad money iff only the true sum with the tax does not fit; else the exact line totals, subtotal and total. |
| InvoiceStore.InsertLines | internal/invoice/store.go:318-340 | The inserted lines are the items in order, numbered from zero. |
| InvoiceStore.Store.Create | internal/invoice/store.go:252-364 | Made iff the input is within the documented limits, the true sum with the tax fits, the notification fits and no later statement fails; then the invoice has the next number, is a draft at version 1, has the items as priced lines in order, their sum, the tax and the total of the request, and each active subscribed endpoint gets one notice. Otherwise nothing remains. It is the Create step. |
| InvoiceStore.Store.AddItem | internal/invoice/store.go:495-559 | Against any interleaving between its statements it is a run of the machine. Bad item, not found and not draft as the item and the first read say. Otherwise: cancelled iff another request holds the line or the position; refused in the order of the statements; else committed iff the invoice is still a draft at the UPDATE, and then the row has one more line, priced and at the position above all others it read, the amounts it summed, the next version and one log entry. |
| InvoiceStore.Store.Finish | internal/invoice/store.go:538-675 | The line change, sum and guarded UPDATE of an edit, read off the rows they find: cancelled, not draft, no such line or position taken, too large, or committed, each iff; a refused edit changes no row, a committed one only its own. |
| InvoiceStore.Store.PlaceLine | internal/invoice/store.go:538-636 | The insert or delete and the sum: placed iff nothing blocks it, the invoice is a draft, the keys are free or the line is there, and the amounts fit; each refusal for its own reason. |
| InvoiceStore.Store.Update | internal/invoice/store.go:638-674 | The guarded UPDATE commits iff the invoice is still a draft. |
| InvoiceStore.Store.RemoveItem | internal/invoice/store.go:562-607 | Likewise for a removal: committed iff the line is there, nobody holds it, the amounts fit and the invoice is a draft at every statement; then exactly the lines of other ids are left. |
| InvoiceStore.Store.WriteStatus | internal/invoice/store.go:732-797 | After anything others committed: moved iff the guarded UPDATE matches and the notification fits 64 KiB, rolled back iff it matches and does not fit, otherwise a conflict with the version a later read sees. |
| InvoiceStore.Store.Transition | internal/invoice/store.go:693-797 | Read, then guarded UPDATE, is a run of the machine. Bad version, missing and illegal iff as stated. A legal one moves iff the row that the UPDATE finds is still in the status read and at the expected version and its notification is at most 64 KiB; only its status, version and log then change, and each active endpoint subscribed to the event of that transition gets one notice. Too large iff only the size fails, with nothing written; otherwise a conflict with the version that the later read finds. |
| InvoiceEffects.LegalIff | internal/invoice/invoice.go:313-330 | A draft can be issued or voided, an open invoice paid or voided, and nothing else. |
| InvoiceEffects.WriteMeans | internal/invoice/store.go:732-789 | What the guarded UPDATE of a transition leaves, in the columns and the notices. |
| InvoiceEffects.PlaceableMeans | internal/invoice/store.go:538-636 | When a line change can be made, and the amounts it carries: the sum of the lines it sees, its own change included, and that plus the tax. |
| InvoiceEffects.BlockedMeans | internal/invoice/store.go:524-545 | An edit waits iff another uncommitted one holds the same line or the same position of that invoice. |
| InvoiceEffects.CommittedMeans | internal/invoice/store.go:638-674 | What the UPDATE of an edit leaves: the changed lines, the amounts carried, one log entry of the right kind. |
| InvoiceEffects.NextPositionIsOnTop | internal/invoice/store.go:524-536 | The position of an added line is one above the greatest, or zero. |
| InvoiceEffects.CreatableMeans | internal/invoice/invoice.go:198-262 | The documented limits and the true worth of the items decide whether a creation passes, and fix the row it leaves. |
| Drift.SubtotalLacksTheWindow | internal/invoice/store.go:626-675 | Over every run of interleaved edits and transitions: the stored subtotal is the sum of the lines less the net of the edits committed between the last committed edit's SELECT and its UPDATE, so it is exact iff that net is zero; positions stay distinct. |
| Drift.CommitIsExactIff | internal/invoice/store.go:626-675 | In any reachable state, whatever drift there is already: an edit leaves the subtotal exact iff the edits committed since its SELECT cancel out, and always when it commits at the version its SELECT saw. |
| Drift.UnmetEditsAreExact | internal/invoice/store.go:495-607 | While no edit commits at another version than it opened at, every subtotal is the sum of its lines and positions increase in the order of insertion. |
| Drift.AdditionIsInOrderIff | internal/invoice/store.go:527-546 | An addition comes after every line iff no greater or equal position has been taken by then. |
| Drift.StepKeepsTracked | internal/invoice/store.go:495-675 | Every statement keeps the invariant behind these, uncommitted changes and row locks included. |
| DraftRace.StrandedSubtotal | internal/invoice/store.go:609-675 | A run from the first invoice on, for all prices: two removals leave a draft without lines and the price of one of them as its subtotal, which the comment at lines 613-616 calls impossible. |
| DraftRace.FrozenStrandedSubtotal | internal/invoice/store.go:609-797 | Issued in that state, the invoice keeps the wrong subtotal over every further run. |
| DraftRace.AdditionOutOfOrder | internal/invoice/store.go:527-546 | A run in which positions do not follow the order of insertion. |
| Projects.TrailAccountsForRows | internal/project/store.go:202-382 | Over every run with reads and guarded UPDATEs interleaved: a project has one audit entry per version, entry k shows version k, the last shows the row as it is, and every before image is one the project really had. |
| Projects.VersionCountsWrites | internal/project/store.go:202-382 | A reachable project's version is one, plus its successful updates, plus one iff it is archived. |
| Projects.LinkIsTrueIffVersionsMeet | internal/project/store.go:229-245 | An entry's before image is the previous entry's after image iff its version is one less than its own after image's. |
| Projects.UpdateLinksIffReadIsExpected | internal/project/store.go:229-260 | A successful update writes a true link iff the version it read first is the version it expects; the comment at lines 230-233 takes that for granted. |
| Projects.StalePreImage | internal/project/store.go:229-260 | A reachable run in which the before image is out of date. |
| UpdateConflicts.ReportsNoOlder | internal/project/store.go:268-295 | A conflict never reports an older version than the row had at the UPDATE, so one above the expected version if the row was above it. |
| UpdateConflicts.NamesExpectedIff | internal/project/store.go:268-295 | An update that misses a project of its tenant can be answered with the very version it expected iff the project was live and its version below the expected one. |
| UpdateConflicts.ConflictNamesExpected | internal/project/store.go:268-295 | A run from the first project on in which it is, though the comment on the classifying read says that it cannot race. |
| Projects.NoLostUpdates | internal/project/store.go:246-266 | No two successful updates of a project expected the same version. |
| Projects.ArchivedIsFinal | internal/project/store.go:246-382 | An archived project never changes, and no row changes without its version rising. |
| Projects.LiveSlugsAreUnique | internal/project/store.go:105-155 | Live projects of one tenant keep distinct slugs. |
| ProjectStore.Store.Create | internal/project/store.go:105-155 | Saved iff no live project of the tenant has the slug; then exactly that project and one audit entry without a before image are added, otherwise nothing. It is the Insert step. |
| ProjectStore.Store.CommitUpdate | internal/project/store.go:246-300 | Saved iff the row that the UPDATE finds, after anything others committed, is live and at the expected version. Then its name and description are the ones supplied, or as they were where none is, its version is one more, nothing else of it and no other project changes, and one audit entry shows the pre-image that was read and the row written. Otherwise nothing is written, and it is not found or a conflict as the later read of the row says. |
| ProjectStore.Store.Update | internal/project/store.go:202-309 | The whole update is a run of the machine; a bad version, name (empty or over 200) or description (over 2000) is refused in that order, and everything else as CommitUpdate says for the project and the pre-image of its first read. |
| ProjectStore.Store.Archive | internal/project/store.go:320-382 | Found iff the tenant has the project. A live one is then archived now, at the next version, with one audit entry and nothing else changed; an archived one and every other project stay as they are. |
| Keyset.List | internal/project/store.go:403-459 | One page against its specification: the greatest matching rows beyond the cursor, newest first and by id within one instant, at most the limit, every further row older than all of them, and Next given iff one then existed. |
| Keyset.Query | internal/audit/reader.go:56-113 | ORDER BY (created_at, id) DESC LIMIT n: the n greatest eligible rows. |
| Keyset.WalkNeverRepeats | internal/project/store.go:403-459 | Whatever is inserted, hidden or shown between pages, the rows of a walk are strictly descending, so none comes twice. |
| Keyset.WalkMissesNothing | internal/audit/reader.go:56-113 | A row that matches throughout is among the returned rows or still ahead of the cursor. |
| Keyset.FinishedWalkIsExact | internal/invoice/store.go:425-480 | When a walk ends, each row that matched throughout came exactly once, and a row that never matched never did. |
| Keyset.WalkEnds | internal/webhook/store.go:533-609 | If nothing is inserted ahead of the cursor, n pages use up n * limit of the rows the first page saw: the walk ends. |
| Cursor.TokenRoundTrip | internal/platform/cursor/cursor.go:139-201 | A token gives its position back to the microsecond: unchanged iff the time is a whole number of microseconds; another binding's fingerprint is refused. |
| Cursor.TokenSays | internal/platform/cursor/cursor.go:131-149 | Every position but the nil id has a token: the payload of whole microseconds, id and fingerprint in base64url, and its digest. |
| Cursor.ReadIff | internal/platform/cursor/cursor.go:157-201 | Which tokens are accepted, for every string: exactly a body with the codec's one spelling of its own digest, carrying a position and this listing's fingerprint; another fingerprint is a binding error, and the canonical spelling of any other digest a signature error. |
| Cursor.AcceptedTokensAreCanonical | internal/platform/cursor/cursor.go:157-201 | Whatever passes the signature check is a body followed by this codec's own spelling of its signature. |
| Cursor.OneSpellingIsCanonical | internal/platform/cursor/cursor.go:163-174 | The decoder accepts sixteen spellings of a final byte and exactly one is the encoder's, so the canonical-spelling check is needed. |
| Cursor.WalkSurvivesTokens | internal/platform/cursor/cursor.go:139-201 | Every row key survives its token, so a walk by tokens is the same walk. |
| Base64.RoundTrip | internal/platform/cursor/cursor.go:139-149 | Decoding an encoding gives the bytes back, for every byte string. |
| Base64.EncodeGroup | internal/platform/cursor/cursor.go:139-149 | Every three bytes are one number, written as four digits to the base 64 in the alphabet of RFC 4648. |
| Base64.EncodeTail | internal/platform/cursor/cursor.go:139-149 | One or two bytes at the end are filled up with zero bits. |
| Base64.DecodesIff | internal/platform/cursor/cursor.go:163-165 | Which texts decode: those of alphabet symbols, line breaks aside, that do not end in a lone symbol. |
| Base64.LineBreaksAreSkipped | internal/platform/cursor/cursor.go:163-165 | Line breaks change nothing wherever they stand. |
| Signature.ParseSignature | internal/webhook/webhook.go:400-432 | The loop computes: an unreadable timestamp anywhere refuses, otherwise the last part of each kind counts, both being required. |
| Signature.HeaderRoundTrip | internal/webhook/webhook.go:392-432 | For every int64 timestamp and every hexadecimal digest, a printed header reads back as both. |
| Signature.OtherVersionsAreIgnored | internal/webhook/webhook.go:400-432 | A part of any other kind, anywhere in the header, changes nothing. |
| Signature.LaterPartCounts | internal/webhook/webhook.go:400-432 | Of each kind the last part counts, white space around it does not, and an unreadable timestamp refuses the header even when it comes last. |
| Signature.BothPartsAreNeeded | internal/webhook/webhook.go:423-432 | A header with one of the two parts is refused with the name of the other. |
| Signature.SignedTextIsInjective | internal/webhook/webhook.go:380-385 | The signed text `timestamp.body` determines both parts. |
| Signature.SignedBodyIsAcceptedIff | internal/webhook/webhook.go:442-472 | For every int64 timestamp and every clock from 1970 to 9999: a body signed at t is accepted at now iff |now - t| <= tolerance, or t lies more than the int64 nanosecond range ahead without its seconds wrapping. |
| Signature.VerifyIff | internal/webhook/webhook.go:442-472 | The same for any header and body, a forger's included: accepted iff the header reads, its timestamp is near enough or far ahead, and its digest decodes to the hash of `timestamp.body`; each other verdict iff the first of these that fails. |
| Signature.FarAheadMeans | internal/webhook/webhook.go:448-455 | Far ahead in numbers: more than 2^63 - 1 ns after now, up to the last timestamp whose seconds do not wrap. |
| Signature.FarFutureIsAccepted | internal/webhook/webhook.go:448-455 | The second case occurs: signed for 2286, accepted in 1970 within five minutes. |
| Signature.SignatureVouchesForOneText | internal/webhook/webhook.go:442-472 | A header carrying the digest of (t, body), whatever else it says, is accepted only for that timestamp and body, or two different texts have one hash. |
| Decimal.PrintDenotes | internal/webhook/webhook.go:392-422 | Every int64 comes back from its decimal form. |
| Decimal.OneMoreDigit | internal/webhook/webhook.go:412-418 | A digit appended to a text of digits makes the number ten times as large plus the digit, and unreadable iff that leaves int64. |
| Decimal.ParsesIff | internal/webhook/webhook.go:412-418 | Readable iff it is an optional sign, at least one digit and nothing else, in the range of int64. |
| Decimal.NoLeadingZero | internal/webhook/webhook.go:392-398 | Only zero is printed with a leading zero. |
| Hex.HexRoundTrip | internal/webhook/webhook.go:380-385 | Every byte string comes back from its hexadecimal form. |
| Hex.EncodeHexByte | internal/webhook/webhook.go:380-385 | Each byte is written as two lower-case digits, the high one first. |
| Hex.DecodeHexByte | internal/webhook/webhook.go:458-468 | Either case of both digits reads back as that byte. |
| Hex.DecodesHexIff | internal/webhook/webhook.go:458-468 | Readable iff of even length and of digits of either case. |
| Text.TrimSpaceIsTheMiddle | internal/webhook/webhook.go:400-412 | Trimming takes away white space at both ends, all of it and nothing else. |
| Slug.Slugify | internal/project/project.go:190-218 | The loop with its hyphen flag and early exit computes: the name with each run of other characters squeezed to one hyphen, cut at 62, trimmed, completed when shorter than two. |
| Slug.EveryNameHasASlug | internal/project/project.go:182-218 | For every name the slug is in the pattern, has no leading, trailing or doubled hyphen and at most 62 characters. |
| Slug.SlugSpellsTheName | internal/project/project.go:190-218 | The letters and digits of the slug are those of the trimmed, lower-cased name in their order, all of them unless the slug has 61 characters or more; a name with none becomes p and one with one that character, each with the suffix. |
| Slug.SlugIgnoresSeparators | internal/project/project.go:193-201 | Names that differ only in the characters between letters and digits have one slug. |
| Slug.RunsCountOnce | internal/project/project.go:193-201 | Several such characters in a row count as one. |
| Slug.PatternIsNotTidy | internal/project/project.go:149-173 | A slug in the pattern is tidy iff no hyphen is last or follows another; the pattern admits both. |
| Slug.SlugsAreFixed | internal/project/project.go:190-218 | A slug is its own slug iff it has at most 62 characters. |
| Slug.SlugifyIsIdempotent | internal/project/project.go:190-218 | Slugifying twice changes nothing, whatever the random suffixes. |
| Slug.RetriesAreFreshSlugs | internal/project/project.go:226-233 | A retry is again a slug of at most 62 characters, and retries with different suffixes differ. |
| Slug.RetryExtendsTheSlug | internal/project/project.go:226-233 | A retry is the slug and the suffix when the slug has at most 55 characters, and else its first 55 less a final hyphen. |

## Left out

- HTTP routing, handlers, JSON, metrics, logging, configuration and process wiring: no invariant of their own.
- Postgres and Redis themselves: a statement is an atomic step, its transaction's now() is the clock at that step, and timestamps are not truncated to microseconds except in `Cursor`.
- Deletion of endpoints and tenants, which would cascade to outbox rows: no statement of the platform does it.
- Rows a statement finds locked: `Claim` takes the locked set as a parameter; `Enqueue`, `Settle` and `Replay` wait in the source and simply come later in the run here.
- Row-level security, migrations and triggers: not part of this model, except for what the description above takes over from the guard on invoice items.
- Cryptography and JSON: HMAC, the binding's fingerprint and the payload's JSON form are parameters; the fingerprint's own injectivity is not claimed.
- Float rounding in `NextDelay`: the jitter is a real number.
- Network delivery: an outcome and a bounded duration chosen by the environment.
- The worker's ticker and drain loop (`Run`): one poll at a time is modelled.
- The limiter's degraded path and the parsing of its reply: one branch without a window.
- Redis expiry is checked at the key's deadline or later; a member that collides with an earlier one is taken not to occur.
- Idempotency keys other than the one followed, and the LIMIT of `Sweep`: every statement names one primary key, and a sweep that leaves the row alone is a step that does nothing.
- `Fingerprint`, `ValidateKey`, `ValidateEvents`, URL, currency and description checks, page-size clamps, error texts: short checks that would add only easy members.
- Header-name canonicalisation and the writing of replayed headers: the replay is the record, headers as `DecodeHeaders` gives them.
- Within an edit the first read and the read of the position are one step, and so are the line change and the sum: a commit between the two of a pair can only make the edit fail, or amounts to the pair taking place after it. A line change kept waiting by another transaction's is tried again or cancelled. `AddItem` does not enforce the limit of 500 lines, and neither does the model.
- The size of an invoice's payload: a function of the invoice that the machine carries, JSON being abstract.
- MoveConflicts.NamesExpectedIf: for a draft that the caller is ahead of it asks that the lines add up to a storable amount, because otherwise only edits summed earlier can still commit.
- `Depth`, `Get`, list filters and counting queries: reads without a guard; a listing's filter is the set of rows it sees at each page.
- Slug lower-casing and the random suffix: parameters; names are sequences of characters, so invalid UTF-8 is not modelled; likewise the signature header.
- Decimal parsing of the signature timestamp accepts a leading plus sign as the library does; the library's digit loop is not modelled step by step.
- Constructors and the `Others` and `Set` methods of the classes have no row above: they set up or replay state.
