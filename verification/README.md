# Verified models of an AI gateway's stateful mechanisms

new-api is a gateway that relays AI requests, sells quota and keeps channels, prices and
request bodies in order. Most of it is HTTP plumbing. This project models the mechanisms
inside it that keep state and can go wrong, and proves what each promises, for every
input, every run or every interleaving:

- **OrderLock** - the reference-counted mutex per trade number, as atomic steps of any
  number of threads; **Payments** - the payment handlers that rely on it.
- **Midjourney** - pollers that race to write task rows with a compare-and-swap, and the
  refunds they grant.
- **Upstream** - detection, selection and application of upstream model changes
  (**Text** and **Lists** hold the string and list operations it uses, **Wrappers** the small
  types that several modules share).
- **RateLimit**, **Verification** - two in-memory stores with background clean-up, each
  against a specification over the whole history.
- **MultiKey** - the channel whose three sparse maps are re-indexed on deletion.
- **ModelsDev**, **RatioSync** - the choice of a price among providers, and the table of
  price differences.
- **OggScan** - the scan of an Opus file for its last granule position.
- **BodyStorage**, **CacheCounters** - request bodies in memory or on disk, and the usage
  counters under concurrent creation and closing.
- **RedisHash** - structs written to and read from a Redis hash.

Protocols are state machines: a run is a list of scheduling choices, and a theorem over
all lists is a theorem over all interleavings. Code that updates an object is a class
whose methods are proved against functions of the old state, and loops are loops. The
theorems are about those functions.

## What turned out false of the code

Each has a lemma with an input, and a lemma with the exact condition.

- A credited order can end up marked failed: the Waffo creation handlers save their own copy
  of the order, without the order lock, when the provider's answer fails, and an administrator
  or a webhook may have completed it meanwhile (`Payments.LateFailureHappens`). An order is
  credited exactly when it succeeded on the runs without such a save
  (`Payments.CreditedIffSucceededIff`), and a decided order is final exactly when no creation
  handler of it is still waiting, or it is marked failed already (`Payments.DecidedForeverIff`).
- A Midjourney task leaves FAILURE when a round of responses lists it after the round has given
  it up or was told it failed, or when its row was inserted as failed but unfinished, as the
  submit handler does; these three are all (`Midjourney.FailureAbsorbsIff`). It is still
  refunded at most once.
- Adding an upstream name with a comma, by hand or automatically, stores a remainder that the
  next detection contradicts, and a later check adds the name again
  (`Upstream.ApplySyncedIffCommaFree`, `Upstream.LaterChecksAddNothingIff`). Ignoring a name
  that starts with "regex:" may do so too, exactly when the ignore list then covers other names
  than it should (`Upstream.ApplySyncedIffCovers`). `Upstream.ApplySyncedIff` is exact for every
  selection.
- The rate limiter accepts a request too many when a limit is below one, or when there is a
  clean-up and a window is longer than its period plus one second (`RateLimit.FaithfulIff`,
  `RateLimit.WindowsHoldIff`). The comment in common/constants.go:215 asks for the second.
- Deleting the disabled keys of a channel whose keys are all auto-disabled, or all but an empty
  line, deletes none of them and enables all, because an empty key text is not written back
  (`MultiKey.AllRevived`, `MultiKey.EmptySurvivorRevives`). Bulk deletion shows the same as
  deleting one by one exactly when a key survives, on every way that loses no empty line
  (`MultiKey.BulkIsOneByOneIff`), so on every way when no key is empty (`MultiKey.SolidBulkIff`).
- An empty line among the keys is lost when a deletion brings it to an end of the text, which
  shifts the keys against their statuses and leaves times and reasons behind
  (`MultiKey.EmptyLineShifts`). What is shown stays right exactly when the keys left neither start
  nor end with an empty one (`MultiKey.DeleteKeyViewIff`, `MultiKey.DeleteDisabledViewIff`), and
  every index stays in range on all runs exactly when no key is empty or that is the only one
  (`MultiKey.RunValidIff`).
- A price difference may go unreported: when its cell's kept columns, if any, all read "same", as with a
  value that itself reads "same" and nothing else in the cell, with a null from a channel that
  shows no value of its own anywhere, or with a channel that shares its name with a later one.
  `RatioSync.ReportedExactly` says for all inputs what is reported, and all of it does differ
  (`RatioSync.ReportedDiffers`).
- An empty read at the end tells a memory storage from a disk storage
  (`BodyStorage.RunsAgreeIff`), and a limit of the largest 64-bit integer makes a body come
  out empty (`BodyStorage.WholeStreamIff`).
- A pointer to the empty string comes back from Redis as nil, and a struct inside the struct as
  zero (`RedisHash.RoundTripIff`).

One property holds only thanks to a step that is easily dropped: tolerant price comparison drifts
on candidates that are not in name order (`ModelsDev.OutOfOrderDrifts`), and the program sorts.

## Assumptions

- Database transactions and compare-and-swap updates are atomic, may fail, and then change
  nothing. Trade numbers and row ids are unique.
- The clock is a parameter and, where a lemma says so, never goes back.
- Each thread unlocks only an order it locked, once.
- A regular expression match, Go's time parser and the contents of upstream responses are
  arbitrary.
- Prices are reals.

## Model

| member | source | states |
|---|---|---|
| `OrderLock.MutualExclusion` | controller/topup.go:279-308 | In every run of any number of threads and trade numbers, two threads between the return of LockOrder and the release in UnlockOrder of one trade number are the same thread, though entries are deleted and recreated. |
| `OrderLock.UnlockFindsOwnMutex` | controller/topup.go:294-300 | UnlockOrder, loading the entry without the create lock, finds the mutex its thread locked, and no run unlocks an unlocked mutex. |
| `OrderLock.RefCountExact` | controller/topup.go:288-304 | Every reference count is the number of threads waiting on, holding or releasing that mutex. |
| `OrderLock.MapHoldsOrdersInUse` | controller/topup.go:282-307 | A trade number is in the map if and only if some thread is using it. |
| `OrderLock.QuiescentMapIsEmpty` | controller/topup.go:302-307 | When every thread has left, the map is empty and the create lock free: entries do not leak. |
| `OrderLock.DeadlockFree` | controller/topup.go:279-308 | A thread in the protocol can step, or the thread blocking it can. |
| `OrderLock.PassesAlone` | controller/topup.go:279-308 | A lone thread gets into the section of its order and out again, and leaves neither entry nor count nor lock behind. |
| `OrderLock.InvStep` | controller/topup.go:279-308 | Every atomic step of any thread keeps the protocol's invariant: lock ownership, exact counts, and entries that are unused only in transit. |
| `Payments.CreditedAtMostOnce` | controller/topup_creem.go:303-357 | However deliveries repeat and interleave, with every other writer of orders, an order is credited at most once, and has been if its status is success. |
| `Payments.CreditedIffSucceededIff` | controller/topup_waffo.go:219-283 | On every run an order is credited exactly when its status is success, if and only if no creation handler saved its failure over the success. |
| `Payments.LateFailureHappens` | controller/topup_waffo.go:269-283 | A run that does so: an administrator completes a Waffo order while its creation handler waits for the provider. |
| `Payments.FailureSavedOverPending` | controller/topup_stripe.go:231-255 | When Stripe's asynchronous failure saves its copy of the order, the stored order is still that pending one. |
| `Payments.GuardedOrderStays` | controller/topup_stripe.go:231-316 | While a handler holds the lock of a Stripe or Creem order, nothing that any number of others do changes the order or its credits. |
| `Payments.CheckedOrderIsCredited` | controller/topup_creem.go:303-357 | A Creem order found pending under the lock is credited once and marked success when its handler gets to it, whatever happens in between. |
| `Payments.PaidCompletes` | model/topup.go:124-170 | Each paid handler completes and credits a pending order of its own provider (an administrator of any), worth more than 0, and changes nothing else. |
| `Payments.SessionEnds` | controller/topup_stripe.go:222-316 | An expired session marks a pending Stripe order as expired, a failed one as failed, and neither touches another. |
| `Payments.WebhooksWrite` | model/topup.go:618-664 | Epay completes and credits its own pending orders, Waffo's rejection marks its own as failed. |
| `Payments.CreationWrites` | controller/topup_waffo.go:208-283 | A creation inserts a pending order; the Waffo and Pancake handlers save it as failed when the provider does not answer well, and write nothing otherwise. |
| `Payments.CreemLooksFirst` | controller/topup_creem.go:303-320 | A Creem delivery goes on to the credit exactly when the order is pending. |
| `Payments.FailuresWriteNothing` | model/topup.go:124-170 | A database error leaves orders and credits as they were. |
| `Payments.HandlerWorks` | controller/topup.go:465-484 | In the machine, two moves of a handler inside the section do that work. |
| `Payments.DecidedForeverIff` | model/topup.go:97-120 | In every reachable state, an order that is no longer pending never changes again, whatever happens next, if and only if no creation handler of it is still waiting or it is marked failed. |
| `Payments.DecidedStepIff` | controller/topup_waffo_pancake.go:394-418 | A step changes a decided order if and only if it is a creation handler's save over a success; no step credits one. |
| `Payments.LockIsNeeded` | controller/topup_stripe.go:231-255 | The same accesses without the lock can leave a credited order marked failed. |
| `Payments.InvStep` | controller/topup_stripe.go:265-316 | Every step of every handler keeps the credits at most one per order, the freshness of what is about to be saved under the lock, and the copies of the creation handlers. |
| `Midjourney.RefundedAtMostOnce` | model/task_billing_operation.go:166-192 | In every run of any number of pollers, whatever upstream answers and rows are inserted, a row is refunded at most once. |
| `Midjourney.TaskRefundedAtMostOnce` | service/task_billing_operation.go:80-90 | In every run, two rows for one task id have at most one refund between them. |
| `Midjourney.KeysSharedIff` | service/task_billing_operation.go:80-90 | Rows share a billing key exactly when they share a task id, or are one row without one. |
| `Midjourney.EntryIsStored` | controller/midjourney.go:143-215 | A response entry for a current copy: overdue by more than an hour or reported as failed, the row is stored as failed at 100% with that reason and refunded; otherwise it says just what the entry says. |
| `Midjourney.PolledAgainIff` | controller/midjourney.go:90-106 | The task is read by a later round exactly when the entry leaves it neither failed nor at 100%. |
| `Midjourney.SuccessLeavesTheRounds` | controller/midjourney.go:143-215 | A task reported as done within the hour is stored as done and never read again. |
| `Midjourney.GivenUpIsStored` | controller/midjourney.go:25-42 | A task given up is stored as failed at 100% with the reason and refunded, unless it had succeeded. |
| `Midjourney.LostWrites` | model/midjourney.go:144-154 | A write against another status, a failing database or a refund granted before changes nothing. |
| `Midjourney.RoundReads` | model/midjourney.go:97-106 | A round reads exactly the rows not at 100%, as they are. |
| `Midjourney.FailedExactlyRefunded` | controller/midjourney.go:25-42 | In every run where those three things do not happen, a row in FAILURE is at 100% and was refunded exactly once if it had a quota and was not inserted so, and no other row was refunded. |
| `Midjourney.FailedRowsStay` | controller/midjourney.go:143-215 | In every such run a row in FAILURE stays exactly as it is. |
| `Midjourney.FailureAbsorbsIff` | controller/midjourney.go:84-218 | FAILURE is absorbing in all runs of a kind if and only if in that kind no row is inserted as failed yet unfinished, no entry lists a task its round gave up, and none lists a task its round was told has failed. |
| `Midjourney.LeavesFailureIff` | controller/midjourney.go:159-209 | In any state, a step takes a row out of FAILURE if and only if it is an entry that says otherwise of a task whose copy holds FAILURE. |
| `Midjourney.GivenUpFailureRevives` | controller/midjourney.go:119-136 | A task given up because its channel cannot be loaded, then listed as running by another channel's response, leaves FAILURE. |
| `Midjourney.TwiceListedFailureRevives` | controller/midjourney.go:143-215 | A round that lists a task as failed and again as running takes it out of FAILURE. |
| `Midjourney.InsertedFailureRevives` | relay/mjproxy_handler.go:581-645 | A row inserted as failed but unfinished is read again and leaves FAILURE. |
| `Midjourney.Acts` | controller/midjourney.go:143-215 | In any state, an action changes its copy and at most the row whose status it compared, with a refund exactly on the transition to FAILURE; what it stores is said by EntryIsStored and GivenUpIsStored. |
| `Midjourney.InvStep` | controller/midjourney.go:143-215 | Every step other than those three keeps the invariant: a copy holds FAILURE only because its own round put it there, and refunds match rows that failed. |
| `Upstream.ApplySyncedIff` | controller/channel_upstream_update.go:783-831 | For every selection, detection run again on the same upstream list returns exactly the stored remainders, as sequences, if and only if, with the model list as it is read back, each upstream name is had or ignored just when it was or was chosen, and the same names are to be removed as of the list that was meant. |
| `Upstream.ApplySyncedIffCommaFree` | controller/channel_upstream_update.go:783-831 | For a selection without pattern-like names that comes down to this: no name added has a comma. |
| `Upstream.ApplySyncedIffCovers` | controller/channel_upstream_update.go:783-831 | For a selection that adds no name with a comma it comes down to this: the new ignore list covers, of the upstream names left, exactly those ignored before and those chosen. |
| `Upstream.ApplyAllLeavesNothing` | controller/channel_upstream_update.go:783-831 | Applying everything pending leaves both remainders empty. |
| `Upstream.SyncedForeverIff` | controller/channel_upstream_update.go:176-235 | For every run of checks and selections, a channel in step with upstream stays so after each operation if and only if each automatic add is comma-free and each selection meets that condition. |
| `Upstream.PlainSyncedForeverIff` | controller/channel_upstream_update.go:176-235 | On runs without pattern-like names: if and only if the run adds no name with a comma. |
| `Upstream.CheckSyncsIff` | controller/channel_upstream_update.go:360-407 | A completed check records the removals detected and, with automatic adding, adds and reports exactly the pending adds; it leaves the stored lists as detection would return them if and only if it added no name with a comma. |
| `Upstream.LaterChecksAddNothingIff` | controller/channel_upstream_update.go:360-407 | With automatic adding and a fixed upstream, the first check adds exactly what is pending, and every later run of checks adds nothing if and only if none of that has a comma. |
| `Upstream.ChecksChangeNothing` | controller/channel_upstream_update.go:360-407 | With nothing left to add, any run of checks, readable or not, forced or not, adds nothing and changes only the check time: the removed list stays. |
| `Upstream.IgnoringAPatternNameBreaks` | controller/channel_upstream_update.go:176-235 | Ignoring a name that reads as a pattern, and does not match itself, breaks the agreement. |
| `Upstream.AddingACommaNameBreaks` | model/channel.go:289-294 | Adding a name with a comma breaks the agreement. |
| `Upstream.StoredNames` | model/channel.go:289-294 | A normal list of comma-free names survives being joined, split and normalised. |
| `Upstream.FreshAddsIff` | controller/channel_upstream_update.go:176-235 | The adds detected after a selection are the earlier ones without those added or ignored, in order, if and only if the ignore list covers what it should. |
| `Upstream.FreshRemoves` | controller/channel_upstream_update.go:225-234 | The removals detected after a selection are the earlier ones without those removed, in order; which those are is said by DetectsExactly. |
| `Upstream.DetectsExactly` | controller/channel_upstream_update.go:176-235 | To be added: the upstream names neither local, nor a target of the mapping, nor matched by an ignore entry, plain or after "regex:". To be removed: the local names neither a source of the mapping nor offered upstream. |
| `Upstream.DetectsInOrder` | controller/channel_upstream_update.go:210-234 | Both in the order of the list they come from, each name once. |
| `Upstream.CheckPaths` | controller/channel_upstream_update.go:366-382 | A check is skipped exactly when it is not forced and the last was less than the interval ago; one that cannot read upstream only notes the time. |
| `Upstream.ApplySpec` | controller/channel_upstream_update.go:783-831 | The pending names chosen are added, ignored or removed, the rest stays as it was and in order; the model list is the old one with the adds behind it and without the removals. |
| `Upstream.NormalizeSpec` | controller/channel_upstream_update.go:97-102 | Normalising leaves the trimmed names that are not empty, each where it first occurs. |
| `Upstream.NextModels` | controller/channel_upstream_update.go:142-147 | The new model list, as a sequence and as a set. |
| `Upstream.Channel.CheckAndPersist` | controller/channel_upstream_update.go:360-407 | The object's fields follow the check the lemmas speak of on every path (too soon, unreadable upstream, with and without automatic adding), and models are reported changed exactly when some were added. |
| `Upstream.Channel.Store` | controller/channel_upstream_update.go:384-407 | The fields once the detection is recorded, with the number added; the other fields stay. |
| `Upstream.Channel.ApplyUpdates` | controller/channel_upstream_update.go:783-831 | The object's fields follow the application the lemmas speak of; the names reported as added and removed are those taken of the selection. |
| `RateLimit.FaithfulIff` | common/rate-limit.go:14-70 | On every run of requests and clean-ups that can happen, a request is accepted exactly when fewer than the limit were accepted in the last duration seconds: if and only if every limit is at least one and, where there is a clean-up, every duration at most its period plus one. |
| `RateLimit.Simulates` | common/rate-limit.go:28-70 | From any state in which each queue is the end of its key's history, the limiter answers as the specification. |
| `RateLimit.AskIsAllowed` | common/rate-limit.go:45-70 | The oldest time of the queue decides as counting the whole history does. |
| `RateLimit.FirstAlwaysPasses` | common/rate-limit.go:64-69 | With a limit below one the first request is accepted all the same. |
| `RateLimit.ForgottenTooSoon` | common/rate-limit.go:33-39 | With a longer duration and a clean-up, the answers are not those demanded. |
| `RateLimit.TooManyServed` | common/rate-limit.go:33-39 | The run that shows it: the limit's worth of requests, a clean-up, and one more accepted within the window. |
| `RateLimit.NoWindowExceedsLimit` | common/constants.go:214-241 | Of the requests the limiter itself accepts for a usable key, on every run and whatever the limits of other keys, no stretch of duration seconds holds more than the limit. |
| `RateLimit.WindowsHoldIff` | common/rate-limit.go:14-70 | That holds on every run if and only if the key's limit is usable, or its window empty and its limit not negative. |
| `RateLimit.SameAnswersSameLog` | common/rate-limit.go:45-70 | Where the answers are those demanded, the requests accepted are those of the specification. |
| `RateLimit.UsableInSeconds` | common/rate-limit.go:36 | A duration is at most the period in whole seconds plus one exactly when it is at most the period plus one second. |
| `RateLimit.InMemoryRateLimiter.Request` | common/rate-limit.go:45-70 | The object's queues and answer are those the history lemmas speak of, and no queue is ever empty, so the oldest time read always exists. |
| `RateLimit.InMemoryRateLimiter.ClearExpiredItems` | common/rate-limit.go:28-42 | One pass of the loop, in any order over the keys, keeps exactly the queues whose last time is within the expiration. |
| `Verification.VerifyIsValid` | common/verification.go:35-62 | After every history, a code is accepted exactly when it is the one last registered for that key and purpose, not deleted since, and its age is below the validity's minutes times 60 seconds. |
| `Verification.ExpiredIff` | common/verification.go:52 | Truncating the age to seconds does not matter: an entry expires when its age reaches the validity. |
| `Verification.SweepingIsInvisible` | common/verification.go:42-44 | Whatever size triggers the sweep, every answer is the same. |
| `Verification.PrefixesNeverCollide` | common/verification.go:16-19 | Entries of the two purposes coincide exactly when purpose and key do. |
| `Verification.OtherPrefixesCollide` | common/verification.go:38 | Longer purposes could share an entry. |
| `Verification.VerificationMap.RegisterCode` | common/verification.go:35-45 | The object's entries are those the history lemmas speak of: the code replaces an earlier one, and expired entries are swept when there are too many. |
| `Verification.VerificationMap.VerifyCode` | common/verification.go:47-56 | The object accepts exactly the codes the history lemmas speak of, and changes nothing. |
| `Verification.VerificationMap.DeleteKey` | common/verification.go:58-62 | Only the entry of that key and purpose goes. |
| `Verification.VerificationMap.RemoveExpiredPairs` | common/verification.go:65-72 | The loop, in any order over the keys, leaves exactly the entries that are not expired. |
| `MultiKey.RunValidIff` | model/channel.go:526-573 | All three maps' indices stay below the key count on every run of actions, each stored and read again, if and only if no key is an empty line or that is the only key. |
| `MultiKey.RunSane` | controller/channel.go:1555-1858 | On every run from any channel the size is the number of keys, the keys are as a text is read, and the status map is about keys there are. |
| `MultiKey.EmptyLineShifts` | model/channel.go:555-563 | Deleting the first key before an empty line enables the key after it and leaves its time behind. |
| `MultiKey.CountsSumToKeys` | controller/channel.go:1454-1502 | Over every run the three status counts sum to the number of keys. |
| `MultiKey.CountIsNumber` | controller/channel.go:1470-1478 | Each count is the number of keys that show that status. |
| `MultiKey.LastPageIsNeeded` | controller/channel.go:1516-1521 | There is no page too many: the last one holds something, unless nothing does. |
| `MultiKey.DisableKeyView` | controller/channel.go:1555-1596 | A key disabled by hand is shown with status 2, and every other key as before. |
| `MultiKey.EnableKeyView` | controller/channel.go:1598-1638 | A key enabled is shown with status 1 and no time or reason, and every other key as before. |
| `MultiKey.EnablingForgets` | controller/channel.go:1616-1625 | Its time and reason are forgotten: disabled by hand later, it shows none. |
| `MultiKey.EnableAllView` | controller/channel.go:1640-1662 | Enabling all shows every key with status 1 and no time or reason. |
| `MultiKey.DisableAllView` | controller/channel.go:1664-1709 | Disabling all turns just the keys with status 1 into keys with status 2. |
| `MultiKey.EnabledBelowIsCount` | controller/channel.go:1676-1688 | The number reported is the number of keys shown as enabled. |
| `MultiKey.RefusedView` | controller/channel.go:1565-1571 | An index out of range changes nothing. |
| `MultiKey.ReportView` | model/channel.go:641-680 | A report is shown at the first position of its key, with its status, time and reason or as enabled, and every other key as before. |
| `MultiKey.HandDisabledSurvives` | controller/channel.go:1808-1828 | Bulk deletion keeps what shows status 1 or 2 and drops what shows 3. |
| `MultiKey.KeptNotes` | controller/channel.go:1813-1827 | It carries times and reasons over only with a status. |
| `MultiKey.RestNotes` | controller/channel.go:1744-1760 | Single deletion carries every time and reason over. |
| `MultiKey.PagesCover` | controller/channel.go:1516-1537 | Pages 1 to totalPages concatenate to exactly the filtered list. |
| `MultiKey.DeleteKeyViewIff` | controller/channel.go:1729-1782 | Once stored and read again, a deletion shows what was shown before without that key (keys, statuses, times and reasons) if and only if the keys left neither start nor end with an empty one. |
| `MultiKey.LastingReadBack` | controller/channel.go:1771-1773 | Keys joined into the text are written and read back as they were if and only if the first and the last of them are not empty. |
| `MultiKey.EmptyLineLost` | model/channel.go:194-196 | An empty line at either end of the text is lost, and one alone leaves the text empty. |
| `MultiKey.ReadKeysReadable` | model/channel.go:175-197 | What is read from a text has no newline in a key and no empty key at an end, unless that is all. |
| `MultiKey.DeleteDisabledViewIff` | controller/channel.go:1791-1850 | Once stored and read again, bulk deletion shows what was shown before without the auto-disabled keys if and only if there are none or the keys left neither start nor end with an empty one. |
| `MultiKey.BulkIsOneByOneIff` | controller/channel.go:1791-1850 | Bulk deletion shows the same as deleting the auto-disabled keys one at a time, in any order that loses no empty line, if and only if some key survives. |
| `MultiKey.SolidBulkIff` | controller/channel.go:1791-1850 | In any order at all, when no key is empty. |
| `MultiKey.EmptySurvivorRevives` | controller/channel.go:1839-1846 | When the only survivor is an empty line, bulk deletion deletes nothing and enables all, and one at a time does not. |
| `MultiKey.AllRevived` | controller/channel.go:1839-1846 | When every key is auto-disabled none is deleted and all are shown as enabled. |
| `MultiKey.RebuildSpec` | controller/channel.go:1736-1761 | The re-indexed maps and keys hold at each new position exactly what the old position held. |
| `MultiKey.DisableSpec` | controller/channel.go:1677-1688 | Exactly the enabled keys become manually disabled. |
| `MultiKey.MarkManual` | controller/channel.go:1676-1688 | The loop disables exactly the positions that the function and its lemma name, and counts them. |
| `MultiKey.CutStatus` | model/channel.go:556-563 | The loop, in any order, leaves the status entries below the size. |
| `MultiKey.Channel.Update` | model/channel.go:526-573 | The key text is written unless empty and read again, the size recomputed and the status map cut; times and reasons stay. |
| `MultiKey.CopyOthers` | controller/channel.go:1735-1761 | The loop of single deletion carries over every other position. |
| `MultiKey.CopyKept` | controller/channel.go:1799-1829 | The loop of bulk deletion carries over every position not auto-disabled, and counts the others. |
| `MultiKey.Channel.DeleteKeyAt` | controller/channel.go:1711-1789 | The object follows the deletion the lemmas speak of, stored and read again, and refuses a missing or out-of-range index and the last key, unchanged. |
| `MultiKey.Channel.DeleteDisabledKeys` | controller/channel.go:1791-1858 | The object follows the bulk deletion the lemmas speak of, stored and read again, and returns how many positions were auto-disabled. |
| `MultiKey.Channel.DisableAllKeys` | controller/channel.go:1664-1709 | The object has exactly its enabled keys disabled, and returns how many they were. |
| `MultiKey.Channel.SetKey` | controller/channel.go:1555-1638 | The object follows the disabling and enabling the view lemmas speak of; an index missing or out of range changes nothing. |
| `MultiKey.Channel.GetKeyStatus` | controller/channel.go:1441-1553 | The page is a page, with defaults and clamping, of the filtered view; totals count the filtered keys and the three counts all keys. |
| `ModelsDev.SelectsCheapest` | controller/ratio_sync.go:881-904 | In name order the fold picks a non-zero price when there is one, below every non-zero candidate's price plus the tolerance. |
| `ModelsDev.ChosenPrice` | controller/ratio_sync.go:915-944 | The same of a provider's offer in the listing: the chosen price is below it plus the tolerance. |
| `ModelsDev.ChosenListedPrice` | controller/ratio_sync.go:845-944 | The price chosen is one a provider lists; if any lists a non-zero one it is non-zero, and below each such listed price plus 1e-9. |
| `ModelsDev.BuildExactly` | controller/ratio_sync.go:845-879 | Exactly the usable listings become candidates, at their listed costs. |
| `ModelsDev.NothingListed` | controller/ratio_sync.go:934-938 | Without a usable listing nothing is chosen. |
| `ModelsDev.FreeOffersKeepFirst` | controller/ratio_sync.go:891-892 | Among free offers the provider first in name order is chosen. |
| `ModelsDev.SortForgetsOrder` | controller/ratio_sync.go:915-932 | Whatever order Go ranges over a map in, the sorted names are the same. |
| `ModelsDev.SelectionForgetsOrder` | controller/ratio_sync.go:915-944 | So is the whole selection, as a map. |
| `ModelsDev.OutOfOrderDrifts` | controller/ratio_sync.go:881-904 | Out of order the tolerance adds up: a price is chosen that another undercuts by more. |
| `ModelsDev.SelectAll` | controller/ratio_sync.go:915-944 | The loops select for every model what the fold over the sorted providers does, for every iteration order. |
| `ModelsDev.MergeProvider` | controller/ratio_sync.go:928-943 | The inner loop, in any order Go may range in, takes each valid offer of one provider into account once and leaves other models alone. |
| `RatioSync.ReportedExactly` | controller/ratio_sync.go:536-696 | For all inputs, a cell is reported if and only if it is included and some channel, last of its name, shows a value of its own in some included cell and does not show "same" in this one. |
| `RatioSync.ReportedDiffers` | controller/ratio_sync.go:536-696 | For all inputs, in a reported cell some channel's value differs from the local one. |
| `RatioSync.ReportedIff` | controller/ratio_sync.go:536-696 | With scalar values other than null and "same" and distinct names, a cell is reported if and only if some channel's value differs from the local one. |
| `RatioSync.NumbersDifferIff` | controller/ratio_sync.go:48-62 | In the eight numeric fields numbers, in either form, differ exactly when they are 1e-9 or more apart. |
| `RatioSync.OtherValuesDifferIff` | controller/ratio_sync.go:55-62 | Texts differ as texts; a value without a local one differs, and a missing one never does. |
| `RatioSync.ConfidentIff` | controller/ratio_sync.go:558-591 | An entry is not trusted exactly when its model ratio is 37.5 and its completion ratio 1, up to 1e-9. |
| `RatioSync.KeptIff` | controller/ratio_sync.go:656-665 | For all inputs, a channel last of its name is kept if and only if it shows a value of its own in some included cell. |
| `RatioSync.ReportedCell` | controller/ratio_sync.go:656-693 | A reported cell has exactly the columns of channels that differ somewhere, each with its own value, "same" or nothing, and its confidence. |
| `RatioSync.NoOtherColumns` | controller/ratio_sync.go:667-693 | It has no column but those of channels. |
| `RatioSync.FullTableIff` | controller/ratio_sync.go:593-654 | Before pruning the table already has exactly those cells: pruning deletes no genuine cell. |
| `RatioSync.ShowsIff` | controller/ratio_sync.go:656-665 | The channels kept are exactly those that differ somewhere. |
| `RatioSync.ShownSpec` | controller/ratio_sync.go:605-629 | A column shows a value of its own exactly where its channel differs. |
| `RatioSync.SameTextIsLost` | controller/ratio_sync.go:622 | A value that reads "same" differs and is not reported. |
| `RatioSync.NullIsLost` | controller/ratio_sync.go:660 | A null against a local value differs and is not reported, if its channel shows nothing else. |
| `RatioSync.SharedNameHides` | controller/ratio_sync.go:626 | Of two channels with one name, the later hides a difference the earlier shows. |
| `RatioSync.Compare` | controller/ratio_sync.go:606-624 | The branches for one channel give what the lemmas say a column shows, and raise a difference exactly where they say. |
| `RatioSync.BuildCell` | controller/ratio_sync.go:595-652 | The loop over the channels builds the cell the lemmas speak of, or leaves it out. |
| `RatioSync.BuildTable` | controller/ratio_sync.go:593-654 | The loops over models and fields, in any order of the models, fill exactly the full table. |
| `RatioSync.CollectDiffering` | controller/ratio_sync.go:656-665 | The loops find exactly the channels that show a value of their own in some cell. |
| `RatioSync.PruneTable` | controller/ratio_sync.go:667-693 | Deleting columns and then cells while ranging, in any order, leaves exactly the pruned table. |
| `RatioSync.BuildDifferences` | controller/ratio_sync.go:536-696 | For all inputs the phases together compute the table of which the lemmas prove the report exact. |
| `OggScan.VisitsExactlyThePages` | common/audio.go:207-249 | On any run of well-formed Ogg pages, with marker-free bytes before, between and after them, the scan takes exactly the pages, each where it starts and ends. |
| `OggScan.LargestGranule` | common/audio.go:228-232 | The result is the largest granule position of the pages, or 0: those marked -1 are ignored. |
| `OggScan.NoMarkOverlooked` | common/audio.go:219-226 | On arbitrary bytes, every marker with a header's length of data is taken unless it lies inside a page taken before. |
| `OggScan.TraceSpec` | common/audio.go:207-249 | On arbitrary bytes, the pages taken lie at markers, one behind the other. |
| `OggScan.GranuleRoundTrip` | common/audio.go:229 | Every signed 64-bit granule position survives its little-endian encoding. |
| `OggScan.PageRead` | common/audio.go:228-248 | A page is read back with its granule position and its length. |
| `OggScan.OpusDuration` | common/audio.go:196-254 | The loop terminates on all bytes, and returns the largest granule position taken over 48000. |
| `OggScan.PageSize` | common/audio.go:241-245 | The loop sums the segment table. |
| `BodyStorage.RunsAgreeIff` | common/body_storage.go:47-89 | Over every run of reads, seeks, Bytes and Close, memory and disk storage end alike, and answer alike if and only if no call was an empty read at the end. |
| `BodyStorage.NonEmptyReadsAgree` | common/body_storage.go:167-224 | Without empty reads they cannot be told apart. |
| `BodyStorage.EmptyReadTellsThemApart` | common/body_storage.go:47-54 | An empty body read with an empty buffer tells them apart. |
| `BodyStorage.StepAgreesIff` | common/body_storage.go:167-224 | One call leaves both storages alike, and is answered alike if and only if it is not an empty read at the end. |
| `BodyStorage.BytesIsWhole` | common/body_storage.go:198-230 | Rewinding, reading everything and going back returns the body and leaves the position. |
| `BodyStorage.ReadsPartitionBody` | common/body_storage.go:47-54 | Reads of whatever sizes return the body in order, without gap or repetition. |
| `BodyStorage.SeekGoes` | common/body_storage.go:56-63 | A seek of either storage goes where it is asked from the start, the position or the end, and is refused, leaving the position, when that is negative or beyond 64 bits. |
| `BodyStorage.ReadAtEnd` | common/body_storage.go:47-54 | A read at or past the end, into a buffer, reports the end. |
| `BodyStorage.ClosedRefuses` | common/body_storage.go:65-72 | Once closed, either storage refuses everything but another close. |
| `BodyStorage.DiskIff` | common/body_storage.go:241-259 | A body goes to disk exactly when that is enabled and works, the body reaches the threshold and there is room. |
| `BodyStorage.StreamsIff` | common/body_storage.go:262-282 | A stream goes straight to disk exactly when its announced length reaches the threshold and has room; small bodies stay in memory. |
| `BodyStorage.WholeStreamIff` | common/body_storage.go:262-303 | On every path, the storage holds the whole stream if it fits and the error is returned if it does not: if and only if the limit is below the largest 64-bit integer or the stream is empty. |
| `BodyStorage.CreateBodyStorage` | common/body_storage.go:241-259 | The data ends up whole in a new storage at its start; on disk only when enabled, large enough, with room and with a disk that works; counted once, by its kind and size. |
| `BodyStorage.CreateBodyStorageFromReader` | common/body_storage.go:262-303 | Every path returns the storage or error of which the lemma proves the promise, new, open and at its start, counted once with one hit; an error counts nothing. |
| `BodyStorage.MemoryStorage.Read` | common/body_storage.go:47-54 | Position and answer are those of the memory side of the agreement lemma; a closed storage refuses. |
| `BodyStorage.MemoryStorage.Seek` | common/body_storage.go:56-63 | Likewise a seek, with the wrap-around of its addition: a refused seek leaves the position. |
| `BodyStorage.MemoryStorage.Bytes` | common/body_storage.go:74-81 | Likewise the whole body, the position untouched. |
| `BodyStorage.MemoryStorage.Close` | common/body_storage.go:65-72 | The first close, and no other, gives one buffer and its size back. |
| `BodyStorage.DiskStorage.Read` | common/body_storage.go:169-176 | Position and answer are those of the disk side of the agreement lemma; a closed storage refuses without touching the file. |
| `BodyStorage.DiskStorage.Seek` | common/body_storage.go:178-185 | Likewise a seek on the file. |
| `BodyStorage.DiskStorage.Bytes` | common/body_storage.go:198-230 | Seeking, reading in a loop and seeking back returns the whole file and leaves the position. |
| `BodyStorage.DiskStorage.Close` | common/body_storage.go:187-196 | The first close, and no other, gives one file and its size back, clamped at zero. |
| `CacheCounters.CountersConserved` | common/disk_cache_config.go:109-134 | In every interleaving of creations and repeated closes, when nothing is under way the counters are the number and total size of the open storages. |
| `CacheCounters.OpensAndCloses` | common/body_storage.go:37-72 | A creation left to itself opens a storage and counts it and its size; a close left to itself takes both back, and a second one nothing. |
| `CacheCounters.SubtractedOnce` | common/body_storage.go:187-196 | Each storage is subtracted once, when its close gets that far. |
| `CacheCounters.ClampNeverFires` | common/disk_cache_config.go:115-122 | No subtraction comes out negative, so zero is never stored over it. |
| `CacheCounters.ResetKeepsIff` | common/disk_cache_config.go:153-156 | A reset keeps the books exactly when no disk file is counted at that moment. |
| `CacheCounters.InvStep` | common/disk_cache_config.go:109-134 | Every atomic step keeps the counters at what the storages' phases add up to. |
| `RedisHash.RoundTripIff` | common/redis.go:107-239 | Decoding an encoded struct into a new one returns every field if and only if there is something to read and no field is a pointer to the empty string, a set DeletedAt, an inner struct that is not zero or of an unsupported type. |
| `RedisHash.RoundTripInto` | common/redis.go:161-239 | Decoding into a struct in use: nil pointers, pointers to the empty string, inner structs and DeletedAt leave it as it was. |
| `RedisHash.IntRoundTrip` | common/redis.go:209-214 | Every 64-bit integer survives being printed and parsed. |
| `RedisHash.BoolRoundTrip` | common/redis.go:215-220 | So does every boolean. |
| `RedisHash.FieldRoundTrip` | common/redis.go:188-236 | One field, into any value it had; an unsupported type is an error unless the text is skipped. |
| `RedisHash.FirstUnreadable` | common/redis.go:188-236 | The first field whose text cannot be read stops the decoding with its error; the fields before it are set and those after it as they were. |
| `RedisHash.UnreadableField` | common/redis.go:206-234 | An unreadable integer, boolean or unsupported type is reported by its field's name, and the field keeps its value. |
| `RedisHash.TimeField` | common/redis.go:221-231 | A deletion time is kept for an empty text, read if the text is one, and reported otherwise. |
| `RedisHash.ReadableInt` | common/redis.go:209-213 | Only digits, at least one, after at most one sign are read as an integer. |
| `RedisHash.ReadableBool` | common/redis.go:215-219 | Twelve texts are read as a boolean, and no other. |
| `RedisHash.EncodeAgrees` | common/redis.go:114-145 | With distinct names, the hash says of each field what the field alone is encoded as, and nothing of DeletedAt. |
| `RedisHash.HSetObj` | common/redis.go:107-145 | The loop fills the map with the encoding whose round trip the lemmas prove. |
| `RedisHash.HGetObj` | common/redis.go:161-239 | The loop sets the fields, in place, to what the lemmas prove, and on the first text that cannot be parsed stops with its error, the earlier fields set and a nil pointer already allocated. |

## Left out

- HTTP handlers, JSON binding, logging, audit records, notifications and HTML pages.
- Signature checks, OAuth, passkeys and TOTP; SSRF and URL checks; the relay and billing loop.
- Subscription orders: the payment handlers first look for one; the model starts where none is found. Their own creation handler's save is left out with them.
- Refunds and credits are counted by order or row, not by amount; the outbox that pays them later is not followed.
- UnlockOrder called by a thread that does not hold the order.
- The handlers' and pollers' loops, which the step systems replace by their database accesses in any order; the surrounding white space and the hashing of billing keys.
- The notify route of Midjourney, which the router does not register.
- Database errors while a channel is stored; the fetch of upstream models and the parsing of the model mapping.
- JSON arrays in a multi-key channel's key text, the preview of a key, and the channel's own status, which decides whether a report is taken.
- RateLimit.InMemoryRateLimiter.Request: a negative limit, on which Go's allocation panics, is treated as zero.
- The conversion of selected prices to ratios, its rounding, and the OpenRouter converter; floating-point rounding in general.
- RatioSync.BuildDifferences: the nested table is flat, by model and field, and the confidence map is computed where it is used; values that are not scalars, on which Go's comparison panics, are not in the model.
- OggScan.OpusDuration: input errors, and readers that return less than they have.
- Other audio formats.
- Seeks with a whence other than start, current and end, file-system limits on offsets, failing disk reads, the wording of errors, and the sharing of the slice that a memory storage's Bytes returns.
- Directory clean-up and resynchronisation of the cache counters, and their 64-bit overflow.
- Redis itself: expiry, transactions, and the refusal to write an empty hash; pointers to DeletedAt.
- RedisHash.RoundTripIff: fields of named types whose String method changes what is printed, such as a time.Duration, which prints as text its own parser does not read, are not in the model.
