# SCIMage, modelled and verified in Dafny

SCIMage is a multi-tenant SCIM 2.0 server. It keeps users and groups in PostgreSQL, records every
change in an audit log, and announces it to a webhook receiver through an outbox that any number of
dispatchers drain. This project models that core and proves what it guarantees.

`dafny verify dfyconfig.toml` checks everything. The modules:

- **Delivery.** `Outbox` is the deliveries table; `Dispatch` the protocol as a state machine (enqueue,
  claim, send, reply, outcome, lost write, crash, replay, purge, passing time) beside the dispatcher's own
  methods; `DispatchSafety`, `DispatchReplies`, `DispatchLease`, `DispatchTight`, `DispatchBudget`,
  `DispatchProgress` and `DispatchOvertake` what holds over all its runs; `Backoff` the retry arithmetic on
  64-bit durations.
- **Store.** `Store` is each transaction as one atomic step, with database ids, clocks, faults and the
  uuid printer as parameters; `Database` the store's methods, proved to be those transactions; `History`,
  `Uniqueness`, `Convergence`, `ConvergenceExact`, `GroupConvergence`, `Isolation` and `Membership` what
  every run of transactions keeps; `Listing` the reads.
- **SCIM.** `Scim`, `Patch`, `PatchSplit`, `PatchFrame`, `Attributes`, `GroupPatch` and `GroupRequests` are
  resources, PATCH (section 3.5.2 of RFC 7644), extended attributes and group membership; `Service` is whole
  runs of requests, and `RequestIsolation` their isolation.
- **Meaning.** `ScimExact`, `PatchExact`, `GroupPatchExact`, `StoreExact`, `ServiceExact`, `AriaExact` and
  `SignerExact` say what each operation does in terms of its inputs alone: attribute names, columns, counts
  and characters, with the condition for every answer.
- **Across all of them.** `EndToEnd` joins store, outbox, dispatchers and receiver.
- **Algorithms.** `Cluster` and `Aria` are the audit review; `Numerals` and `Signer` the webhook signature.
- `Text`, `Ordering` and `Entities` hold what the rest shares.

Time is one clock shared by database and dispatchers, in nanoseconds. A claim under `SKIP LOCKED` is one
atomic step. The token's tenant is the tenant of every statement of a request. JSON objects are
sequences of fields in the order they are visited.

## Where the code and its documentation disagree

The model follows the code.

- The comment on `ClaimDueDeliveries` says a delivery that kills its dispatcher eventually dead-letters.
  A claim does not test the attempt count, so it does not (`DispatchBudget.CrashLoopNeverParks`). A row
  leaves the queue exactly when an outcome is written that is a 2xx, a permanent failure, or a failure of a
  claim at the limit (`DispatchBudget.LeavesQueueExactly`), and such a dispatcher writes none.
- The comment on `backoff` gives stopping at the cap as the guard against overflow. It is not enough under a
  cap above 2^62 (`Backoff.LargeCapOverflows`); `Backoff.BackoffExact` gives the exact condition.
- The comment on `setMembers` admits an array of bare ids. `decodeMemberValues` rejects it, and the empty
  array too (`GroupPatch.BareIdsRefused`; the exact condition is `GroupPatch.ArrayDecodes`).
- Members are compared as strings. Removing a member under another spelling of its id is answered with
  success and leaves the member in place (`Service.OtherSpellingAlwaysStays`), and adding it again under
  another spelling is refused (`GroupRequests.OtherSpellingRefused`).
- The documentation tells receivers to keep the newest event per user. An event's `userId` is the id as the
  caller spelled it, so a receiver keyed on it also needs callers to spell ids canonically
  (`Convergence.SpellingConverges`). Keyed on the user image's own id it ends up with the users table exactly
  when every event with another image is strictly older than the row (`ConvergenceExact.ConvergesExactly`).
- A group delete is stamped with the process clock and every other event with the database clock, so a
  receiver that prefers the newest event per group can bring a deleted group back
  (`GroupConvergence.DeletedComesBack`); `GroupConvergence.GroupsConvergeExactly` gives the exact condition.
- An operation with an unknown action is refused, unless it names a registered extended attribute, where
  it is accepted and leaves every attribute as it was (`PatchSplit.SilentAccepted`).

## Model

| member | source | states |
|---|---|---|
| `Outbox.ClaimSize` | internal/store/outbox.go:197-207 | A claim takes exactly `limit` rows, or all due rows when fewer, and they are the earliest in (next_attempt_at, id) order |
| `Outbox.ClaimedExactly` | internal/store/outbox.go:197-207 | A row is claimed if and only if it is pending, its time has come, and fewer than `limit` pending rows sort before it by time and then id |
| `Outbox.LeasedExactly` | internal/store/outbox.go:197-207 | A claim adds one attempt and the lease to the rows it takes, and changes nothing else of them or of any other row |
| `Outbox.DeliveryTable.Enqueue` | internal/store/outbox.go:109-132 | A new row is pending, due at once and unattempted, under an id not used before |
| `Outbox.DeliveryTable.ClaimDueDeliveries` | internal/store/outbox.go:192-220 | Leases exactly the claimable rows, counts the attempt and moves next_attempt_at past the lease; hands out each once, with its new attempt count; a limit of zero or less claims nothing |
| `Outbox.DeliveryTable.SelectDue` | internal/store/outbox.go:200-206 | The sub-select lists the claimable ids without repetition |
| `Outbox.DeliveryTable.MarkDelivered` | internal/store/outbox.go:227-233 | Delivered only from pending; otherwise nothing changes and the write reports no row |
| `Outbox.DeliveryTable.RescheduleDelivery` | internal/store/outbox.go:238-244 | Moves only a pending row's next attempt |
| `Outbox.DeliveryTable.DeadLetterDelivery` | internal/store/outbox.go:250-255 | Parks only a pending row |
| `Outbox.DeliveryTable.ReplayDeadLetter` | internal/store/outbox.go:346-376 | Requeues only a parked row, with its attempts back at zero, and logs the action exactly then |
| `Outbox.DeliveryTable.PurgeDeliveredBefore` | internal/store/outbox.go:280-288 | Deletes exactly the delivered rows older than the cutoff and counts them |
| `Backoff.BackoffExact` | internal/webhook/dispatcher.go:378-386 | For positive 64-bit durations, every retry waits min(base*2^(n-1), cap) plus its jitter if and only if the doubling that passes the cap, and the cap with its jitter, fit in 64 bits |
| `Backoff.BackoffExactUpTo` | internal/webhook/dispatcher.go:283-302 | The same for attempts 1 to n only, n being MaxAttempts - 1 where a dispatcher reschedules: exactly when the doublings and jitters of those attempts fit |
| `Backoff.FitsThenUpTo` | internal/webhook/dispatcher.go:378-386 | What fits for any number of attempts fits for each |
| `Backoff.SmallCapFits` | internal/webhook/dispatcher.go:378-386 | Any cap up to 2^62 meets that condition |
| `Backoff.LargeCapOverflows` | internal/webhook/dispatcher.go:375-385 | A concrete larger cap whose doubling wraps to a negative wait, from which the jitter draw has nothing to choose and panics |
| `Backoff.AlwaysDrawable` | internal/webhook/dispatcher.go:385-385 | Under the condition there is always a jitter to draw |
| `Backoff.WaitMonotone` | internal/webhook/dispatcher.go:378-386 | The lower bound of the wait never shrinks with the attempt number |
| `Backoff.TotalWait` | internal/webhook/dispatcher.go:283-302 | All waits before parking add up to between the sum of the lower bounds and six fifths of it |
| `Backoff.Compute` | internal/webhook/dispatcher.go:378-386 | The 64-bit loop computes that schedule, and no intermediate value wraps when the condition holds |
| `Dispatch.New` | internal/webhook/dispatcher.go:158-183 | Every setting that is missing or not positive gets its own default, and each usable one is kept |
| `Dispatch.Dispatcher.Attempt` | internal/webhook/dispatcher.go:274-342 | One post takes a pending row to delivered for a status of 200 to 299; leaves it pending until after the backoff for 408, 429, 500 and up or no answer while attempts remain; parks it otherwise; and touches nothing else |
| `Dispatch.Dispatcher.Drain` | internal/webhook/dispatcher.go:254-269 | One poll leases the claimable rows and then settles them one after another up to the cancellation |
| `Dispatch.Dispatcher.PostAll` | internal/webhook/dispatcher.go:260-267 | The batch is settled in claim order |
| `DispatchSafety.Conservation` | internal/store/outbox.go:222-288 | In every state of every run, rows and purged ids together are exactly what was queued, payloads unchanged, and a delivered or purged row was answered with a status of 200 to 299, under its own id and payload, at an earlier step of the run |
| `DispatchSafety.AckedExactly` | internal/webhook/dispatcher.go:333-342 | What the protocol counts as acknowledged is exactly what was answered so |
| `DispatchReplies.ReportByReply` | internal/webhook/dispatcher.go:274-342 | Every outcome written in a run goes back to the reply of that very post, and puts a pending row where the status says: delivered, retried after its backoff, or parked |
| `DispatchReplies.RetryWindow` | internal/webhook/dispatcher.go:296-302 | A retry waits between min(base*2^(n-1), cap) and six fifths of it after the reply, where the arithmetic fits in 64 bits |
| `DispatchReplies.BatchExactly` | internal/webhook/dispatcher.go:254-303 | Working through a batch puts each of its rows where its own reply says, and touches no row outside it |
| `DispatchReplies.RowsExactly` | internal/store/outbox.go:109-376 | What every other step does to the table: queueing, claiming with its lease of Poll plus a Timeout per row of the batch, replaying, purging; the rest nothing |
| `DispatchSafety.MovesOnly` | internal/store/outbox.go:222-376 | The only moves between pending, delivered, parked and purged, and for each the step that makes it: 2xx report, final failure report, replay, sweep past the cutoff |
| `DispatchSafety.NothingLost` | internal/store/outbox.go:222-288 | Over a run a queued event keeps its payload and is always in exactly one place; delivered never reverts |
| `DispatchSafety.ReplaysAccountForLeavings` | internal/store/outbox.go:346-376 | An id leaves dead_letter exactly as many times as its replay was logged, late reports included |
| `DispatchLease.MutualExclusion` | internal/webhook/dispatcher.go:185-200 | If a send takes at most Timeout and a batch's overhead stays under Poll, no delivery is in flight at two dispatchers, nor twice at one, in any state of any run |
| `DispatchLease.NoReclaim` | internal/webhook/dispatcher.go:185-200 | Under the same timing no claim takes a row between its claim and its holder's outcome |
| `DispatchLease.LatenessBreaksExclusion` | internal/store/outbox.go:222-226 | Without the timing it fails: a run, for every configuration, in which two dispatchers hold one row |
| `DispatchTight.LeaseIsTight` | internal/webhook/dispatcher.go:185-200 | The bound is tight: full batches, sends of exactly Timeout and an overhead of exactly Poll already let two dispatchers hold one row, for every configuration |
| `DispatchLease.LeasedAlways` | internal/webhook/dispatcher.go:198-200 | The invariant behind both: every queued row's lease ends after the latest moment its holder can still be working |
| `DispatchBudget.AccountedAlways` | internal/webhook/dispatcher.go:283-302 | Every claim of a pending row since its last replay is written back, lost or in flight; a failure is written back as a retry only below MaxAttempts |
| `DispatchBudget.AttemptBudget` | internal/store/outbox.go:197-207 | In every reachable state a pending row's attempts are at most MaxAttempts - 1 plus its claims whose outcome is lost or open |
| `DispatchBudget.BudgetWithoutLoss` | internal/webhook/dispatcher.go:283-302 | With punctual dispatchers and no lost outcome a row never exceeds MaxAttempts claims, and waits for another only while below it |
| `DispatchBudget.LeavesQueueExactly` | internal/webhook/dispatcher.go:274-303 | A pending row leaves pending exactly when an outcome of it is written that is a 2xx, a permanent failure, or any failure of a claim at MaxAttempts |
| `DispatchBudget.LastClaimLeavesQueue` | internal/webhook/dispatcher.go:290-294 | So any recorded outcome of a claim at the limit takes the row out of pending |
| `DispatchBudget.CrashLoopNeverParks` | internal/store/outbox.go:189-191 | A delivery that kills its dispatcher in the middle of every send is still pending and due after any number of attempts |
| `DispatchProgress.AheadShrinks` | internal/store/outbox.go:197-207 | Once a row is overdue no step adds a row ahead of it, provided retry times are not already past when written |
| `DispatchProgress.ClaimWorksOff` | internal/store/outbox.go:197-207 | A claim that passes an overdue row by removes exactly one batch from ahead of it |
| `DispatchProgress.ClaimedInTime` | internal/store/outbox.go:192-220 | With punctual dispatchers that poll often enough, a row that is overdue anywhere in a run is claimed within rank/batch + 1 further claims |
| `DispatchProgress.TouchedInTime` | internal/store/outbox.go:192-220 | However late the dispatchers, as long as retry times are prompt, an overdue row is claimed or reached by a late outcome within as many claims |
| `DispatchProgress.PunctualIsPrompt` | internal/webhook/dispatcher.go:296-302 | Punctual dispatchers whose poll interval is at most an instant above the least delay of a retry, or that never retry, always write retry times still to come |
| `DispatchOvertake.OvertakenExactly` | internal/webhook/dispatcher.go:296-302 | With punctual dispatchers no overdue row is ever overtaken, if and only if they poll that often |
| `DispatchOvertake.SlowPollRun` | internal/webhook/dispatcher.go:296-302 | A punctual run in which one is overtaken, for every configuration that polls more slowly |
| `DispatchProgress.LateRetryJumps` | internal/webhook/dispatcher.go:296-302 | A retry time written late gets ahead of an overdue row exactly when it sorts before it |
| `DispatchOvertake.LateRetryRun` | internal/webhook/dispatcher.go:296-302 | A run with a late dispatcher in which that happens, for every configuration that retries and backs off for less than its lease |
| `Database.PgStore.CreateUser` | internal/store/user.go:153-186 | The method is the atomic transaction: row, audit entry and event together, a duplicate userName refused, an externalId clash a plain error |
| `Database.PgStore.UpdateUser` | internal/store/user.go:256-307 | Likewise for a full replace, with both images |
| `Database.PgStore.DeactivateUser` | internal/store/user.go:312-349 | Likewise for the soft delete; the row stays |
| `Database.PgStore.CreateGroup` | internal/store/group.go:204-249 | Likewise, membership included |
| `Database.PgStore.UpdateGroup` | internal/store/group.go:321-374 | Likewise; before and after images carry the member lists |
| `Database.PgStore.DeleteGroup` | internal/store/group.go:383-414 | Likewise; memberships go with the group and there is no after image |
| `Database.PgStore.ReplaceMembers` | internal/store/group.go:141-165 | Deletes and re-inserts one group's rows when the count matches, and otherwise reports an invalid member |
| `Database.PgStore.FetchMembers` | internal/store/group.go:76-95 | A group's member ids in (added_at, user_id) order |
| `Database.PgStore.InsertAudit` | internal/store/audit.go:80-103 | Appends one success entry with both images |
| `Database.PgStore.AuditRefusal` | internal/store/audit.go:108-113 | Best effort: appends a refusal without images, or nothing when the write fails or the id is not a uuid |
| `Database.PgStore.EnqueueChange` | internal/store/outbox.go:109-132 | Queues the event with the after image's updated_at, only when change events are on |
| `Store.DecisionShape` | internal/store/user.go:256-349 | Which rows a successful request may write, that they are the caller's own, and which images and target it records |
| `StoreExact.CreateUserExactly` | internal/store/user.go:153-186 | When a create is carried out, refused or failed; carried out, every column is the caller's, every other row is as it was, and entry and event carry the image |
| `StoreExact.UpdateUserExactly` | internal/store/user.go:256-307 | The same for a replace: id, creation time and tenant stay, every other column is the caller's |
| `StoreExact.DeactivateUserExactly` | internal/store/user.go:312-349 | The same for a soft delete: active is false, updated_at moves, and every other column and every other row stay |
| `StoreExact.CreateGroupExactly` | internal/store/group.go:204-249 | The same for a group: the row as given, and as members exactly the users its ids name, joined now |
| `StoreExact.UpdateGroupExactly` | internal/store/group.go:321-374 | The same for its replace: id, creation time and tenant stay, the membership starts afresh, both images list members by join time and id |
| `StoreExact.DeleteGroupExactly` | internal/store/group.go:383-414 | The same for its delete: the row and its memberships go, nothing else does, and the event carries the process clock |
| `Uniqueness.UniqueAlways` | migrations/000005_multi_tenancy.up.sql:42-51 | In every reachable state no two users and no two groups of a tenant share a name in any casing, or an external id |
| `Uniqueness.StoredGroupFree` | migrations/000007_create_groups.up.sql:13-20 | A stored group clashes with no other, so replacing it by itself is never refused for its names |
| `History.AuditIsCompleteHistory` | internal/store/audit.go:80-103 | After any run of transactions, replaying the successful entries rebuilds every user and every group with its members, and each entry starts from its target's previous after image; no before on create, no after on delete |
| `History.CompleteStep` | internal/store/group.go:321-374 | One transaction keeps the log complete |
| `History.RebuildFindsLast` | internal/store/audit.go:80-103 | The replayed history holds, per target, exactly the last after image |
| `History.OutboxMirrorsAudit` | internal/store/outbox.go:109-177 | With change events on, successful entries and queued events correspond one to one in order, with the same tenant, target and images and a type fixed by them |
| `History.NoChangeUnlessSuccess` | internal/store/user.go:280-307 | A refused or failed mutation changes no row and queues nothing; a failure leaves no trace at all, a refusal at most one denied entry |
| `History.EventTypes` | internal/store/outbox.go:52-57 | The event type by call and active transition: a replace that deactivates is a deactivation, and so is every DELETE |
| `Convergence.ReceiverConverges` | docs/ARCHITECTURE.md:384-388 | When every event with another image than its user's row is strictly older than the row, every order and repetition of the queued events, newest kept per user, gives exactly the users table |
| `ConvergenceExact.ConvergesExactly` | docs/ARCHITECTURE.md:384-388 | After any run, with any clock, that condition is also necessary: convergence in every order if and only if it holds |
| `ConvergenceExact.ClockTieDiverges` | internal/store/user.go:312-349 | Two changes of one user within one clock reading are a run in which it fails |
| `Convergence.StrictClockIsFresh` | internal/store/user.go:256-349 | A clock that moves between two changes of one user meets the condition |
| `Convergence.RootsAlways` | internal/store/outbox.go:109-132 | Whatever the clock does, every queued user event carries a version of a stored user under that user's id, and every row as it stands was announced |
| `Convergence.VersionsAlways` | internal/store/user.go:153-349 | With strictly increasing updated_at per user, no event is newer than its row, and an equally new one carries the row |
| `Convergence.SpellingConverges` | internal/store/outbox.go:109-132 | Under the same condition, a receiver that keys on the event's userId converges if and only if every event spells the id as the database prints it |
| `Convergence.CanonicalCallers` | internal/store/user.go:256-349 | Callers that spell ids canonically are enough for that |
| `Convergence.OtherSpellingDiverges` | internal/store/user.go:312-349 | A deactivation under another spelling leaves such a receiver with an active user, for every codec with two spellings |
| `EndToEnd.DrainedMeansConverged` | docs/ARCHITECTURE.md:384-388 | Store, outbox, dispatchers and receiver together: once nothing is pending or parked, whatever crashed, was lost or was posted twice on the way, the receiver holds exactly the users table |
| `EndToEnd.DrainedGroupsConverged` | docs/ARCHITECTURE.md:384-388 | The same for groups and their deletes, wherever the clocks decide every group |
| `EndToEnd.NumberedAlways` | internal/store/outbox.go:109-132 | Delivery ids number the queued events in order, and only a queued event is ever acknowledged |
| `GroupConvergence.GroupsConvergeExactly` | internal/store/outbox.go:149-177 | After any run, with any clocks, a receiver that keeps the newest event per group ends up with the groups as they are, in every order, if and only if each announced group has an event that tells it as it is, or gone, strictly newer than all that tell otherwise |
| `GroupConvergence.AnnouncedAlways` | internal/store/outbox.go:149-177 | In every reachable state each group as it stands, members included, was announced |
| `GroupConvergence.GroupsClockedDecides` | internal/store/outbox.go:149-177 | Enough for that: replaces move the database clock on, deletes find the process clock ahead of the row, and no group id is drawn twice |
| `GroupConvergence.DeletedComesBack` | internal/store/outbox.go:149-177 | A run that breaks it: a process clock at or behind the database's, for every such clock and every memberless group |
| `Isolation.ConsistentAlways` | internal/store/group.go:141-165 | In every reachable state each membership row agrees with its group and its user on the tenant |
| `Isolation.NoInterference` | internal/store/user.go:191-349 | An operation of one tenant leaves every other tenant's rows, audit entries and deliveries unchanged |
| `Isolation.NonInterference` | internal/store/group.go:76-165 | Two databases that agree on a tenant's data give its operation the same answer and the same data afterwards, although members are read by group id alone |
| `Isolation.TransactLocal` | internal/store/group.go:321-374 | An operation next to other tenants' rows is the same operation without them, unless a create draws an id another tenant holds |
| `Isolation.AnswerLocalExactly` | internal/store/group.go:204-249 | The exact condition: the answer is the one the tenant's own data gives if and only if the drawn id is not another tenant's, or the operation fails anyway |
| `Isolation.OtherTenantsInvisible` | internal/store/user.go:191-349 | A tenant's part after any run of transactions is what its own transactions alone would have produced |
| `Isolation.UserListingLocal` | internal/store/user.go:56-70 | A user listing depends on the tenant's own rows only |
| `Isolation.GroupListingLocal` | internal/store/group.go:274-315 | So does a group listing with its batched members |
| `Membership.DedupeContents` | internal/store/group.go:167-178 | What is left is each non-empty id once, and nothing is left out |
| `Membership.DedupeNonEmpty` | internal/store/group.go:167-178 | The loop with its seen map computes that |
| `Membership.AcceptsExactly` | internal/store/group.go:141-165 | The row-count comparison accepts exactly when every non-empty id names a user of this tenant and different ids name different users; the users named are what is stored |
| `Membership.ReadsAllMembers` | internal/store/group.go:76-95 | Reading a group's members finds every member row of the group and nothing else |
| `Membership.StoredMembers` | internal/store/group.go:141-165 | Reading the members back gives exactly the stored users, each once, in increasing order |
| `Scim.MapperNormalises` | internal/scim/mapper.go:11-26 | Whatever a client sends, the row written has a trimmed userName and optionals that are absent or trimmed and non-empty |
| `Scim.MapperRoundTrip` | internal/scim/mapper.go:11-60 | Reading a normalised row as a resource and mapping it back changes no column |
| `Scim.FindPrimaryEmail` | internal/scim/mapper.go:62-72 | The first primary address, else the first address, else nothing |
| `Text.TrimExactly` | internal/scim/mapper.go:11-26 | Trimming takes white space off both ends, all of it and nothing else |
| `Text.LowerExactly` | internal/scim/extended.go:36-39 | Two names fold alike if and only if they differ in the case of letters only |
| `ScimExact.MapsExactly` | internal/scim/mapper.go:11-26 | Every column the mapper writes: the trimmed text of its own attribute or nothing when that is empty, active unless said otherwise, the primary address |
| `ScimExact.PrimaryExactly` | internal/scim/mapper.go:62-72 | The address kept is the first one marked primary, else the first, trimmed |
| `ScimExact.BoolDecodes` | internal/scim/models.go:29-39 | Exactly which JSON values read as true and as false |
| `ScimExact.NameDecodes` | internal/scim/models.go:65-68 | Given and family name are the last strings under those keys in any casing; anything but text or null there is an error |
| `ScimExact.EmailDecodes` | internal/scim/models.go:70-73 | Likewise an address and its primary flag |
| `ScimExact.ValidExactly` | internal/scim/handler.go:573-602 | What a user must satisfy to be stored |
| `Patch.ApplyPatch` | internal/scim/patch.go:40-63 | The loop is the left fold of the operations, and fails at the first that fails or on an empty list |
| `PatchExact.SetPathExactly` | internal/scim/patch.go:87-127 | By the path itself, in any casing: assigning under each of the attribute names changes exactly that field to the decoded value, a value that does not decode is an invalid value, and every other path an invalid path |
| `PatchExact.ClearPathExactly` | internal/scim/patch.go:154-180 | Likewise for a removal |
| `PatchExact.EmailPathExactly` | internal/scim/patch.go:34-34 | The address paths are emails, with or without one filter in brackets and .value behind |
| `PatchExact.AddressDecodes` | internal/scim/patch.go:131-152 | A bare string, an object that holds an address, or the primary one of a non-empty array |
| `PatchExact.OperationExactly` | internal/scim/patch.go:40-85 | add and replace assign, remove clears, in any casing; anything else is refused |
| `PatchExact.ListExactly` | internal/scim/patch.go:40-63 | A list is its operations one after another up to the first failure; an empty list is refused |
| `PatchExact.NamesExactly` | internal/scim/patch.go:67-127 | The columns an operation names, in every result about them, are those its path or the keys of its object spell |
| `Patch.SetAttributes` | internal/scim/patch.go:67-85 | The loop over a pathless object assigns its attributes one by one |
| `Patch.VisitingOrderIrrelevant` | internal/scim/patch.go:75-80 | When no two keys name the same field, every visiting order gives the same record, or all fail |
| `PatchSplit.SplitExtendedOps` | internal/scim/extended.go:146-197 | The loop yields the core and the extended operations in order, cutting pathless objects key by key |
| `PatchSplit.ApplyExtendedOps` | internal/scim/extended.go:203-228 | The loop folds the extended operations onto the blob |
| `PatchSplit.SplitPreservesMeaning` | internal/scim/extended.go:146-228 | For every list, registry and record the split gives the record or failure of applying the operations one by one, if and only if the list does not vanish in the split and no unknown action on a registered attribute goes unnoticed |
| `PatchSplit.SplitSameError` | internal/scim/handler.go:255-287 | Away from those two cases the error is the same too |
| `PatchSplit.SilentAccepted` | internal/scim/extended.go:214-221 | The second case, concretely: an unknown action on a registered attribute is answered with success |
| `PatchSplit.VanishingRefused` | internal/scim/handler.go:268-277 | The first case, concretely: adding an empty object changes nothing and is refused as an empty list |
| `PatchExact.VanishesExactly` | internal/scim/extended.go:163-194 | A list vanishes in the split if and only if some attribute is registered and every operation adds or replaces an empty object, or null, without a path |
| `PatchExact.MuteExactly` | internal/scim/extended.go:154-161 | An action goes unread if and only if it is none of add, replace and remove and its path spells a registered attribute |
| `PatchExact.ReferenceExactly` | internal/scim/extended.go:203-228 | What one operation of the reference does: a registered path sets or takes out that attribute, everything else is a core operation |
| `PatchFrame.PatchKeepsTheRest` | internal/scim/handler.go:236-305 | Through read, fold, validation, mapping and replace, every column and extended key that no operation names keeps its value, and the row stays normalised |
| `PatchExact.ReplaceIsStored` | internal/scim/patch.go:87-127 | In any list and under any registry, what an operation assigns under userName, externalId, active, name, its two parts or emails, and no later one mentions, is what that column holds, trimmed, or nothing when that is empty |
| `PatchExact.RemoveIsStored` | internal/scim/patch.go:154-180 | Likewise a column that is removed and not mentioned again is absent, and active is true |
| `PatchExact.ExtendedIsStored` | internal/scim/extended.go:203-228 | What the last operation on a registered attribute assigns is stored as it is, and what it removes is gone |
| `PatchExact.ExtendedFieldIsStored` | internal/scim/extended.go:178-197 | So is what a key of an object without a path assigns to one |
| `PatchExact.NamesKeyExactly` | internal/scim/extended.go:146-197 | The extended attributes an operation names are those its path or the keys of its object spell in some casing |
| `PatchExact.PatchRowExactly` | internal/scim/handler.go:255-305 | The row is written when the operations apply and leave a valid user, and is then what that maps to |
| `Attributes.AttributeTable.Register` | internal/store/attribute.go:39-74 | Reserved names in any casing and duplicates change nothing; otherwise the trimmed name is added with its admin entry |
| `Attributes.AttributeTable.Unregister` | internal/store/attribute.go:81-106 | Removes exactly the trimmed name, with its admin entry, or reports it missing |
| `Attributes.RegisteredAttributes` | internal/scim/extended.go:22-40 | The lookup maps each lower-cased registered name to one registered spelling of it |
| `Attributes.LookupLast` | internal/scim/extended.go:36-39 | Of registered names that differ in case only, the later listed one is used |
| `Attributes.CaptureExtended` | internal/scim/extended.go:46-67 | The loop computes the blob captured from a body |
| `Attributes.CapturedNames` | internal/scim/extended.go:46-67 | A name is captured if and only if some key of the body spells it in some casing, in any visiting order |
| `Attributes.CapturedValue` | internal/scim/extended.go:46-67 | The captured value is that of the last visited key that spells the name |
| `Attributes.CapturesRegistered` | internal/scim/extended.go:46-67 | Only registered names are captured |
| `Attributes.AddSchemaUrn` | internal/scim/extended.go:117-131 | Appends the extension unless it is declared already |
| `Attributes.ShapeUser` | internal/scim/extended.go:75-112 | In any visiting order, core attributes keep their values, every other stored key appears, and schemas declares the core schema and each shown extension exactly once |
| `Service.SoundAlways` | internal/scim/handler.go:101-305 | In every state reachable by registering, unregistering, creating, replacing, patching and deleting, every user and group row is normalised and no blob holds a reserved name in any casing |
| `Service.PatchFrameAlways` | internal/scim/handler.go:225-305 | In every reachable state a PATCH changes no row, or one row in which everything unnamed keeps its stored value |
| `Service.GroupFrameAlways` | internal/scim/handler.go:409-449 | In every reachable state a PATCH of a group changes no row, or keeps name, external id and members, each unless an operation names it |
| `Service.GroupPatchServed` | internal/scim/handler.go:409-449 | What the handler does to the database is the PATCH those results are about |
| `Service.CoreNeverShadowed` | internal/scim/extended.go:69-74 | In every reachable state no stored extended key collides with a core attribute of a response, in any casing |
| `Service.RequestsAreTransactions` | internal/scim/handler.go:63-99 | Every run of requests is a run of store transactions, so what holds after every run of those holds after it |
| `ServiceExact.PostUserExactly` | internal/scim/handler.go:101-128 | A valid user whose name and external id are free is stored column by column as sent, registered attributes included; otherwise no row changes |
| `ServiceExact.PutUserExactly` | internal/scim/handler.go:177-215 | Likewise a replace, which a body naming another id than the path does not get to |
| `ServiceExact.PatchUserExactly` | internal/scim/handler.go:225-305 | A PATCH stores what its operations make of the stored columns, or changes no row |
| `ServiceExact.PostGroupExactly` | internal/scim/handler.go:323-339 | A valid group is stored with the trimmed name, external id and members that were sent; otherwise no row changes |
| `ServiceExact.PutGroupExactly` | internal/scim/handler.go:382-407 | Likewise its replace |
| `ServiceExact.DeleteUserExactly` | internal/scim/handler.go:308-321 | A DELETE makes the user inactive and moves its time, or changes no row |
| `ServiceExact.DeleteGroupServed` | internal/scim/handler.go:453-467 | A DELETE takes the group with its memberships, or changes no row |
| `ServiceExact.NamesServed` | internal/store/attribute.go:39-106 | The registry changes by registering a name that is no core attribute, by unregistering, and in no other way |
| `ServiceExact.RegistryExactly` | internal/scim/extended.go:22-40 | A key is looked up if and only if the feature is on and some registered name of the tenant folds to it |
| `ServiceExact.ValidGroupExactly` | internal/scim/handler.go:627-641 | What a group must satisfy to be stored |
| `RequestIsolation.TranslateLocal` | internal/scim/handler.go:225-305 | Which transaction a request leads to, reads before the write included, depends on the tenant's own data only |
| `RequestIsolation.OtherRequestsInvisible` | internal/scim/handler.go:63-99 | A tenant's rows, audit log, deliveries and registry after any run of requests are what its own requests alone would have produced |
| `RequestIsolation.OwnIsRun` | internal/scim/handler.go:63-99 | Those requests alone are a run |
| `GroupPatch.ArrayDecodes` | internal/scim/patch.go:306-329 | An array of members is accepted if and only if it is not empty and every item is a member object or null |
| `GroupPatch.BareIdsRefused` | internal/scim/patch.go:306-329 | So the empty array and any array that holds a bare id are refused |
| `GroupPatch.SetGroupAttribute` | internal/scim/patch.go:248-290 | One attribute assigned, members by union or overwrite |
| `GroupPatch.ClearGroupAttribute` | internal/scim/patch.go:334-354 | One attribute cleared, or one filtered member taken out |
| `GroupPatch.AddMembers` | internal/scim/patch.go:276-289 | The loop with its seen map gives the union, keeping order |
| `GroupPatch.RemoveMember` | internal/scim/patch.go:364-372 | The loop gives the difference |
| `GroupPatch.ApplyGroupPatch` | internal/scim/patch.go:204-246 | The loop is the left fold of the operations |
| `GroupPatchExact.SetGroupPathExactly` | internal/scim/patch.go:248-290 | By the path itself, in any casing: displayName, externalId and members, bare or filtered, change exactly that attribute; add appends each new id once, replace overwrites; every other path is refused |
| `GroupPatchExact.ClearGroupPathExactly` | internal/scim/patch.go:334-354 | Likewise for a removal; a filter takes out that id and no other |
| `GroupPatchExact.FilterExactly` | internal/scim/patch.go:196-199 | An id is read from a path if and only if the path is a filter on it: keywords in any casing, white space, optional quotes, the longest id without a quote or closing bracket |
| `GroupPatchExact.MembersPathExactly` | internal/scim/patch.go:194-194 | The member paths are members, with or without one filter in brackets |
| `GroupPatchExact.MemberDecodes` | internal/scim/models.go:103-107 | A member is the last string under value; its other two fields must be text as well |
| `GroupPatchExact.MemberValuesExactly` | internal/scim/patch.go:306-329 | The ids of a member value in each of its forms, never an empty one |
| `GroupPatchExact.GroupOperationExactly` | internal/scim/patch.go:204-246 | The verbs, in any casing; anything else is refused |
| `GroupPatchExact.GroupReplaceIsStored` | internal/scim/patch.go:248-255 | In any list that is carried out, the last name or external id assigned is stored trimmed |
| `GroupPatchExact.GroupRemoveIsStored` | internal/scim/patch.go:340-341 | And an external id that is removed and not assigned again is absent |
| `GroupPatchExact.TargetsExactly` | internal/scim/patch.go:217-262 | The attributes an operation names, in every result about them, are those its path or the keys of its object spell |
| `GroupPatch.FoldIsSetAlgebra` | internal/scim/patch.go:204-290 | The ids left by any list are the old ids through union (add), overwrite (replace) and difference (remove), read off the operations alone |
| `GroupPatch.AddTwiceIsAddOnce` | internal/scim/patch.go:264-290 | Repeating an add of members changes nothing, not even the order |
| `GroupRequests.MapMembers` | internal/scim/mapper.go:84-95 | Ids are trimmed and empty ones dropped |
| `GroupRequests.GroupPatchRefinesSets` | internal/scim/handler.go:409-449 | A PATCH is carried out exactly when its operations apply, the names are free and the ids left name, once trimmed, distinct users of the tenant; the stored members are then those users, and otherwise no row changes |
| `GroupRequests.TakeOnUsers` | internal/scim/patch.go:264-372 | One effect on ids is the same effect on users if and only if no id that stays stands for the user of an id taken out |
| `GroupRequests.UnaliasedGroupPatch` | internal/scim/patch.go:204-372 | Where that holds at every removal of a list, the stored members are the set operations applied to the members themselves |
| `GroupRequests.GroupPatchKeepsTheRest` | internal/scim/patch.go:204-262 | Through read, fold, mapping and replace, what no operation names keeps its stored value |
| `GroupRequests.CanonicalGroupPatch` | internal/scim/patch.go:204-372 | Ids spelled as the server prints them are enough for it |
| `GroupRequests.RemoveExactly` | internal/scim/patch.go:364-372 | Removing one id takes its user out if and only if the id is spelled as the server prints it, or the user was no member |
| `GroupRequests.OtherSpellingStays` | internal/scim/patch.go:364-372 | Under another spelling a removal that is carried out leaves every member in place |
| `GroupRequests.RemovalIsCarried` | internal/scim/handler.go:409-449 | On a row the handler and the constraints keep, a removal by a filter on one id is always carried out, whoever the id stands for |
| `GroupRequests.OtherSpellingSucceeds` | internal/scim/patch.go:364-372 | So under another spelling it is answered with success and every member stays |
| `Service.OtherSpellingAlwaysStays` | internal/scim/patch.go:364-372 | In every reachable state such a request succeeds and removes nobody |
| `Service.HealthyAlways` | internal/scim/handler.go:627-641 | In every reachable state a group passes every check that writing it back unchanged would meet |
| `GroupRequests.RemoveOneId` | internal/scim/patch.go:334-362 | A removal with a filter on one id is a difference with that id |
| `GroupRequests.FilterReads` | internal/scim/patch.go:196-199 | An id written into a member filter is read back from it |
| `GroupRequests.OtherSpellingRefused` | internal/store/group.go:141-165 | Adding a member again under another spelling of its id is refused |
| `Listing.ListUsers` | internal/store/user.go:214-251 | One clamped window of the matching users and their total; a negative limit or offset is an error |
| `Listing.AnswerExactly` | internal/store/user.go:214-251 | A page is at most 200 rows from the offset on, with the total; a negative limit or offset is refused |
| `Listing.ListingIsExact` | internal/store/user.go:56-70 | The listing holds each of the tenant's rows that has the given name in some casing and the given external id, exactly once, in (created_at, id) order, and nothing else |
| `Listing.LookupAgreesWithCreate` | internal/store/user.go:42-52 | A lookup by userName is empty exactly when a create under that name would meet no clash |
| `Listing.PageParams` | internal/scim/handler.go:665-682 | startIndex is floored at 1 and count at 0; missing ones are 1 and the maximum page size |
| `Listing.WalkIsPrefix` | internal/scim/handler.go:144-175 | Pages of any sizes, each from after what the client holds, concatenate to a prefix of the listing as long as the clamped sizes |
| `Listing.EmptyPageIsTheEnd` | internal/scim/handler.go:665-682 | For a positive count a page is empty exactly past the end |
| `Listing.PagingIsExact` | internal/store/user.go:214-251 | Any positive counts, enough of them, give the whole listing |
| `Listing.GroupListingIsExact` | internal/store/group.go:274-299 | The group listing holds each matching group exactly once, with its own members, in (created_at, id) order, and nothing else |
| `Listing.GroupPagingIsExact` | internal/store/group.go:274-315 | Any positive counts, enough of them, give the whole group listing |
| `Listing.DealOut` | internal/store/group.go:117-127 | The batch is dealt out to its groups in order |
| `Listing.AttachMembers` | internal/store/group.go:100-133 | Every group on a page gets, in place, exactly what its own fetchMembers returns |
| `Listing.ListGroups` | internal/store/group.go:274-315 | One clamped window of the matching groups, each with its own members |
| `Cluster.MaxCluster` | internal/aria/aria.go:201-224 | The two pointers compute the same as walking back from every end |
| `Cluster.FirstMovesOn` | internal/aria/aria.go:212-215 | The left pointer never has to move back |
| `Cluster.ClusterIsDensest` | internal/aria/aria.go:198-224 | For every threshold, succeeds exactly when some closed interval of the window's length holds minCount times, and then reports the most any such interval holds, with bounds that hold that many, the first to end |
| `Cluster.SortForgetsOrder` | internal/aria/aria.go:206-208 | The order of the times does not matter |
| `Aria.Count` | internal/aria/aria.go:112-133 | The pass computes each caller's tally and the off-hours events |
| `Aria.TalliesAddUp` | internal/aria/aria.go:115-134 | The callers' totals add up to the number of entries |
| `Aria.Detect` | internal/aria/aria.go:97-187 | The report: totals, callers, and the flags by severity and then by busiest caller |
| `Aria.DetectForgetsOrder` | internal/aria/aria.go:94-96 | Kinds, callers, counts and windows of the flags are the same for every order of the entries |
| `Aria.ExamplesFor` | internal/aria/aria.go:226-238 | The loop collects the examples of a flag |
| `Aria.ExamplesAreFirst` | internal/aria/aria.go:226-238 | They are the first five rows of the caller that show the pattern, or all of them when there are fewer |
| `AriaExact.DenialsExactly` | internal/aria/aria.go:112-124 | A tally's denials are the number of the caller's refused rows |
| `AriaExact.RemovalTimesExactly` | internal/aria/aria.go:112-127 | Its removal times are those of the caller's deactivate and delete rows, as often as they occur |
| `AriaExact.DenialBurstExactly` | internal/aria/aria.go:156-165 | A denial burst is raised for a caller if and only if at least five of its rows were refused, and carries the number |
| `AriaExact.HighVolumeExactly` | internal/aria/aria.go:173-182 | High volume is raised if and only if a caller has at least fifty rows, and carries the number |
| `AriaExact.BulkExactly` | internal/aria/aria.go:144-155 | Bulk deactivation is raised if and only if some closed ten minutes hold five of the caller's removals; it carries the most any ten minutes hold, with the first bounds that hold that many |
| `AriaExact.OffHoursRaisedExactly` | internal/aria/aria.go:166-172 | The off-hours flag is raised once if and only if some row was written on a weekend, before seven or from seven in the evening on, and carries how many |
| `AriaExact.FlagsInOrder` | internal/aria/aria.go:136-182 | Flags read by severity, then by the caller with more rows, ties by name |
| `AriaExact.FlagExamples` | internal/aria/aria.go:226-246 | Each flag carries the first five rows it is about, reduced to seven fields, or all when there are fewer |
| `Numerals.IntRoundTrip` | internal/webhook/signer.go:48-51 | Printing and reading a 64-bit integer is the identity |
| `Numerals.HexRoundTrip` | internal/webhook/signer.go:121-124 | Encoding and decoding bytes as hexadecimal is the identity |
| `Numerals.IntReadExactly` | internal/webhook/signer.go:116-119 | A stamp is read if and only if it is digits with at most one sign, within 64 bits, and as what they stand for |
| `Numerals.IntPrintedExactly` | internal/webhook/signer.go:48-51 | Numbers are printed in decimal without a leading zero |
| `Numerals.HexReadExactly` | internal/webhook/signer.go:121-124 | A MAC is read if and only if it is pairs of hexadecimal digits in either case, and printing it gives them back in lower case |
| `Signer.Feed` | internal/webhook/signer.go:58-66 | The loop feeds the newline-ended fields and then the body |
| `Signer.ParseSignature` | internal/webhook/signer.go:97-127 | The loop over the parts and the checks after it |
| `Signer.ParseUndoesSign` | internal/webhook/signer.go:48-127 | Reading a signed header gives the exact stamp, time and MAC |
| `Signer.MaterialInjective` | internal/webhook/signer.go:53-66 | With newline-free events the signed material determines stamp, id, event and body |
| `Signer.NewlineCollides` | internal/webhook/signer.go:53-66 | An event with a newline always shares its material with another event and body |
| `Signer.VerifyAcceptsExactly` | internal/webhook/signer.go:77-95 | Under an ideal MAC a signed header is accepted exactly when id, event and body match and the clock is within tolerance, early or late, for every 64-bit tolerance |
| `SignerExact.VerdictExactly` | internal/webhook/signer.go:77-95 | For every header and 64-bit tolerance: malformed if no stamp and MAC can be read, stale if the stamp is out of tolerance, bad if the MAC is not that of stamp, id, event and body, accepted otherwise |
| `SignerExact.HeaderCarries` | internal/webhook/signer.go:97-111 | Every header carries one stamp and one MAC: what the last part of each name has behind its equals sign, or nothing |
| `SignerExact.ParsesExactly` | internal/webhook/signer.go:113-127 | A header is malformed if and only if one of the two is missing or empty, no 64-bit integer or no hexadecimal |
| `SignerExact.MissingFieldRefused` | internal/webhook/signer.go:113-115 | Without a stamp or a MAC a header is malformed, whatever else is sent |
| `SignerExact.OrdinaryWithin` | internal/webhook/signer.go:83-87 | The tolerance in nanoseconds, early or late alike |
| `SignerExact.SignExactly` | internal/webhook/signer.go:48-51 | The signed header, character by character |
| `Signer.RespelledStampFails` | internal/webhook/signer.go:89-94 | Writing the same time differently in a signed header makes it fail |

## Left out

- HTTP: routing, headers, TLS, redirects, status codes and body limits; a post is reduced to accepted, retryable or permanent failure.
- JSON bytes: the model starts from decoded values; numbers are integers.
- Regular expressions: the path patterns of PATCH are written out as recognisers; the `filter` query parameter starts from its parsed form.
- Unicode: case folding is on ASCII letters, white space on code points below U+0100; strings are counted in characters where the server counts bytes.
- SQL: query text, scanning, pools and isolation below whole transactions; unique indexes are checked in the order primary key, name, externalId.
- Concurrent PATCH of one resource: read, fold and write are one step, although the code documents a lost-update gap.
- The `last_error`, `event_type` header and `created_by` columns, log lines, and the caller's IP in an audit entry.
- The deliveries summary, pending and dead-letter listings, and audit listings: reads that decide nothing.
- HMAC and SHA-256: an uninterpreted function; where stated, assumed injective and never empty.
- Randomness: the jitter of a retry and the ids the database draws are parameters.
- Tokens, tenants, the console, CSRF, the rate limiter, discovery documents, the ARIA prompt and its language model: short, or input and output only.
- Time zones: the review's weekday and hour come from a parameter.
- Dispatch.Dispatcher.Drain: what each post meets is a function of the claimed delivery; the protocol in `Dispatch` covers crashes, late and lost writes and interleaving.
- Database.PgStore.CreateUser and the other mutations: a fault is met before the first statement; one met later is rolled back to the same state.
- Dispatch.New: leaves out RetentionInterval, which only paces the sweep; the sweep may happen at any time in the model.
- Cluster.MaxCluster: the window is not negative, as the server's ten minutes are; a negative one would run past the end of the slice.
