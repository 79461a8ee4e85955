# Verified model of the client cores of an issue tracker

The client of this workspace application keeps many views of the same server rows: boards and filtered lists
in per-status windows, an inbox, comment threads, a mobile timeline, task transcripts, recency lists. Each of
these is a small algorithm that has to agree with something simpler. This project models those algorithms in
Dafny and proves, for all inputs and all runs, that they do, or exactly when they do.

## How the model is laid out

| module | models |
|---|---|
| `IssueModel`, `CacheHelpers` | issues, partial issues, the bucketed list cache and the pure helpers that rewrite it |
| `Membership`, `Agreement` | the client's three-valued membership test against the server's WHERE clause; what it means for a list to agree with the server |
| `RulesTable`, `Echo`, `BucketInvariants` | the rules table for one loaded list: agree or stale, which lists are flagged, unclamped totals, exactly-once counting, structural invariants over any run |
| `WhatStays` | what a write leaves alone, by places: the other cards of every column, the other rows of every parent's children |
| `Coordinator`, `Mutations`, `WsUpdates` | the query client as an object: applying, rolling back, the optimistic single and batch updates, in-order delivery of server events over whole runs |
| `Lifecycle` | one optimistic update from its first write to the settled cache, with the response, echoes, other events and fetches in any order |
| `DateRanges` | lists whose key carries a date range: exactly which writes such a list misses, for one write, one event, whole runs and the own write |
| `Drift`, `ServerFlags`, `DriftExamples` | the cases in which a list falls out of step without being flagged, and exactly when; the flags the server computes and the moves they hide; a concrete run or cache for each case |
| `CommentThreads`, `TimelineRows`, `TimelineCoalesce` | thread collection, delete cascade, the folded mobile timeline, coalescing of activities |
| `Mentions`, `MentionRoundTrip`, `MentionInput` | the sentinel-marked mention format, its writer and reader, and the input that drives them |
| `Inbox`, `TaskMessages` | inbox deduplication; the convergent merge of message batches |
| `RolloutHash`, `CalendarDates` | FNV-1a bucketing in signed 32-bit arithmetic; date-only strings and civil-date order |
| `WorkspaceIdentity`, `ViewedIssues`, `RecentContexts`, `ExceptionFuse`, `ReconnectClient`, `PagedFetch` | the workspace microtask machine and its namespaced storage; two recency stores; the exception fuse; the reconnecting socket client; paged, united and chunked fetches |

Code that the sources write with loops and assignments is a method or a class here, proved against a function;
the properties are then lemmas about that function. Values that come from outside (the server's answers, the
clock, the browser's sockets and timers, failing storage) are parameters or events of a run.

The server side of agreement is a finite map of rows together with the list query of
`server/internal/handler/issue.go`. A list *agrees* when its loaded cards are distinct, current members in the
column of their status, and every column total is the exact number of members on the server. A list whose key carries
a date range agrees with the rows of that range (`Membership.InRange`); the coordinator does not read the range. Where a
row below does not mention a date range, it speaks of lists without one; `DateRanges` is about all of them.

## Where the code differs from its documentation

Each of these is a lemma with the exact condition and, where the condition alone does not show it, a concrete input.

- Date ranges. The last segment of a list key carries the order and the date range of the query
  (`packages/core/issues/queries.ts`:13-19); the server filters and counts by the range
  (`server/internal/handler/issue.go`:1238-1250), but the coordinator drops the segment
  (`packages/core/issues/cache-coordinator.ts`:81-91). A list by time of creation goes wrong exactly when an issue from
  outside its range is counted down (`DateRanges.CreatedRangeExactly`, `DriftExamples.CreatedRangeExample`), and then
  totals clamp as well (`DateRanges.RangeClampsExactly`). A list by time of update also misses every write that brings
  an issue into its range or takes one out (`DateRanges.RangeAgreesExactly`, `DriftExamples.EnteredRangeExample`,
  `DriftExamples.LeftRangeExample`), and is never flagged for it (`DateRanges.RangeFlagsExactly`).
- Unassigning. The server computes its assignee flag from fields that decode an explicit null like an absent field,
  so the flag is false for exactly the writes that unassign (`ServerFlags.FlagHidesExactlyUnassign`), and the card
  stays on the assignee's list unflagged (`ServerFlags.UnassignedCardStays`, `DriftExamples.UnassignedExample`).
- Moves between projects that come from the hierarchy. The project flag asks for `project_id` in the request, but a
  write of only `epic_id`, `parent_issue_id` or `issue_type` can move the project too (`ServerFlags.SingleFlagHidesExactly`);
  the flag of a batch also hides a cleared project (`ServerFlags.BatchFlagHidesExactly`). Project lists do not hear of
  such a move (`ServerFlags.HiddenMoveExactly`, `DriftExamples.JoinedEpicExample`).
- Events without flags and without a cached copy (`Drift.UnflaggedDeliveryExactly`, `DriftExamples.UnflaggedExample`),
  and events that a refetch has outrun (`Drift.LateDeliveryExactly`, `DriftExamples.LateExample`).
- A late response. The reconcile of the response is "authoritative", but HTTP and WebSocket are not ordered against
  each other: once a newer write to the row was delivered, the response puts the older row back wherever the cache
  sees it, and nothing is flagged (`Lifecycle.ResponseExactly`, `DriftExamples.LateResponseRun`).
- A server that stores other values than asked for. The reconcile is meant to be "the plain surgical patch"; lists that
  do not hold the row are then neither corrected nor flagged (`Lifecycle.CoercedWriteExactly`,
  `DriftExamples.CoercedExample`).
- Clamped totals. In the paginated columns of a list without a date range no total is ever clamped at zero (`RulesTable.NothingClamps`); the cancelled
  column, which is never fetched, is clamped as soon as a cancelled issue is reopened (`RulesTable.ReopenedClamps`).
- Names with spaces. One mention whose name is not a single word turns every link of the text into plain words
  (`MentionRoundTrip.RoundTripExactly`); markers are kept in insertion order, not text order
  (`MentionRoundTrip.InsertedInFront`).
- "One entry per Epic or work item". The result of a quick create and any other notification about the issue it created
  always make two inbox rows (`Inbox.SameTargetSameRowExactly`, `Inbox.CreatedIssueHasTwoRows`).
- Scheduled issues of a project. The client asks for pages of 500 and stops at a shorter one; the server cuts pages at
  100, so nothing past the first 100 arrives (`PagedFetch.HonestFetchIsCompleteExactly`,
  `PagedFetch.ThisServerStopsAtOnePage`).
- "Different fingerprints never affect each other" holds for the first 50 of a session
  (`ExceptionFuse.DroppedExactly`).
- Years 0 to 99 of a date-only string are read as 1900 to 1999 (`CalendarDates.PastIsRightExactly`).
- Inside one batch the message merge does not remove duplicates (`TaskMessages.MergeStrictExactly`).

Four more laws hold with an exact condition that no caller in the repository breaks:

- Epics. List queries return only work items and subtasks, but no rule of the table looks at the kind of an issue, so an
  epic that moved would take units from totals that never counted it (`RulesTable.AgreeOrStaleExactly`,
  `RulesTable.DecrementOutcome`). The handlers refuse to update an epic as an issue
  (`server/internal/handler/handler.go`:667-676) or in a batch (`server/internal/handler/issue.go`:3440-3458) and to turn
  an issue into one (`server/internal/handler/issue.go`:2767); epics have statuses of their own
  (`server/migrations/150_epic_planning_container.up.sql`:26-30), and `server/internal/handler/epic.go` announces them
  with events of their own.
- Empty filter lists. The client reads an empty `assignee_ids` as "matches nothing", while the API client never sends
  it (`Membership.NoIsWrongExactlyOnEmptyParts`). No query plan of `packages/core/issues/surface/query-plan.ts` builds an
  empty list.
- A batch with a repeated id. "First snapshot wins" holds for lists and the inbox, but details keep the last snapshot
  (`Mutations.BatchRollbackExactly`). The batch toolbar passes the elements of a `Set`
  (`packages/views/issues/components/batch-action-toolbar.tsx`:73).
- Colliding slugs. The namespaced storage separates two slugs unless one of them ends in a colon and the other
  (`WorkspaceIdentity.CollisionExactly`). Slugs hold lower-case letters, digits and single hyphens
  (`server/internal/handler/workspace.go`:21).

## Model

| member | source | states |
|---|---|---|
| `Membership.YesIsRight` | packages/core/issues/surface/membership.ts:85-132 | when the client judges a full issue a member, the server's filter holds of it, and a list query without a date range returns it exactly when it is not an epic |
| `Membership.NoIsWrongExactlyOnEmptyParts` | packages/core/api/client.ts:495-500 | for an issue the server lists, the client says "no member" exactly when some filter field is present but empty, because the request drops such fields |
| `Membership.UndecidableExactlyOnInvolves` | packages/core/issues/surface/membership.ts:85-132 | a full issue is undecidable exactly when the filter asks who is involved and the server's filter holds in every other part |
| `Membership.IndependentListsKeepMembership` | packages/core/issues/surface/membership.ts:57-83 | the filter of a list said not to depend on the changed dimensions keeps holding, or not holding, of the issue, for server and client alike; its date range is another matter |
| `Membership.MutationDimsCover` | packages/core/issues/surface/membership.ts:34-48 | the flags a mutation computes name every membership dimension that moves, with a fresh base or none |
| `Agreement.LoadedAtMostTotal` | packages/core/issues/mutations.ts:92-94 | agreement bounds every loaded window by its total, so "has more" is never asked of a negative rest |
| `Agreement.CountAfterChange` | server/internal/handler/issue.go:1000-1075 | without a date range, one changed row moves one unit of the server's count out of its old column and into its new one, and nothing else |
| `Agreement.CountAround` | server/internal/handler/issue.go:1000-1075 | with any date range: when one row comes into the counted rows, leaves them or changes, each count follows that row alone |
| `Agreement.PatchKeepsFresh` | packages/core/issues/cache-helpers.ts:126-169 | patching a loaded card leaves every column holding distinct, current rows of its status |
| `Agreement.RemoveKeepsFresh` | packages/core/issues/cache-helpers.ts:53-64 | removing a card leaves every column current |
| `WhatStays.RemoveLeavesOthers` | packages/core/issues/cache-helpers.ts:53-64 | a removal leaves, in every column, exactly the cards of other ids, unchanged and each at its old rank among them; the card itself is gone from its column |
| `WhatStays.PatchLeavesOthers` | packages/core/issues/cache-helpers.ts:126-169 | so does a patch, into whatever column and place it moves the card |
| `WhatStays.StillPatchKeepsPlaces` | packages/core/issues/cache-helpers.ts:136-147 | a patch that moves neither status nor position keeps every card of every column at its index, the written one merged |
| `WhatStays.MovedCardStandsByPosition` | packages/core/issues/cache-helpers.ts:112-169 | a card that changes its column or position stands behind all cards before it that are no further down, and right before one that is |
| `WhatStays.ReconcileLeavesOthers` | packages/core/issues/cache-coordinator.ts:106-208 | whatever the rules table does to a list, the cards of other ids stay unchanged, in their columns and in their order |
| `CacheHelpers.FindIssueLocation` | packages/core/issues/cache-helpers.ts:27-37 | the search returns a card with that id from a paginated column, and nothing exactly when no paginated column holds the id |
| `CacheHelpers.FoundFirst` | packages/core/issues/cache-helpers.ts:27-37 | what it returns is the first card with that id in the first paginated column that has one |
| `CacheHelpers.InsertMembers` | packages/core/issues/cache-helpers.ts:112-116 | an insertion adds exactly the card |
| `CacheHelpers.InsertSorted` | packages/core/issues/cache-helpers.ts:112-116 | an insertion by position keeps a sorted column sorted |
| `RulesTable.PatchedAgrees` | packages/core/issues/cache-coordinator.ts:131-154 | patching a loaded row keeps the list in agreement exactly when the row is still a member or has left the paginated columns |
| `RulesTable.RemovedAgrees` | packages/core/issues/cache-coordinator.ts:134-152 | removing a loaded row that stopped being a member keeps the list in agreement, and its total never clamps |
| `RulesTable.AbsentAgrees` | packages/core/issues/cache-coordinator.ts:156-207 | for a row beyond the window the list agrees afterwards exactly when its totals moved like the server's counts |
| `RulesTable.DecrementOutcome` | packages/core/issues/cache-coordinator.ts:194-202 | taking one unit for an unloaded row that left the filter of a list without a date range is right exactly unless the row was an epic the server never counted |
| `RulesTable.MoveOutcome` | packages/core/issues/cache-helpers.ts:66-90 | moving one unit for an unloaded member that changed its column keeps every total exact, so its decrement never clamps |
| `RulesTable.CountedIsPositive` | packages/core/issues/cache-helpers.ts:92-101 | a counted row makes its column's total positive, so no decrement clamps at zero |
| `RulesTable.AgreeOrStaleExactly` | packages/core/issues/cache-coordinator.ts:106-208 | without a date range: after any write to one row a list that agreed is flagged stale, or agrees with the server after the write, except exactly for the overlooked changes of epics, a condition on row, filter, flags and base copy; a list flagged because a known member changed its column beyond the loaded cards agrees as well |
| `RulesTable.AgreeOrStale` | packages/core/issues/cache-coordinator.ts:106-208 | for work items and subtasks, on lists without a date range: agree or stale, always |
| `RulesTable.TouchedExactly` | packages/core/issues/cache-coordinator.ts:126-208 | a list is written, and with that snapshotted, exactly when it shows the row, counts it down, or moves its unit between columns |
| `RulesTable.LoadedFlaggedExactly` | packages/core/issues/cache-coordinator.ts:131-154 | a list that shows the row is flagged exactly when the write touches its filter, the filter asks who is involved and holds in every other part; all else is settled without a refetch |
| `RulesTable.FlaggedExactly` | packages/core/issues/cache-coordinator.ts:106-208 | with a base copy, a decidable filter and no date range a list is flagged exactly when it does not show the row and the row arrives in it or changes its column |
| `RulesTable.DecidedAgreesExactly` | packages/core/issues/cache-coordinator.ts:106-208 | and then, flagged or not, it agrees with the server at once, exactly unless an unseen row arrives in one of its paginated columns |
| `RulesTable.NothingClamps` | packages/core/issues/cache-helpers.ts:53-104 | in every paginated column of a list without a date range a write moves the total by exactly the units that leave and enter, flagged or not: the clamp at zero is never met |
| `RulesTable.ReopenedClamps` | packages/core/issues/cache-helpers.ts:72-90 | a concrete reopened issue whose cancelled column is clamped at zero while the new column gains one |
| `DateRanges.RangeAgreesExactly` | packages/core/issues/cache-coordinator.ts:81-208 | for every date range: after a write to a work item a list that agreed is flagged, or agrees with the rows of its range exactly when the write is not one of four: a card that left the range and keeps its column, an unloaded counted row that left it, a row that entered it, a row from outside that is counted down |
| `DateRanges.CreatedRangeExactly` | packages/core/issues/cache-coordinator.ts:194-202 | for a range over the time of creation: wrong exactly when a row created outside it is counted down in a paginated column with a positive total |
| `DateRanges.RangeFlagsExactly` | packages/core/issues/cache-coordinator.ts:106-208 | a decidable list is flagged as if it had no range: entering or leaving the range never flags it |
| `DateRanges.RangeClampsExactly` | packages/core/issues/cache-helpers.ts:53-104 | a paginated total clamps at zero exactly when a row from outside the range is taken off an empty column |
| `DateRanges.DeliveryExactly` | packages/core/issues/ws-updaters.ts:85-113 | one delivered event flags a list with any range, or leaves it in agreement exactly when it is not missed |
| `DateRanges.RunExactly` | packages/core/issues/ws-updaters.ts:46-113 | over every run of in-order events, refetches and page loads a list is kept right or flagged throughout exactly when every event is flagged or not missed; without a range it always is |
| `DateRanges.OptimisticExactly` | packages/core/issues/mutations.ts:228-252 | the optimistic write flags a list with any range, or leaves it in agreement with the server to come exactly when it is not missed |
| `DateRanges.ReapplyKeepsKey` | packages/core/issues/mutations.ts:311-332 | a timely response or an echo keeps a list with any range as right as it was |
| `Echo.EchoIsCountedOnce` | packages/core/issues/mutations.ts:311-332 | applying the same change again, on the patched copy and with no more flags, leaves cards, order and totals as after the first time, for loaded, removed and unloaded rows |
| `BucketInvariants.PatchKeepsInvariant` | packages/core/issues/cache-helpers.ts:126-169 | a patch keeps each id at most once, each card in its own column, and loaded at most total |
| `BucketInvariants.RemoveKeepsInvariant` | packages/core/issues/cache-helpers.ts:53-64 | so does a removal |
| `BucketInvariants.AddKeepsInvariantExactly` | packages/core/issues/cache-helpers.ts:40-50 | an addition keeps it exactly when no other paginated column already holds the id, since it looks at one column only |
| `BucketInvariants.AddGoesBehind` | packages/core/issues/cache-helpers.ts:40-50 | an addition puts the card behind its column and counts it once, unless the column has the id; every other column stays |
| `BucketInvariants.InvariantOverRuns` | packages/core/issues/cache-helpers.ts:40-169 | every sequence of patches, removals and additions of ids not loaded elsewhere keeps it |
| `BucketInvariants.TotalsStayNonNegative` | packages/core/issues/cache-helpers.ts:40-169 | none of the five rewrites makes a total negative |
| `BucketInvariants.PatchKeepsColumnsSorted` | packages/core/issues/cache-helpers.ts:126-169 | a patch keeps position-sorted columns sorted, whatever column and position it moves the card to |
| `BucketInvariants.PatchConservesTotals` | packages/core/issues/cache-helpers.ts:126-169 | a patch conserves the sum of all totals, the cancelled column included |
| `Coordinator.RollbackRestores` | packages/core/issues/cache-coordinator.ts:232-250 | rolling a change back restores every list, the detail and the inbox to the state before it |
| `Coordinator.WalkIsApply` | packages/core/issues/cache-coordinator.ts:126-208 | the walk, which judges and overwrites the lists one after the other, does to each list what the table says of its state before the change, and reports every snapshot and every stale key |
| `Coordinator.OneSnapshotPerList` | packages/core/issues/cache-coordinator.ts:126-208 | no list is snapshotted twice by one change |
| `Coordinator.EntriesAreTheBucketedLists` | packages/core/issues/cache-coordinator.ts:94-104 | the walk meets every bucketed list once and no other cache |
| `Coordinator.BoardsComeFirst` | packages/core/issues/cache-coordinator.ts:94-104 | the walk meets the boards before the filtered lists, each kind in cache order |
| `Coordinator.FirstSeenIs` | packages/core/issues/cache-coordinator.ts:126-217 | the freshest earlier copy it reports is the base, else the card of the first list met that shows the issue |
| `Coordinator.InboxFollowsStatus` | packages/core/issues/cache-coordinator.ts:219-226 | exactly the inbox rows of the changed issue take a written status; every row keeps its place, id and issue, and a snapshot is taken exactly when a status is written |
| `Coordinator.QueryClient.ApplyIssueChange` | packages/core/issues/cache-coordinator.ts:106-228 | the whole new cache state, the snapshots, the stale keys, and the freshest earlier copy of the issue |
| `Coordinator.QueryClient.RollbackIssueChange` | packages/core/issues/cache-coordinator.ts:232-250 | writes back lists, detail and inbox from the snapshots, and nothing else |
| `Coordinator.QueryClient.InvalidateStaleListKeys` | packages/core/issues/cache-coordinator.ts:273-281 | marks every reported key stale, repeats included once |
| `Coordinator.QueryClient.ApplyThenFail` | packages/core/issues/cache-coordinator.ts:106-250 | a change that is applied and rolled back leaves no trace in the cache |
| `Mutations.UpdateRollbackRestores` | packages/core/issues/mutations.ts:222-310 | the failed single update restores everything, the parent's children included |
| `Mutations.OnMutateUpdate` | packages/core/issues/mutations.ts:228-299 | the optimistic write: lists, detail, inbox, and the children of the parent, found in the detail, the freshest card or the children caches in that order, with every snapshot and stale key in the context |
| `WhatStays.ChildrenAfterUpdate` | packages/core/issues/mutations.ts:276-299 | in the parent's children a written row is patched at its place and every other row stays; a re-parented row leaves, the others keeping their order; the children of every other parent stay as they are |
| `Mutations.UpdateThenFail` | packages/core/issues/mutations.ts:228-310 | optimistic update followed by failure is the identity on the cache |
| `Mutations.FirstSnapshotIsPristine` | packages/core/issues/mutations.ts:481-503 | over any list of ids the first snapshot per list is its state before the batch |
| `Mutations.BatchRollbackExactly` | packages/core/issues/mutations.ts:478-552 | a failed batch restores the whole cache exactly when no id given twice has a loaded detail the patch changes |
| `Mutations.DistinctBatchRollsBack` | packages/core/issues/mutations.ts:478-552 | for distinct ids the rollback is exact |
| `Mutations.OnMutateBatch` | packages/core/issues/mutations.ts:468-532 | the batch loop computes the state and the first-wins snapshots of `BatchRollbackExactly`, and reports every key some item made stale |
| `WhatStays.ChildrenAfterBatch` | packages/core/issues/mutations.ts:505-522 | in the children of every parent exactly the rows of the batch are patched, each at its place |
| `Mutations.BatchThenFail` | packages/core/issues/mutations.ts:468-552 | a batch of distinct ids that fails is the identity on the cache |
| `WsUpdates.WsDimsCover` | packages/core/issues/ws-updaters.ts:85-102 | truthful flags name every membership dimension that moved, when a flag is missing only for what did not move or where a cached copy is there to diff against |
| `WsUpdates.OnIssueUpdated` | packages/core/issues/ws-updaters.ts:46-113 | one delivery: the base copy, the flags, the application and the immediate invalidation |
| `WsUpdates.CachedIssueIs` | packages/core/issues/ws-updaters.ts:64-70 | the base copy is the detail, else the card of the first board, and of no other list |
| `WsUpdates.DeliveryStaysInStep` | packages/core/issues/ws-updaters.ts:85-113 | one delivery leaves every cached entity current and every exact list without a date range in agreement or stale |
| `WsUpdates.DeliveryFlagsExactly` | packages/core/issues/ws-updaters.ts:85-113 | with a cached copy one delivery flags, among the decidable lists in step that have no date range, exactly those that do not show the row while it arrives in them or changes its column |
| `WsUpdates.PageKeepsList` | packages/core/issues/mutations.ts:96-116 | loading one more page keeps a list current, and in agreement with the rows of its date range |
| `WsUpdates.PageExtends` | packages/core/issues/mutations.ts:107-117 | the old window is a front of the new column, which holds an id exactly when it was there or is in the page; what is added are the page's own rows of new ids; other columns stay |
| `WsUpdates.PagesFit` | packages/core/issues/mutations.ts:107-117 | a window that is the first n of the server's order and a page up to m, overlapping or not, make the first m |
| `WsUpdates.RunStaysInStep` | packages/core/issues/ws-updaters.ts:46-113 | over every run of in-order events, refetches and page loads every cached entity stays current and every exact list without a date range in agreement or stale; whenever nothing waits for a refetch, all of these agree with the server |
| `Lifecycle.OptimisticIsAhead` | packages/core/issues/mutations.ts:228-252 | the optimistic write puts entities and lists without a date range in step with the server that is still to come, up to the keys it keeps back |
| `Lifecycle.BatchIsAhead` | packages/core/issues/mutations.ts:468-532 | so does the optimistic batch, with the server that has all its writes |
| `Lifecycle.ReapplyKeepsAhead` | packages/core/issues/mutations.ts:311-332 | applying a change that server and cache already hold keeps the cache in step, with or without flags and base |
| `Lifecycle.RemoteKeepsAhead` | packages/core/issues/ws-updaters.ts:46-113 | an event, a refetch or a loaded page in between keeps them so, whatever keys are kept back |
| `Lifecycle.OwnWriteSettles` | packages/core/issues/mutations.ts:228-351 | for every order and number of timely responses, echoes, other events, refetches, pages and the settling flush: once settled, every entity and every list without a date range is in step with the server |
| `Lifecycle.ResponseExactly` | packages/core/issues/mutations.ts:311-330 | a response that carries the committed row keeps the cache in step exactly when no newer write to the row was delivered before it, or neither the detail nor a list that would show it or is trusted holds the row |
| `Lifecycle.ResponseSettlesExactly` | packages/core/issues/mutations.ts:228-351 | the same condition decides, after any run that has settled, whether one more response leaves the cache in step |
| `Lifecycle.OnSuccessUpdate` | packages/core/issues/mutations.ts:311-330 | the reconcile with the returned entity and the flush of what it reports |
| `Lifecycle.OnSettledUpdate` | packages/core/issues/mutations.ts:349-351 | the flush of the keys kept back |
| `Lifecycle.CoercedWriteExactly` | packages/core/issues/mutations.ts:320-328 | when the server stores other values, a list without the row stays untouched and unflagged, and is right exactly when both values count it in the same column or not at all |
| `Drift.UnflaggedDeliveryExactly` | packages/core/issues/ws-updaters.ts:85-102 | with neither flags nor a cached copy a list stays right exactly when it is judged, or nothing it counts moved |
| `ServerFlags.FlagHidesExactlyUnassign` | server/internal/handler/issue.go:3032-3033 | the server's flag hides an assignee move exactly when the request clears an assignee field that was set and sets none |
| `ServerFlags.UnassignedCardStays` | server/internal/handler/issue.go:3032-3033 | an unassigned card stays, unflagged, on every loaded list of its former assignee |
| `ServerFlags.SingleFlagHidesExactly` | server/internal/handler/issue.go:2911-3040 | the flag of a single update hides a project move exactly when the request leaves the project out and brings another through an epic or a parent |
| `ServerFlags.BatchFlagHidesExactly` | server/internal/handler/issue.go:3705 | the flag of a batch hides those moves, and exactly the writes that clear the project besides |
| `ServerFlags.HiddenMoveExactly` | packages/core/issues/ws-updaters.ts:85-113 | a project list is never flagged by a hidden move of a row that keeps its column, and is right exactly when the row was and is in the project, or neither |
| `ServerFlags.StoredHierarchy` | server/internal/handler/issue.go:2911-2985 | what a write to the hierarchy stores: a subtask has a parent among the work items and its project and epic, a work item has no parent and the project of its epic if it has one, and the kind follows the request, an explicit null included |
| `ServerFlags.ParentDecidesKind` | server/internal/handler/issue.go:2921-2932 | a request of only a parent is accepted and makes a subtask of it, one of only a cleared parent a work item |
| `Drift.LateDeliveryExactly` | packages/core/issues/ws-updaters.ts:108-113 | an event delivered to a list that already includes it does harm exactly when it takes an unloaded row's unit a second time |
| `DriftExamples.CreatedRangeExample` | packages/core/issues/cache-coordinator.ts:194-202 | a concrete list of issues created last week that loses a unit for an older one, unflagged |
| `DriftExamples.EnteredRangeExample` | packages/core/issues/cache-coordinator.ts:156-165 | a concrete board of issues updated this week that an edited older issue enters unnoticed |
| `DriftExamples.LeftRangeExample` | packages/core/issues/cache-coordinator.ts:131-154 | a concrete board of issues updated before this week that keeps the card of an edited one |
| `DriftExamples.UnassignedExample` | server/internal/handler/issue.go:3032-3033 | a concrete unassigned card that stays on its former assignee's list |
| `DriftExamples.JoinedEpicExample` | server/internal/handler/issue.go:2950-2971 | a concrete work item put under an epic, whose project's list does not hear of it |
| `DriftExamples.UnflaggedExample` | packages/core/issues/ws-updaters.ts:85-102 | a concrete event without flags that leaves a list wrong |
| `DriftExamples.LateExample` | packages/core/issues/ws-updaters.ts:108-113 | a concrete list that is refetched before the event and counted down by it again |
| `DriftExamples.CoercedExample` | packages/core/issues/mutations.ts:320-328 | a concrete work item put under an epic: the response brings the epic's project, and the list of that project misses it |
| `DriftExamples.LateResponseRun` | packages/core/issues/mutations.ts:311-330 | a concrete own write, in step at its start, whose response puts an older text back, with nothing flagged |
| `CommentThreads.WalkUp` | packages/core/issues/mutations.ts:850-858 | the upward walk ends on every parent relation, at the top or on a cycle |
| `CommentThreads.ExpandDown` | packages/core/issues/mutations.ts:859-879 | the downward expansion yields the least set with the root that is closed under replies |
| `CommentThreads.CollectThreadCommentIds` | packages/core/issues/mutations.ts:842-880 | for a known comment exactly its weakly connected component of the parent graph, cycles and self-parents included |
| `CommentThreads.ResolveComment` | packages/core/issues/mutations.ts:887-914 | every field of every entry afterwards: resolving leaves the comment the only resolved one of its thread and touches no other thread; unresolving touches one row |
| `CommentThreads.Sweep` | packages/core/issues/mutations.ts:806-818 | one sweep adds only descendants, and adds none only when the set is closed |
| `CommentThreads.DeleteComment` | packages/core/issues/mutations.ts:802-823 | the cascade removes exactly the comment and what hangs below it; survivors keep their order and no survivor keeps a removed parent |
| `TimelineRows.RootedOrLooped` | apps/mobile/lib/timeline-thread.ts:48-80 | walking up from a comment reaches a top comment or meets a cycle |
| `TimelineRows.CollectDescendants` | apps/mobile/lib/timeline-thread.ts:63-80 | the breadth-first bundle lists, level by level, exactly the comments below a top comment, once each |
| `TimelineRows.BuildTimelineRows` | apps/mobile/lib/timeline-thread.ts:37-87 | rows are the top-level entries and orphans in input order, replies sit under their root ancestor, level by level and in input order, nothing is shown twice, and missing are exactly the comments on or below a cycle |
| `TimelineRows.RowsShowEverything` | apps/mobile/lib/timeline-thread.ts:37-87 | rows and replies together are, as a multiset, the entries that are on or below no cycle |
| `TimelineCoalesce.CoalesceTimeline` | apps/mobile/lib/timeline-coalesce.ts:29-58 | the in-place loop computes the coalesced timeline |
| `TimelineCoalesce.JoinsExactly` | apps/mobile/lib/timeline-coalesce.ts:25-58 | an entry folds into its predecessor exactly when both are activities of the same action, actor type and actor, the action is not exempt from folding, and they lie at most two minutes apart or the action is exempt from the limit |
| `TimelineCoalesce.OneEntryPerRun` | apps/mobile/lib/timeline-coalesce.ts:29-58 | for every input, one entry per run of consecutive identical activities comes out: the newest, with the length of the run |
| `TimelineCoalesce.CoalesceIsIdempotent` | apps/mobile/lib/timeline-coalesce.ts:29-58 | on time-ordered input coalescing twice is coalescing once |
| `TimelineCoalesce.CoalesceConserves` | apps/mobile/lib/timeline-coalesce.ts:48-51 | the weights of the output sum to the number of entries |
| `TimelineCoalesce.KeepersStayInOrder` | apps/mobile/lib/timeline-coalesce.ts:25-37 | comments and never-coalesced actions come out whole and in order |
| `Mentions.TokenAtCursor` | apps/mobile/lib/mention-serialize.ts:47-78 | finds the at sign at a word boundary with only query characters up to the cursor, and nothing only when there is none |
| `Mentions.SerializeMentions` | apps/mobile/lib/mention-serialize.ts:122-175 | the cursor loop computes the reader |
| `Mentions.LinkReadsBack` | apps/mobile/lib/mention-serialize.ts:163-165 | read as the server reads it (server/internal/util/mention.go:17), the link of a mention gives back kind and id and shows the name, with an at sign unless it is an issue or an epic; the name may hold brackets, but not the start of a target |
| `Mentions.IsSpaceExactly` | apps/mobile/lib/mention-serialize.ts:151 | the characters that end a word: the white space and line terminators of ECMA-262 (sections 12.2 and 12.3) |
| `MentionRoundTrip.SerializeExactly` | apps/mobile/lib/mention-serialize.ts:108-175 | for every text and marker list: the full in-order replacement when the text is marked for these markers, otherwise the text without its sentinels, never a mix |
| `MentionRoundTrip.StripKeepsTheRest` | apps/mobile/lib/mention-serialize.ts:170-173 | the fallback loses sentinels and no other character |
| `MentionRoundTrip.RoundTripExactly` | apps/mobile/lib/mention-serialize.ts:85-175 | text built by inserting mentions from left to right reads back with every mention as its link, exactly when every inserted name is one word |
| `MentionRoundTrip.SpacedNameNeverLinks` | apps/mobile/lib/mention-serialize.ts:149-159 | one name with whitespace and no mention of the text becomes a link |
| `MentionRoundTrip.InsertedInFront` | apps/mobile/lib/mention-serialize.ts:108-110 | a mention inserted in front of an earlier one falls back to plain text, or swaps the links when the names are equal |
| `MentionInput.MentionInput.OnChangeText` | apps/mobile/lib/use-mention-input.ts:115-124 | typing leaves the open suggestions equal to the token at the cursor |
| `MentionInput.MentionInput.OnSelectionChange` | apps/mobile/lib/use-mention-input.ts:126-135 | so does moving the cursor |
| `MentionInput.MentionInput.OnAtButtonPress` | apps/mobile/lib/use-mention-input.ts:137-154 | the button always opens the suggestions with an empty query, in every state |
| `MentionInput.MentionInput.OnSelectMention` | apps/mobile/lib/use-mention-input.ts:156-172 | a choice replaces exactly what was typed of the mention and appends its marker |
| `MentionInput.OneLineGetsPrefix` | apps/mobile/lib/use-mention-input.ts:193-213 | the prefix goes to the front of the caret's line, and every other line of the text stays as it is |
| `MentionInput.CaretKeepsItsPlace` | apps/mobile/lib/use-mention-input.ts:193-213 | the shifted caret stands before the same text, on the line the prefix opened |
| `MentionInput.SubmitThenFail` | apps/mobile/lib/use-mention-input.ts:214-242 | an optimistic submit that fails gives back text, markers and selection, closes the suggestions, and serializes to the same comment as before |
| `Inbox.DeduplicateInboxItems` | packages/core/inbox/queries.ts:80-163 | the maps, loops and sorts compute the deduplicated list |
| `Inbox.OneRowPerKey` | packages/core/inbox/queries.ts:99-163 | exactly one row per key, newest first, each an active item up to its comment anchor, and every active item's key has its row |
| `Inbox.RoutedToNewest` | packages/core/inbox/queries.ts:86-98 | a quick-create key is routed exactly when some attempt of it succeeded, and to what the newest of them made, the first on a tie |
| `Inbox.RoutedExactly` | packages/core/inbox/queries.ts:84-113 | a result is routed exactly when an attempt of its agent at its prompt succeeded with a target, and then to the target of the newest such success, when no agent id holds a colon |
| `Inbox.QuickKeyExactly` | packages/core/inbox/queries.ts:101-108 | two quick-create results whose agent ids hold no colon have the same key exactly when agent (`agent_id`, else `actor_id`, else empty) and prompt are equal |
| `Inbox.SameRowExactly` | packages/core/inbox/queries.ts:107-113 | two items share a row exactly when they are about the same thing: the issue a success made, else target kind and id, else issue, else agent and prompt, else the item itself; ids, target types and agent ids hold no colon |
| `Inbox.OtherPromptStaysApart` | packages/core/inbox/queries.ts:84-113 | an agent that failed at one prompt and succeeded at another has two rows |
| `Inbox.SurfacedExactly` | packages/core/inbox/queries.ts:126-141 | the row shows an unread action exactly when the group has one that is not a failed attempt, or is one while its newest quick-create result is no success; it is the newest of those, and without any the newest item |
| `Inbox.SurfacedIsNewest` | packages/core/inbox/queries.ts:120-141 | the shown item is of the group, and no item of its rank is newer |
| `Inbox.AnchorExactly` | packages/core/inbox/queries.ts:143-157 | a row gets another item's comment only when the shown item is no action and has none, and then the newest comment of the group |
| `Inbox.WhereOfSort` | packages/core/inbox/queries.ts:120-123 | the sort is stable: sorting and selecting commute |
| `Inbox.ActionStaysSurfaced` | apps/mobile/lib/inbox-display.ts:69-149 | an arriving item that is neither an action nor a quick-create result leaves the row of every group that shows an unread action as it is |
| `Inbox.ActionRowsStay` | packages/core/inbox/queries.ts:80-163 | every row of the inbox that shows an unread action is still there, unchanged, after such an arrival |
| `Inbox.SameTargetSameRowExactly` | packages/core/inbox/queries.ts:104-113 | two items about one target share a row exactly when both or neither are results of the quick create that made it |
| `Inbox.CreatedIssueHasTwoRows` | packages/core/inbox/queries.ts:86-113 | a concrete issue, created by a quick create and commented on, with two rows |
| `TaskMessages.MergeMembers` | packages/core/chat/queries.ts:122-131 | existing entries win, and exactly the incoming messages with a new number are added |
| `TaskMessages.MergeStrictExactly` | packages/core/chat/queries.ts:122-131 | a strictly sorted list stays strictly sorted exactly when the new messages of the batch have distinct numbers |
| `TaskMessages.MergeAllIsUnion` | packages/core/chat/queries.ts:110-131 | starting empty, any batches of one log end in the strictly sorted union of what was delivered |
| `TaskMessages.DeliveriesConverge` | packages/core/chat/queries.ts:110-131 | whatever the order and overlap of the batches, the same delivered messages end in the same list |
| `TaskMessages.RedeliveryChangesNothing` | packages/core/chat/queries.ts:127-129 | delivering known numbers again changes nothing, not even with other contents |
| `RolloutHash.Fnv1a` | packages/core/feature-flags/hash.ts:29-58 | the loop over signed 32-bit products computes the unsigned FNV-1a hash of the parts joined by zero bytes |
| `RolloutHash.StepIsBijection` | packages/core/feature-flags/hash.ts:49-53 | each step is a bijection on the 32-bit state |
| `RolloutHash.OneByteApart` | packages/core/feature-flags/hash.ts:29-58 | two byte strings that differ in one byte never share a hash |
| `RolloutHash.EncodeInjective` | packages/core/feature-flags/hash.ts:44-48 | UTF-8 (section 3 of RFC 3629) encodes different texts differently |
| `RolloutHash.Utf8Decodes` | packages/core/feature-flags/hash.ts:44-48 | how many octets a scalar value takes, and that their bits read back as the value |
| `RolloutHash.PublishedHashes` | packages/core/feature-flags/hash.ts:29-58 | the hash of nothing is the published basis, 2166136261, and that of one zero byte 84696351 |
| `RolloutHash.GoldenBucket` | packages/core/feature-flags/hash.test.ts:44 | the bucket both implementations pin for the flag "flag" and an accented identifier, 53 |
| `RolloutHash.HashedDeterminesPair` | packages/core/feature-flags/hash.ts:33-42 | for NUL-free keys the hashed bytes determine key and identifier |
| `RolloutHash.RolloutOnlyGrows` | packages/core/feature-flags/hash.ts:72-76 | raising the percentage only adds users; at 0 or below nobody is in, at 100 or above everybody |
| `RolloutHash.PercentAdmitsBuckets` | packages/core/feature-flags/hash.ts:72-76 | a whole percentage admits the users of exactly that many of the hundred buckets |
| `CalendarDates.DateRoundTrip` | packages/core/issues/date.ts:22-48 | a written day parses back to the same year, month and day |
| `CalendarDates.DayNumberIsMonotone` | packages/core/issues/date.ts:55-62 | the day number is strictly monotone in calendar order, month lengths and leap years included (section 21.4.1 of ECMA-262) |
| `CalendarDates.InstantReadsBack` | packages/core/issues/date.ts:55-62 | the instant is a whole number of days of 86 400 000 ms, and walking that many days from 1970-01-01, day by day through months and leap years, ends at the date it was made from |
| `CalendarDates.DateOnlyIsMidnight` | packages/core/issues/date.ts:55-62 | a date-only string of a valid day gives the UTC midnight of that day, two-digit years being those of the 1900s |
| `CalendarDates.DatesRunOn` | packages/core/issues/date.ts:55-62 | the next day is exactly 86 400 000 ms later, across the ends of months and years |
| `CalendarDates.RestIsIgnored` | packages/core/issues/date.ts:43-48 | what follows the ten characters of a date does not matter |
| `CalendarDates.PastIsBefore` | packages/core/issues/date.ts:92-97 | for every valid date-only string "past" is calendar order, in the years as they are read |
| `CalendarDates.PastIsRightExactly` | packages/core/issues/date.ts:92-97 | against the written year it is right exactly unless the year has two digits and its namesake of the 1900s is not past |
| `CalendarDates.WrittenDaysCompare` | packages/core/issues/date.ts:22-97 | days of the years 1000 to 9999, as the app writes them, compare in calendar order |
| `WorkspaceIdentity.EveryStateKeepsInvariant` | packages/core/platform/workspace-storage.ts:34-64 | the flags match the queue, and every subscriber and function is told or has a task pending, in every reachable state |
| `WorkspaceIdentity.ReachableStates` | packages/core/platform/workspace-storage.ts:34-97 | at most one notification and one rehydration are pending; with an empty queue all earlier subscribers know the current slug and all earlier functions have rehydrated since the last change |
| `WorkspaceIdentity.TwoTasksDrain` | packages/core/platform/workspace-storage.ts:40-64 | two microtasks after any run the queue is empty |
| `WorkspaceIdentity.LastCallWins` | packages/core/platform/workspace-storage.ts:34-42 | after any run slug and id are those of the last call, whatever came after it |
| `WorkspaceIdentity.SlugDecidesTasks` | packages/core/platform/workspace-storage.ts:34-64 | a call with the current slug moves the id and nothing else; one with another slug leaves a notification and a rehydration pending, in this order when nothing was |
| `WorkspaceIdentity.SubscribedExactly` | packages/core/platform/workspace-storage.ts:80-87 | after any run the subscribers are those who subscribed since they last unsubscribed |
| `WorkspaceIdentity.RegisteredExactly` | packages/core/platform/workspace-storage.ts:90-92 | a rehydrate function stands in the list as often as it was registered, in that order |
| `WorkspaceIdentity.TaskReachesExactly` | packages/core/platform/workspace-storage.ts:44-64 | a task tells the current subscribers the current slug and nobody else, or runs the registered functions |
| `WorkspaceIdentity.CollisionExactly` | packages/core/platform/workspace-storage.ts:106-117 | two slugs can reach one physical key exactly when they are equal or one ends in a colon and the other |
| `WorkspaceIdentity.OneMapPerSlug` | packages/core/platform/workspace-storage.ts:106-117 | over any run between colon-free slugs the adapter behaves, for each slug, as a map of its own |
| `WorkspaceIdentity.NoWorkspaceStoresNothing` | packages/core/platform/workspace-storage.ts:106-117 | without a workspace, or with an empty slug, the adapter is left alone |
| `ViewedIssues.VisitsKeepTheNewestTen` | apps/mobile/data/viewed-issues-store.ts:36-41 | a run of visits leaves the first ten of the unbounded most-recent-distinct history |
| `ViewedIssues.ListIsFrontOfHistory` | apps/mobile/data/viewed-issues-store.ts:36-53 | with removals too, every workspace's list is a front of its own history, of at most ten |
| `ViewedIssues.HistoryMembers` | apps/mobile/data/viewed-issues-store.ts:36-53 | the history holds exactly the issues visited since they were last removed |
| `ViewedIssues.HistoryNewestFirst` | apps/mobile/data/viewed-issues-store.ts:36-53 | it is ordered by the last visit, newest first |
| `ViewedIssues.PushMeans` | apps/mobile/data/viewed-issues-store.ts:36-41 | a visit puts the issue first, keeps the others in order with none added, at most ten in all, and touches no other workspace |
| `ViewedIssues.PushForgetsExactly` | apps/mobile/data/viewed-issues-store.ts:36-41 | a visit forgets another issue exactly when that was the tenth and the visited one is new |
| `ViewedIssues.RemoveMeans` | apps/mobile/data/viewed-issues-store.ts:42-52 | a removal takes exactly that issue out, keeps the order, touches no other workspace and never starts a list |
| `RecentContexts.GoodOverRuns` | packages/core/chat/recent-context-store.ts:40-100 | every run under a clock that never goes back keeps at most 50 workspaces, each with 1 to 20 distinct contexts, newest first |
| `RecentContexts.VisitedIsEvictedExactly` | packages/core/chat/recent-context-store.ts:62-71 | the workspace just visited is evicted exactly when it was new, 50 others were kept and all carry a later time |
| `RecentContexts.VisitedSurvives` | packages/core/chat/recent-context-store.ts:62-71 | with a clock that never goes back it always survives, with the visited context at the head of its bucket |
| `RecentContexts.EvictedIsStalest` | packages/core/chat/recent-context-store.ts:64-70 | what is evicted has the oldest last visit, and every other bucket stays as it is |
| `RecentContexts.VisitForgetsExactly` | packages/core/chat/recent-context-store.ts:42-55 | a visit forgets another context exactly when that was the last of twenty and the visited one is new |
| `RecentContexts.VisitMeans` | packages/core/chat/recent-context-store.ts:42-55 | a visit moves the context to the front of its bucket, or puts it there and drops the twentieth; the others keep their order |
| `RecentContexts.ForgetKeepsGood` | packages/core/chat/recent-context-store.ts:75-89 | forgetting never leaves an empty bucket behind |
| `RecentContexts.ForgetMeans` | packages/core/chat/recent-context-store.ts:75-89 | forgetting takes exactly the one context out, keeps the order, drops a bucket only when it was the last one, and touches no other workspace |
| `RecentContexts.RecentContextStore.PruneWorkspaces` | packages/core/chat/recent-context-store.ts:90-100 | the pruning loop keeps exactly the active workspaces, in order |
| `RecentContexts.PruneMeans` | packages/core/chat/recent-context-store.ts:90-100 | the buckets of active workspaces stay as they are and in their order, and no other is left |
| `PagedFetch.FetchProjectGanttIssues` | packages/core/issues/queries.ts:337-353 | at most 20 requests, whatever totals the server reports, and the front of the list that the pages reach |
| `PagedFetch.GanttIsCompleteExactly` | packages/core/issues/queries.ts:330-353 | against a server that honours the page limit the first 10,000 issues arrive exactly when no reported total understates |
| `PagedFetch.HonestFetchIsCompleteExactly` | packages/core/issues/queries.ts:337-353 | with honest totals they arrive exactly when the server's page cap is at least 500 or the list fits one capped page |
| `PagedFetch.ThisServerStopsAtOnePage` | server/internal/handler/issue.go:928-937 | against the repository's own server only the first 100 arrive |
| `PagedFetch.MergeFirstPages` | packages/core/issues/queries.ts:187-200 | the nested loops compute the first copy of every issue of the three relations, and the merged length as total |
| `PagedFetch.UnionIsFirstCopies` | packages/core/issues/queries.ts:161-179 | an issue is in the union exactly as its first copy |
| `PagedFetch.UnionIsDistinct` | packages/core/issues/queries.ts:187-200 | no id twice, none lost |
| `PagedFetch.UnionExtends` | packages/core/issues/queries.ts:161-179 | later pages only add behind what earlier pages gave |
| `PagedFetch.Chunks` | packages/core/issues/queries.ts:452-456 | chunks of 1 to 200 ids, all but the last of 200, that concatenate to the requested ids |
| `PagedFetch.GroupByParent` | packages/core/issues/queries.ts:458-469 | the grouping loops over all answers |
| `PagedFetch.ChunkingIsInvisible` | packages/core/issues/queries.ts:447-469 | every requested parent gets exactly its children, in the server's order, however the ids were chunked |
| `PagedFetch.Hydrate` | packages/core/issues/queries.ts:470-480 | seeding the per-parent caches, in any order of the groups |
| `PagedFetch.HydrationFillsExactly` | packages/core/issues/queries.ts:447-481 | after the whole fetch a filled cache is as before, an empty or missing one of a requested parent holds exactly its children, and no other entry appears |
| `ExceptionFuse.DropNeedsThreeKeeps` | packages/core/analytics/exception-dedupe.ts:13-17 | whatever fails or is lost, nothing is dropped before three exceptions of its fingerprint were kept |
| `ExceptionFuse.CountsNeverExceedKeeps` | packages/core/analytics/exception-dedupe.ts:40-78 | counts never exceed keeps, and at most 50 fingerprints are stored |
| `ExceptionFuse.DroppedExactly` | packages/core/analytics/exception-dedupe.ts:40-78 | without faults an exception is dropped exactly from the fourth of its fingerprint on, if that is among the first 50 of the session |
| `ReconnectClient.OneThingPending` | packages/core/api/ws-client.ts:64-180 | with one connect per disconnect a wanted client always has exactly one socket or one timeout going, and an unwanted one nothing that could reconnect |
| `ReconnectClient.DisconnectSilencesExactly` | packages/core/api/ws-client.ts:164-180 | a disconnect leaves nothing pending exactly when no socket or timeout has slipped out of the client's fields |
| `ReconnectClient.QuietStays` | packages/core/api/ws-client.ts:139-142 | that silence lasts until the application connects again |
| `ReconnectClient.SecondConnectLeavesAnOrphan` | packages/core/api/ws-client.ts:64-80 | connecting twice leaves a socket that a disconnect does not reach |
| `ReconnectClient.CallbacksFromSecondAuthentication` | packages/core/api/ws-client.ts:150-162 | the reconnect callbacks run once for every authentication after the first since the last disconnect |
| `ReconnectClient.CloseSchedulesExactly` | packages/core/api/ws-client.ts:139-142 | a close starts one timeout exactly when the client still listened to that socket, and as long as the fields held all that could reconnect, a disconnect silences this timeout too |

## Left out

- WsUpdates.RunStaysInStep: speaks of work items and subtasks whose creator never changes, on lists without a date range, with flags that never hide a move; ranges and hidden moves break it, as the lemmas of `DateRanges` and `ServerFlags` show. Lists of scope "all" are a client-side union and have no exact totals.
- Echo.EchoIsCountedOnce: speaks of the same change applied again, not of a different change in between.
- Lifecycle.OwnWriteSettles: lists with a date range, for which `DateRanges.OptimisticExactly`, `DateRanges.DeliveryExactly` and `DateRanges.ReapplyKeepsKey` give the exact condition leg by leg. One own write at a time. A run has no refetch that carries the server from before the write: the code cancels those in flight when the mutation starts (packages/core/issues/mutations.ts:238-239), but not one that an event starts afterwards and before the commit (packages/core/issues/ws-updaters.ts:113). Events of writes from before the commit that touch the fields of the own write are not part of a run either.
- ServerFlags.HiddenMoveExactly: the subtasks of a moved work item, whose projects the server changes without any event (server/internal/handler/issue.go:3013-3022).
- ServerFlags.SingleFlagHidesExactly: epics, which another handler updates; a request that the server refuses moves nothing.
- RulesTable.AgreeOrStaleExactly: the base copy is absent or fresh; stale bases are the subject of `Drift.LateDeliveryExactly`.
- DateRanges.RunExactly: the order of the cards, which the other half of the key's last segment asks for; writes that move the time of an update without an event.
- TimelineRows.BuildTimelineRows: asks for unique comment ids; the database provides them.
- Inbox.SameRowExactly: ids and agent ids with a colon in them; the server writes UUIDs, and the key is a string with colons between its parts. The same holds for `Inbox.QuickKeyExactly` and `Inbox.RoutedExactly`.
- TaskMessages.MergeAllIsUnion: batches have distinct numbers inside, as `TaskMessages.MergeStrictExactly` shows they must.
- TimelineCoalesce.CoalesceConserves: input entries carry no count yet; a count on an entry that folds is overwritten by the code.
- CommentThreads.CollectThreadCommentIds: the order in which children are visited, which does not change the result.
- Mutations.BatchRollbackExactly: overlapping mutations, where one rollback overwrites another's patch; the code claims no isolation.
- Coordinator.QueryClient.ApplyIssueChange: keys of other workspaces and caches without a bucketed shape are not in the state; query cancellation is a no-op and invalidation a stale mark.
- MentionInput.MentionInput.OnSelectMention: the raw text and selection setters that the hook also hands out bypass the token and are not part of a session here.
- MentionInput.MentionInput.InsertAtCursor: the caret offset stays inside the inserted text, as its description says; a larger one would need JavaScript's negative slice offsets.
- RecentContexts.GoodOverRuns: starts from the empty store, not from what a persisted blob may hold; workspace ids that look like array indices, which JavaScript would list first, are not distinguished.
- ReconnectClient.OneThingPending: handler sets, which a disconnect clears (packages/core/api/ws-client.ts:177-179), message parsing and the query parameters of the URL; sending on a socket that is not open.
- WorkspaceIdentity.ReachableStates: a task is one step. A subscriber that throws, which leaves those after it untold (packages/core/platform/workspace-storage.ts:46-52), and one that sets the current workspace from inside its callback are not modelled.
- ExceptionFuse.Fuse.ShouldDropException: the fingerprint itself (djb2 over redacted fields) and blobs with non-numeric counts.
- Inbox.DeduplicateInboxItems: prompts come with their whitespace already collapsed, and timestamps are numbers.
- RolloutHash.HashedDeterminesPair: lone surrogates, which a TextEncoder replaces before hashing.
- CalendarDates.PastIsBefore: the legacy timestamp parser of the JavaScript engine is a parameter; locale formatting is not modelled.
- PagedFetch.ChunkingIsInvisible: the server's children are one fixed list during the requests; the grouped assignee board has the same union shape and is not repeated.
- The parent and children bookkeeping of `onIssueUpdated` after the coordinator ran, and the derived queries it invalidates.
- Creation and deletion of issues, labels and metadata updates, reactions and subscriptions: the same helpers with fewer cases.
- Fields that no list filter, date range or bucket reads are lumped into one `content` column, and the times of a row are kept beside it; a partial issue that carries an explicit `undefined` is not distinguished from one that lacks the field.
- React and store plumbing, HTTP, schema validation, logging, formatting.
