# IntelliPilot: verified models of the hard parts

IntelliPilot is a project-management server: a backlog of epics and issues, time sheets,
documentation pulled from git, attachments, and a live change feed. This project models the
parts of its server where several requests meet on shared state, where a data structure is
rebuilt, or where bytes are encoded by hand, and proves what those parts promise.

Each protocol is a transition system: a state, a `Step` per action, and `Run` over any list of
actions, so that every interleaving is a run. The server's own objects (`EventBus`,
`DocsConfig`, `Backlog`, `IssueTable`, `RankTable`, `StatusCache`, `TimeTable`) are classes
whose methods are proved to do those steps, and its loops are methods proved against a function
whose properties are then proved.

| file | part of the server |
|---|---|
| `ChangeFeed.dfy` | the per-project broadcast channels and their lagging readers |
| `DocTree.dfy` | nesting the flat documentation listing into a sorted forest |
| `DocLocks.dfy`, `DocOutcomes.dfy` | keeping fetches and edits of a documentation source apart; sync claims and outcomes |
| `IfMatch.dfy`, `EntityPatch.dfy` | the `If-Match` check, compare-and-set patches, recorded diffs |
| `OutsideWrites.dfy` | which writes outside the patches stand, and when history is right in spite of them |
| `Hierarchy.dfy` | issue parents and the guard against cycles |
| `Reorder.dfy` | the target order of a move and the ranks stored for it |
| `Presence.dfy` | the cache of account statuses |
| `Timesheet.dfy`, `TimesheetAnswers.dfy`, `TimeTable.dfy` | time entries and frozen months; what is answered and whose entries are reached |
| `Csv.dfy` | the timesheet export |
| `Base64Url.dfy` | the token encoder |
| `ByteRanges.dfy`, `Upload.dfy` | ranged downloads, chunked uploads |
| `ImportLinks.dfy`, `ImportForest.dfy` | the two passes of an issue import, and the cycles it can write |
| `Text.dfy`, `Machine.dfy` | strings, decimal numbers, machine numbers |

## Where the code differs from what is said of it

Each of these is a theorem below, with the exact condition under which the promise holds.

- The parent guard walks at most 100 issues up, so it misses an ancestor further away: a project
  whose chains are longer can get a cycle (`DeepMoveClosesACycle`); it is exact up to 100
  (`GuardSufficesIff`, `GuardIsExact`). It also looks before the write: two moves handled at once
  close a cycle exactly when each moved issue is at or above the other's new parent
  (`MovesCloseACycleIff`, `ConcurrentMovesCanCloseACycle`, `WorkKeepsForestIff`), and a link of an
  import, which is not checked at all, can close one with a move (`LinkCanCloseACycle`).
- A documentation source's lock keeps tasks apart, but a git call that times out, or whose request
  is cancelled, leaves its job running, so the next task's job can overlap it
  (`StartOverlapsIffOrphan`, `TimeoutCanOverlap`). A cancelled refresh also leaves its source
  syncing with nobody at work (`SyncingMeansOpenClaim`, `CancelCanStrand`).
- Some fields of an epic or issue are also written outside its patches, with no new version and no
  diff. A patch writes such a field back as it read it, so that it keeps the field's current value
  exactly if those writes left it as read (`NoUpdateIsLost`, `EpicAssignmentIsLost`), and history
  replays or undoes it exactly if they left it as the diffs have it (`HistoryRebuildsRow`,
  `HistoryUndoesRow`, `TriggeredReleaseIsNotReplayed`), which is told from the actions of the run
  alone (`ReplayIsRightIff`, `UndoIsRightIff`, `UncrossedUndisturbedIff`); fields that only patches
  write are always right (`PatchedFieldsReplay`).
- History is recorded after the write, and listed by time, so its order need not be the order of
  versions (`RecordedOrderCanMislead`); replayed as recorded a field is right exactly when its last
  recorded diff ends in the value of its highest version's (`RecordedOrderReplaysIff`).
- A move that names only one neighbour gets a rank one away from it, which need not show the
  order the handler worked out (`BeforeAloneWorksIff`, `AfterAloneWorksIff`); a move that names
  none gets rank 1, which is the end only when all others are below (`NoNeighbourWorksIff`).
- Invalidating the presence cache does not stop a check that has already read the old status
  from storing it afterwards (`EffectiveIff`), so the ban lag is the lifetime plus that check's
  delay (`ServedIsRecent`); a second invalidation after such checks is enough.
- A locked month can still change by a request that checked the lock before it was set
  (`CheckedBeforeTheLock`); it is frozen exactly when no such write is pending that can still
  apply (`FrozenIff`).
- Imports do not look for cycles: one leaves the project without cycles exactly when no row
  reaches itself through its parent references (`ImportKeepsForestIff`, `ImportRunKeepsForestIff`,
  `MutualParentsBreakForest`). Reading the program's own issue export back resolves no parent and
  no epic, because keys keep the `#` that references lose (`ExportedRowsAreNotLinked`).
- Tag comparison is weak by intention, unlike the strong comparison that section 13.1.1 of
  RFC 9110 asks of `If-Match` (`WeakFormAccepted`); on lists of tags the two agree exactly unless
  only the weak form of the current tag is listed (`ComparisonsAgreeIff`).
- Range numbers may carry a plus sign and stand between white space, which section 14.1.2 of
  RFC 9110 has no form for (`LenientFormsAreTaken`); which headers are answered, and as what, is
  said for every header (`AnsweredExactly`).

## Model

| member | source | states |
|---|---|---|
| ChangeFeed.SubscriberSeesTheLog | crates/api/src/events.rs:132-154 | In every interleaving a live subscriber's channel is the mapped one of its project, and what it emitted accounts for that channel's log from its subscription to its cursor; no event crosses projects |
| ChangeFeed.WithoutResyncNothingIsMissed | crates/api/src/events.rs:303-321 | A stream without a resync is exactly the log's stretch, in order and without duplicates |
| ChangeFeed.NoSilentGap | crates/api/src/events.rs:315-317 | Whenever events were skipped the stream holds a resync |
| ChangeFeed.ClosedIsUnreachable | crates/api/src/events.rs:318 | A live subscriber's channel always has a sender, so no receive ends its stream |
| ChangeFeed.ReceiverStays | crates/api/src/events.rs:133-138 | Over any run a receiver that is not dropped itself stays, on its channel, from its start, and with all it has emitted |
| ChangeFeed.OthersLeaveReceiver | crates/api/src/events.rs:133-154 | A step other than its own receive or drop leaves a receiver as it was |
| ChangeFeed.ReceiveMovesOn | crates/api/src/events.rs:303-321 | A receive hands out the next event, or, to a reader more than 256 behind, a resync that moves it to 256 before the end |
| ChangeFeed.DropTakesOne | crates/api/src/events.rs:303-321 | A dropped stream takes its receiver and nothing else |
| ChangeFeed.LogsGrowBySends | crates/api/src/events.rs:153 | A channel's log grows by the sends to it, an event each, and in no other way |
| ChangeFeed.SendStays | crates/api/src/events.rs:140-154 | A publish past its lock section waits for its own send, whatever else happens |
| ChangeFeed.LockSectionLeaves | crates/api/src/events.rs:140-152 | The lock section closes the project's channel exactly if nobody is subscribed, and touches no other |
| ChangeFeed.PublishReachesItsSubscribers | crates/api/src/events.rs:140-154 | A publish whose lock section ran while a receiver was subscribed is appended to that receiver's own channel, whatever happened before its send |
| ChangeFeed.DiscardedUnderLockIffNoSubscriber | crates/api/src/events.rs:143-151 | The lock section drops a publish exactly when no receiver of the project is live |
| ChangeFeed.DiscardedOnlyIfDesertedMeanwhile | crates/api/src/events.rs:140-154 | A publish past its lock section is lost only if at some moment before its send nobody was subscribed |
| ChangeFeed.RunKeepsInv | crates/api/src/events.rs:132-154 | Every run keeps receivers on the mapped channel and streams in account with the logs |
| ChangeFeed.EventBus.constructor | crates/api/src/events.rs:120-125 | A new bus is the empty one |
| ChangeFeed.EventBus.Subscribe | crates/api/src/events.rs:133-138 | Subscribing opens the project's channel if needed and starts at its end, and leaves every other receiver as it was |
| ChangeFeed.EventBus.PublishLockSection | crates/api/src/events.rs:140-152 | A send is left to do exactly when somebody is subscribed |
| ChangeFeed.EventBus.Send | crates/api/src/events.rs:153 | The send step, outside the lock |
| ChangeFeed.EventBus.Recv | crates/api/src/events.rs:303-321 | A turn of the stream emits one frame exactly when the log is past the cursor, a resync exactly from more than 256 behind, and leaves the other receivers as they were |
| ChangeFeed.EventBus.DropReceiver | crates/api/src/events.rs:303-321 | The receiver goes, and every other reader stays as it was |
| DocTree.ParentOf | crates/api/src/docs.rs:1076-1081 | The parent is the path up to its last slash, and is shorter |
| DocTree.IndexHoldsTheChildren | crates/api/src/docs.rs:1083-1089 | The index lists under each parent exactly its children's positions, in listing order |
| DocTree.Nest | crates/api/src/docs.rs:1083-1089 | The loop over the listing and the descent compute the forest the lemmas are about |
| DocTree.NestIsSimple | crates/api/src/docs.rs:1091-1131 | On paths of at most 64 separators the indexed, guarded builder is the simple one that filters the whole listing at every level |
| DocTree.NestKeepsLinkedEntries | crates/api/src/docs.rs:1083-1131 | Flattened, the forest holds, once each, exactly the entries whose every ancestor is a listed directory, at most 64 deep |
| DocTree.NestTellsTheListing | crates/api/src/docs.rs:1102-1123 | Every node tells path, name, kind and, for a document, size of a listed entry, every linked entry at most 64 deep has a node, and a path has one |
| DocTree.GuardLosesNothingIff | crates/api/src/docs.rs:1091-1102 | The depth guard drops nothing exactly when no linked entry has more than 64 directories above it |
| DocTree.ShallowListingIsKept | crates/api/src/docs.rs:1083-1131 | A listing of paths with at most 64 separators keeps all its linked entries |
| DocTree.NestIsWellPlaced | crates/api/src/docs.rs:1102-1131 | Every node hangs under the node of its parent path, and in every level no document stands before a directory and the lower-cased names of each kind are in dictionary order |
| DocTree.SortLevelSorts | crates/api/src/docs.rs:1124-1129 | Sorting a level puts directories first and each kind in dictionary order of the lower-cased names, keeps its entries, and keeps the order of equal ones |
| DocTree.StableSortIsUnique | crates/api/src/docs.rs:1124-1129 | Order and stability leave only one possible result |
| DocLocks.MutualExclusion | crates/api/src/docs.rs:488-527 | In every interleaving at most one task works under the lock of a source that is not deleted |
| DocLocks.OneAwaitedJob | crates/git/src/docs.rs:617-638 | Of the git jobs on such a source's cache at most one is still awaited |
| DocLocks.StartOverlapsIffOrphan | crates/git/src/docs.rs:617-638 | Starting git overlaps another job exactly when one that timed out, or whose request was cancelled, still runs there |
| DocLocks.OneJobPerSourceUnlessAbandoned | crates/api/src/docs.rs:488-527 | With no timeout and no cancelled request at most one fetch or push runs on a source's cache |
| DocLocks.TimeoutCanOverlap | crates/git/src/docs.rs:630-638 | A run with a timeout and two jobs on one live source |
| DocLocks.ForgettingCanShare | crates/api/src/docs.rs:939-952 | A run in which deleting a source lets two tasks hold a lock of it |
| DocLocks.ClaimIsMarkedBeforeRelease | crates/api/src/docs.rs:496-527 | Between every granted claim and the letting go of its lock the outcome is recorded or recording it fails, unless the request is cancelled |
| DocLocks.SyncingMeansOpenClaim | crates/db/src/doc_sources.rs:281-336 | A source shows syncing exactly while nothing has been recorded of it since some claim; that claim is still open, or was cancelled, or could not be recorded, and every open claim is such a one |
| DocOutcomes.StatusIsTheLastOutcome | crates/api/src/docs.rs:507-526 | In every run a source is syncing, ready or failed exactly as the last thing told of it is a claim, the outcome of a task whose job ended well, or that of one whose work ended badly, timed out or failed early |
| DocOutcomes.EditsRecordSuccess | crates/api/src/docs.rs:1461-1470 | The outcome of an edit is recorded only if its push went well |
| DocOutcomes.EditsAreSettled | crates/api/src/docs.rs:1461-1470 | An edit that went well lets go of its lock only after recording that, or trying to, unless it is cancelled |
| DocOutcomes.NoLockIsLeaked | crates/api/src/docs.rs:488-489 | In every run a held lock is held by a task that works under it |
| DocOutcomes.ClaimAnswers | crates/db/src/doc_sources.rs:281-300 | A claim is granted exactly if the source exists and is due, and a refused one lets go of the lock |
| DocOutcomes.CancelAnswers | crates/api/src/docs.rs:991 | Cancelled wherever it stands a task is done and its lock free, and its job and its source's row are as they were; a record that fails leaves the row too |
| DocOutcomes.OtherRowsStay | crates/db/src/doc_sources.rs:281-336 | A step leaves the rows of all other sources as they were |
| DocOutcomes.DeletionTakes | crates/api/src/docs.rs:939-952 | Deleting takes the source's row alone, and forgetting its lock that lock alone |
| DocLocks.CancelCanStrand | crates/api/src/docs.rs:991 | A run in which a cancelled refresh leaves its source syncing and its git job running, with no task at work |
| DocLocks.RunKeepsInv | crates/api/src/docs.rs:477-528 | Every run keeps locks, holders and jobs consistent |
| DocLocks.DocsConfig.constructor | crates/api/src/state.rs:62-76 | No locks at first |
| DocLocks.DocsConfig.LockFor | crates/api/src/state.rs:90-97 | The same lock for a source until it is forgotten |
| DocLocks.DocsConfig.ForgetLock | crates/api/src/state.rs:101-106 | Forgetting touches no other source's lock |
| IfMatch.ListAcceptedIff | crates/api/src/backlog.rs:120-150 | A list of tags is accepted exactly when one is the current tag up to the weak marker, or the list is a lone star |
| IfMatch.AcceptedExactly | crates/api/src/backlog.rs:120-150 | Every header is accepted exactly if it is a star, or lists the current tag or its weak form between commas, each in any white space; exactly a missing one is answered as required |
| IfMatch.EtagInjective | crates/core/src/backlog.rs:311-315 | A tag names one entity and one version |
| IfMatch.EtagTells | crates/core/src/backlog.rs:311-315 | A tag is quoted and tells the id, a colon and the version in decimal |
| IfMatch.SingleTagNamesOneRevision | crates/api/src/backlog.rs:114-150 | A tag other than the star is accepted for at most one version |
| IfMatch.WeakFormAccepted | crates/api/src/backlog.rs:110-116 | The weakened current tag is accepted though the strong comparison refuses it |
| IfMatch.ComparisonsAgreeIff | crates/api/src/backlog.rs:110-116 | On a list of tags the handlers' comparison and the strong one agree exactly unless the current tag is listed in its weak form only |
| EntityPatch.DiffRedoUndo | crates/api/src/backlog.rs:196-200 | A recorded diff leads from the old row to the new and back, and is empty exactly when nothing changed |
| EntityPatch.DiffRows | crates/api/src/backlog.rs:1599-1694 | The field by field comparison yields that diff |
| EntityPatch.WriteSetsFields | crates/api/src/backlog.rs:1518-1545 | A write sets each given field of an issue or epic, clears by a null exactly the fields that can be cleared, and leaves the rest as read; an issue's milestone is never taken from the patch |
| EntityPatch.CheckAnswers | crates/api/src/backlog.rs:1483-1531 | What a check answers: not found, precondition required or failed, an issue's milestone refused, or the row and version read |
| EntityPatch.WriteAnswers | crates/db/src/backlog.rs:1450-1501 | What a write answers on a deleted row, on a moved version, and otherwise, and that it then leaves old and new values to record |
| EntityPatch.RecordAnswers | crates/api/src/backlog.rs:1750-1761 | The new version is answered, and history grows just if something changed |
| EntityPatch.RefuseAnswers | crates/api/src/backlog.rs:1547-1597 | A value refused after the check ends the request and changes nothing else |
| EntityPatch.OtherStepsLeave | crates/db/src/backlog.rs:1618-1681 | A move among siblings changes the rank alone, and a deletion only whether the row is live |
| EntityPatch.NoUpdateIsLost | crates/api/src/backlog.rs:1483-1720 | A write succeeds only at the version its header was accepted for; a field it patches has the patch's value, and any other keeps the row's own exactly if the last write outside the patches since the check left it as it was read |
| EntityPatch.HistoryRebuildsRow | crates/api/src/backlog.rs:1599-1763 | Replaying the recorded diffs in version order gives a field's current value exactly if the writes outside the patches since its last patch left it as it was |
| EntityPatch.HistoryUndoesRow | crates/api/src/backlog.rs:1599-1763 | Undoing the recorded diffs in reverse version order gives a field back as created exactly if the writes outside the patches before its first patch left it as it was |
| EntityPatch.DisturbedByOutside | crates/db/src/backlog.rs:392-415 | From a moment at which no outside write to the field stands, and while the version stays, it is disturbed exactly when the last of them leaves another value than it had |
| EntityPatch.PatchedFieldsReplay | crates/db/src/backlog.rs:1450-1501 | A field that nothing but patches writes is never disturbed, so it replays and undoes rightly |
| EntityPatch.EpicAssignmentIsLost | crates/api/src/milestones.rs:777 | A run in which an epic is put into a milestone and a patch of its subject takes it out again |
| EntityPatch.TriggeredReleaseIsNotReplayed | crates/db/migrations/V022__issue_component_versions.sql:52-76 | A run in which the release version that a trigger sets is missing from the replayed row |
| OutsideWrites.ReadIsContent | crates/api/src/backlog.rs:1483-1531 | In every run a checked request has read the row and the version of the moment of its check |
| OutsideWrites.UndisturbedIff | crates/api/src/backlog.rs:1599-1763 | Over any run a field is undisturbed exactly if no write outside the patches stands, by the order of checks and writes, or one with the value of the last patch naming it |
| OutsideWrites.ReplayIsRightIff | crates/api/src/backlog.rs:1599-1763 | The replayed history gives a field's current value exactly then |
| OutsideWrites.UndoIsRightIff | crates/api/src/backlog.rs:1599-1763 | The undone history gives a field as created exactly if no write outside the patches stood at the check of the first patch naming it, or one with the created value |
| OutsideWrites.UncrossedUndisturbedIff | crates/db/src/backlog.rs:392-415 | If none falls between the check and the write of a patch not naming the field, it is undisturbed exactly if the last since the last patch naming it ends in that patch's value |
| EntityPatch.RecordedOrderReplaysIff | crates/db/src/history.rs:31-39 | Replayed in the order of recording, an undisturbed field gets its current value exactly when its last recorded diff ends in the value of its highest version's |
| EntityPatch.RisingOrderReplays | crates/db/src/history.rs:31-39 | Diffs recorded in the order of their versions replay as in version order |
| EntityPatch.RecordedOrderCanMislead | crates/db/src/history.rs:8-28 | A run whose diffs, replayed as recorded, end in an older subject |
| EntityPatch.RunKeepsInv | crates/db/src/backlog.rs:1450-1501 | Every run keeps row, requests and history in step |
| EntityPatch.Backlog.Begin | crates/api/src/backlog.rs:1461-1482 | A patch arrives and changes nothing yet |
| EntityPatch.Backlog.Check | crates/api/src/backlog.rs:1483-1531 | The row and version read are the ones the header is checked against |
| EntityPatch.Backlog.Write | crates/db/src/backlog.rs:1450-1501 | The write applies exactly when the row is live and still at the version read, and then leaves the fields as WriteSetsFields says |
| EntityPatch.Backlog.Overwrite | crates/db/src/backlog.rs:392-415 | A write outside the patches changes one field, and neither version nor history |
| EntityPatch.Backlog.Record | crates/api/src/backlog.rs:1750-1761 | A change is recorded under the version it led to |
| Hierarchy.RunKeepsForest | crates/api/src/backlog.rs:885-995 | Over any run in which moves are under issues at most 100 deep no issue becomes its own ancestor |
| Hierarchy.SmallProjectsStayForests | crates/api/src/backlog.rs:1524-1585 | A project of at most 100 issues never gets a cycle |
| Hierarchy.WalkEndsIffForest | crates/db/src/backlog.rs:1534-1560 | The walk up ends within the number of issues, whatever its cap, exactly in a forest |
| Hierarchy.MoveKeepsForestIff | crates/api/src/backlog.rs:1571-1585 | A move keeps a forest exactly when the moved issue is not above, or the same as, its new parent |
| Hierarchy.GuardSeesNearAncestors | crates/db/src/backlog.rs:1534-1560 | The query finds exactly the first 100 issues of the chain |
| Hierarchy.GuardSufficesIff | crates/api/src/backlog.rs:1571-1585 | Every accepted move under an issue keeps the forest exactly when its chain has at most 100 issues |
| Hierarchy.MoveAcceptedIff | crates/api/src/backlog.rs:1547-1585 | A move is accepted exactly of a live issue, not under itself, and under its old parent, none, or a live one that the issue is not among the first 100 from |
| Hierarchy.DeletionsLeave | crates/db/src/backlog.rs:1620-1640 | A deletion hides a live issue with its parent kept, and a purge takes a hidden one and its children's references |
| Hierarchy.GuardIsExact | crates/api/src/backlog.rs:1554-1585 | Under an issue at most 100 deep a move is accepted exactly when it keeps the forest |
| Hierarchy.DeepMoveClosesACycle | crates/db/src/backlog.rs:1546-1554 | A run of creates and one accepted update that ends in a cycle |
| Hierarchy.MovesCloseACycleIff | crates/api/src/backlog.rs:1571-1585 | Two moves that each keep the forest close a cycle together exactly when each moved issue is at or above the other's new parent |
| Hierarchy.WorkKeepsForestIff | crates/api/src/backlog.rs:1547-1720 | A step of any interleaving keeps the forest exactly when it is no write of a move, or of an import's link, whose issue is by then at or above its new parent |
| Hierarchy.SafeWorkKeepsForest | crates/api/src/backlog.rs:1547-1720 | Any interleaving of checks, writes, links of imports and other requests in which every write is safe ends in a forest |
| Hierarchy.WrittenOnce | crates/db/src/backlog.rs:1450-1501 | Of the moves of one issue checked at one version at most one is ever written |
| Hierarchy.CheckedMoveApplies | crates/api/src/backlog.rs:1547-1720 | An accepted move is written, at the version it was checked at, if nothing came in between |
| Hierarchy.ConcurrentMovesCanCloseACycle | crates/api/src/backlog.rs:1571-1585 | A run of two creates, two checks that pass and two guarded writes that ends in a cycle |
| Hierarchy.LinkCanCloseACycle | crates/api/src/issues_io.rs:983-991 | A run in which an issue an import created is moved under another, and the import's link of that other closes a cycle |
| Hierarchy.IssueTable.Create | crates/api/src/backlog.rs:762-810 | An issue is created exactly when its parent is a live issue of the project |
| Hierarchy.IssueTable.BulkCreate | crates/api/src/backlog.rs:885-960 | All are created or, if one parent is refused, none |
| Hierarchy.IssueTable.SetParent | crates/api/src/backlog.rs:1547-1585 | The checks in their order accept exactly the moves the lemmas speak of |
| Reorder.TargetRearranges | crates/api/src/backlog.rs:2094-2106 | The target order is a permutation of the list and the others keep their order |
| Reorder.TargetPlace | crates/api/src/backlog.rs:2096-2106 | The moved item stands right after the one named before it, failing that right before the one named after it, failing that at an end |
| Reorder.ShownOrderIsUnique | crates/db/src/backlog.rs:868-876 | Ranks that rise strictly along a list leave a query ordered by rank no other answer |
| Reorder.RankBetweenIs | crates/core/src/ordering.rs:19-34 | The rank is 1, one above, one below, or between two neighbours in either order the midpoint, if that is strictly between them |
| Reorder.InsertedShowsIff | crates/core/src/ordering.rs:1-7 | Any rank strictly between the target neighbours' shows the target order, and no other rank does |
| Reorder.MoveShowsTargetIff | crates/db/src/backlog.rs:1658-1681 | The list shows the target order exactly when it was renumbered or the new rank lies strictly between the target neighbours |
| Reorder.BothNeighboursAlwaysWork | crates/core/src/ordering.rs:19-34 | Named with both neighbours an item always gets its place, however the midpoint is rounded |
| Reorder.BeforeAloneWorksIff | crates/core/src/ordering.rs:22 | Named with the item before it alone, an item gets its place exactly when the next rank is more than one above |
| Reorder.AfterAloneWorksIff | crates/core/src/ordering.rs:23 | Named with the item after it alone, it gets its place exactly when the previous rank is more than one below |
| Reorder.NoNeighbourWorksIff | crates/core/src/ordering.rs:21 | Named with no neighbour, it moves to the end exactly when all others rank below one |
| Reorder.OneNeighbourCanMiss | crates/core/src/ordering.rs:22 | Three items on which the stored ranks do not show the target order |
| Reorder.RankTable.StoreOrder | crates/db/src/backlog.rs:1658-1681 | One rank is written, or the whole list is numbered 1, 2, ... along the order |
| Reorder.RankTable.MoveItem | crates/api/src/backlog.rs:2079-2125 | The handler stores the ranks the lemmas speak of, and finds exactly the listed items |
| Presence.EffectiveIff | crates/api/src/presence.rs:110-145 | After an invalidation every later check answers what the database holds, in any interleaving, exactly when no check still holds an older answer |
| Presence.SecondInvalidationSuffices | crates/api/src/presence.rs:110-145 | Once every check that read before the change has finished, one more invalidation puts it in effect for good |
| Presence.ServedIsRecent | crates/api/src/presence.rs:81-103 | A served status was the database's less than the lifetime plus the storing check's read-to-store delay ago, and if outdated the account changed since that reading |
| Presence.SweepRefines | crates/api/src/presence.rs:89-103 | With a lifetime up to the sweep's age every run answers as one with a cache that is never swept, at every later instant |
| Presence.SweepInvisibleIff | crates/api/src/presence.rs:89-103 | No lookup can notice the sweep exactly when the lifetime is at most its age |
| Presence.SweepInvisibleByDefault | crates/api/src/presence.rs:34-38 | With the default lifetime no lookup can notice the sweep |
| Presence.CachedIff | crates/api/src/presence.rs:81-87 | A lookup answers what was stored less than the lifetime ago |
| Presence.StoreAnswers | crates/api/src/presence.rs:89-103 | A store enters the status and drops, of more than 1024 entries, those an hour old |
| Presence.CheckAnswers | crates/api/src/presence.rs:120-145 | What each step of a check answers and keeps: a hit, nothing for a missing account, active and not banned when the database fails, and else what it says |
| Presence.OtherStepsChange | crates/api/src/presence.rs:110-114 | An invalidation drops one user's entry, and a change of an account changes that account alone |
| Presence.RunKeepsInv | crates/api/src/presence.rs:81-145 | Every entry stems from a store, every store from a reading, and readings since the last change still hold |
| Presence.StatusCache.constructor | crates/api/src/presence.rs:72-78 | An empty cache |
| Presence.StatusCache.CachedStatus | crates/api/src/presence.rs:81-87 | A lookup answers only what is stored |
| Presence.StatusCache.Store | crates/api/src/presence.rs:89-103 | What is stored is served at once, if anything is cached at all |
| Presence.StatusCache.Invalidate | crates/api/src/presence.rs:110-114 | An invalidated user is served nothing at any time, and other users as before |
| Presence.StatusCache.CheckUser | crates/api/src/presence.rs:120-145 | A hit asks nobody, a missing account is refused, and a failing database lets pass without caching |
| Timesheet.LockedMonthIsFrozen | crates/api/src/time_tracking.rs:392-633 | Over any run of requests by users who may not manage the project, a locked month keeps exactly its entries and stays locked |
| Timesheet.LocksRefuseExactly | crates/api/src/time_tracking.rs:460-633 | Locks refuse exactly the requests that would touch a locked month, and change no other decision |
| Timesheet.LockedIsNotTouched | crates/api/src/time_tracking.rs:613-633 | Who may not manage a project decides no write into or out of a locked month of it |
| Timesheet.FrozenOnceDrained | crates/api/src/time_tracking.rs:527-560 | In any interleaving a locked month is frozen once no earlier decision to write to it is pending |
| Timesheet.FrozenIff | crates/api/src/time_tracking.rs:460-633 | A locked month is frozen against everything its non-managers and the pending writes can still do exactly when no pending write aims at it, or lifts its lock, that is or can become current |
| Timesheet.CheckedBeforeTheLock | crates/api/src/time_tracking.rs:460-492 | A request that checked the lock just before it was set still writes into the month |
| TimesheetAnswers.UpdateAnswers | crates/api/src/time_tracking.rs:511-573 | An update is done exactly on an entry of the user's own, out of and into no closed month, at the version named; what it then writes, and what it answers otherwise |
| TimesheetAnswers.DeleteAnswers | crates/api/src/time_tracking.rs:575-611 | A deletion is done exactly on an entry of the user's own in no closed month |
| TimesheetAnswers.LogAnswers | crates/api/src/time_tracking.rs:392-505 | A log is done exactly if it is of work or a meeting, well described, for a project where the user may log, and in no closed month; the entry it makes, and what it answers otherwise |
| TimesheetAnswers.BookAnswers | crates/api/src/time_tracking.rs:638-710 | Exactly the four kinds of absence are booked, an entry a day in the order of the days |
| TimesheetAnswers.CancelAnswers | crates/db/src/time_tracking.rs:384-396 | Cancelling removes exactly the user's entries of the booking, and is not found if there are none |
| TimesheetAnswers.AdminLogAnswers | crates/api/src/time_tracking.rs:891-955 | A manager logs work for members of the project, on live tasks of it |
| TimesheetAnswers.AdminUpdateAnswers | crates/api/src/time_tracking.rs:959-1008 | A manager corrects exactly entries of the project, at the version named, in closed months too |
| TimesheetAnswers.AdminDeleteAnswers | crates/api/src/time_tracking.rs:1012-1045 | A manager deletes exactly entries of the project |
| TimesheetAnswers.LockAnswers | crates/api/src/time_tracking.rs:1065-1129 | A manager sets and lifts one month's lock, and lifting one that is not set is not found |
| TimesheetAnswers.LateAnswers | crates/db/src/time_tracking.rs:212-247 | A write that comes late finds the entry gone or changed, says so, and then writes nothing |
| TimesheetAnswers.OnlyOwnersReach | crates/api/src/time_tracking.rs:527-531 | A request changes or removes an entry only if it is the actor's own or of a project that the actor manages |
| TimesheetAnswers.StrangersLeaveEntry | crates/api/src/time_tracking.rs:511-611 | Over any run of requests by others an entry stays as it is |
| TimesheetAnswers.StrangersLeaveEntryServed | crates/api/src/time_tracking.rs:511-611 | In any interleaving too, once no write that aims at the entry is pending |
| TimeTables.TimeTable.LogMyTime | crates/api/src/time_tracking.rs:392-505 | Logging time leaves every locked month of a project the user may not manage as it was, and enters one entry of the user's own, as asked, or nothing |
| TimeTables.TimeTable.UpdateMyEntry | crates/api/src/time_tracking.rs:511-573 | Updating writes the request's values into an entry of the user's own at the version named and into no other, and leaves every such locked month as it was |
| TimeTables.TimeTable.DeleteMyEntry | crates/api/src/time_tracking.rs:575-611 | Deleting takes an entry of the user's own and no other, and leaves every such locked month as it was |
| TimeTables.TimeTable.BookAbsenceDays | crates/db/src/time_tracking.rs:341-381 | Booking an absence enters the user's entries day by day, none with a project, keeps all others, and leaves every such locked month as it was |
| TimeTables.TimeTable.SetLock | crates/api/src/time_tracking.rs:1065-1129 | Only a manager of the project sets or lifts its locks, one month at a time |
| Csv.BuildCsv | crates/api/src/time_tracking.rs:1446-1474 | An RFC 4180 reader gets back exactly the header and one record per entry, whatever the texts hold, each column holding what its name says |
| Csv.RecordHolds | crates/api/src/time_tracking.rs:1446-1474 | The columns are Date, User if asked for, Kind, Project, Task, Subject, Minutes, Hours and Note, and each field is that of its column |
| Csv.QuotedIff | crates/api/src/time_tracking.rs:1438-1444 | A field is quoted exactly if it holds a comma, a quote or a line end |
| Csv.FileReads | crates/api/src/time_tracking.rs:1438-1444 | Printed records of arbitrary fields read back field for field |
| Csv.PrintingIsInjective | crates/api/src/time_tracking.rs:1438-1474 | Different records print differently |
| Csv.HundredthHours | crates/api/src/time_tracking.rs:1434-1436 | Hours are printed to the nearest hundredth |
| Base64Url.EncodeBytes | crates/auth/src/refresh.rs:46-66 | The loop over chunks gives the encoding, which decodes to the bytes |
| Base64Url.BitsAsArithmetic | crates/auth/src/refresh.rs:53-63 | The shifts, ors and masks of the source are the sums, quotients and remainders that the encoder is modelled with |
| Base64Url.RoundTrip | crates/auth/src/refresh.rs:46-66 | A decoder for section 5 of RFC 4648 inverts the encoder on every byte sequence |
| Base64Url.EncodeIsInjective | crates/auth/src/refresh.rs:46-66 | Different bytes encode differently |
| Base64Url.DecodedEncodesBack | crates/auth/src/refresh.rs:46-66 | The decoder accepts only encodings |
| Base64Url.EncodedIsInAlphabet | crates/auth/src/refresh.rs:49 | Only the 64 letters occur |
| Base64Url.EncodedLength | crates/auth/src/refresh.rs:50-64 | Four letters per three bytes, and two or three for a rest |
| ByteRanges.AnsweredOrIgnored | crates/api/src/attachments.rs:711-753 | A printed range is answered with exactly the positions it selects when it is valid and 64-bit, and is otherwise ignored |
| ByteRanges.AnsweredExactly | crates/api/src/attachments.rs:711-753 | Every header is answered with exactly the positions of the range it spells, by a grammar of signs, zeros and white space, when that is valid and 64-bit, and is otherwise ignored |
| ByteRanges.ParseRange | crates/api/src/attachments.rs:711-753 | For every header a partial answer starts no later than it ends and ends inside the object |
| ByteRanges.DownloadIsConsistent | crates/api/src/attachments.rs:632-671 | The announced length and range are those of the body, as `bytes a-b/n` or `bytes */n`, without wrap-around, for every header |
| ByteRanges.DownloadSelects | crates/api/src/attachments.rs:632-671 | A valid range is answered with just the selected elements, in order |
| ByteRanges.PiecesReassemble | crates/api/src/attachments.rs:632-671 | Pieces that tile an object reassemble it |
| ByteRanges.ResumeCompletes | crates/api/src/attachments.rs:632-671 | An interrupted download resumes where it stopped |
| ByteRanges.LenientFormsAreTaken | crates/api/src/attachments.rs:732-748 | Plus signs before the numbers and white space around them change nothing |
| Upload.SpoolField | crates/api/src/attachments.rs:277-325 | The loop gives the result specified, and leaves the whole content on disk or nothing |
| Upload.SpoolIsWhole | crates/api/src/attachments.rs:295-318 | Absent failures the size, the digest and the head are those of the whole file |
| Upload.ChunkingDoesNotShow | crates/api/src/attachments.rs:295-318 | The way of cutting into chunks does not show |
| Upload.LimitIsExact | crates/api/src/attachments.rs:301-304 | Below the counter's saturation an upload is refused exactly when it exceeds the limit |
| Upload.NoLimitAtSaturation | crates/api/src/attachments.rs:301-304 | At the largest limit nothing is refused and the size is right exactly up to it |
| Upload.NoErrorIff | crates/api/src/attachments.rs:295-314 | Nothing goes wrong exactly when every chunk arrives and the total is within the limit |
| Upload.SpoolFailsAs | crates/api/src/attachments.rs:277-318 | The first event that goes wrong decides between too large, invalid and an input or output error |
| Upload.SpoolNeedsSync | crates/api/src/attachments.rs:319-325 | A file that cannot be written out at the end is an error |
| Upload.AcceptedIsKnown | crates/api/src/attachments.rs:295-325 | An accepted upload is known by the hash of all bytes, their number, and the first 8192 |
| ImportLinks.ImportCommit | crates/api/src/issues_io.rs:887-992 | The two passes write just the links the references mean, and every row is counted once |
| ImportLinks.CreateRows | crates/api/src/issues_io.rs:887-962 | The first pass enters every created row, and its counts and the skipped rows add up |
| ImportLinks.IsEpicIff | crates/api/src/issues_io.rs:898-962 | Exactly the type name epic, in any case, makes an epic |
| ImportLinks.SkippedTells | crates/api/src/issues_io.rs:960 | Exactly the rows that were not created are reported, by key and subject |
| ImportLinks.StripHashIs | crates/api/src/issues_io.rs:140-142 | A reference loses the hashes before it and the white space around them and around it |
| ImportLinks.ReferencesMean | crates/api/src/issues_io.rs:969-977 | A parent reference means the issue with that id, else that key; an epic reference the epic with that key, else that id |
| ImportLinks.OrderIrrelevantIff | crates/api/src/issues_io.rs:898-977 | References mean the same in every order of the rows exactly when none is ambiguous |
| ImportLinks.LinksIgnoreOrder | crates/api/src/issues_io.rs:964-991 | Without ambiguous references every permutation of the rows writes the same links, so forward references work |
| ImportLinks.LinksStayInside | crates/api/src/issues_io.rs:964-991 | Parent links point only to issues and epic links only to epics of the same import |
| ImportLinks.MutualParentsAreLinked | crates/api/src/issues_io.rs:983-991 | Issues that name each other as parent get each other as parent |
| ImportLinks.ExportedRowsAreNotLinked | crates/api/src/issues_io.rs:243-257 | The program's own export read back writes no link |
| ImportForest.ImportedIssue | crates/api/src/issues_io.rs:964-991 | After the import every created issue has exactly the parent that its row's reference means |
| ImportForest.ImportKeepsForestIff | crates/api/src/issues_io.rs:964-991 | The project has no cycle afterwards exactly when no created issue reaches itself through the rows' parent references |
| ImportForest.ImportIsWork | crates/api/src/issues_io.rs:887-992 | An import that nothing interrupts does, as steps among the other requests, just what its two passes are said to do |
| ImportForest.ImportRunKeepsForestIff | crates/api/src/issues_io.rs:964-991 | At any point of a run that has kept the forest such an import keeps it exactly when no created issue reaches itself through the references |
| ImportForest.ParentsFirstKeepForest | crates/api/src/issues_io.rs:964-991 | A file in which parents stand before their children writes no cycle |
| ImportForest.MutualParentsBreakForest | crates/api/src/issues_io.rs:964-991 | Issues that name each other as parent, or one that names itself, leave a cycle |

## Left out

- HTTP routing, extraction, JSON and problem responses, OpenAPI, permissions of the handlers not
  named above, and multipart parsing. A cancelled request is a step of its own in `DocLocks` and, in the
  other protocols, one that takes no further step.
- SQL and pools: a statement is one atomic step, and succeeds; the fallbacks after a database
  error, apart from the presence check's, and history records that fail are not modelled.
- Delta sync, milestone dates, taxonomy, catalog, releases, customers, favourites: case analyses
  that would only add easy members.
- Cryptography, markdown, MIME sniffing, XLSX, the `csv` crate and git itself: foreign code. A
  hash is an arbitrary function; Unicode lower-casing is a parameter of the tree builder.
- EntityPatch.NoUpdateIsLost: speaks of the scalar fields compared in the diff, not of labels,
  components, component versions, customers or the resolution time, which are written beside the row.
- EntityPatch.HistoryRebuildsRow: derived fields (an issue's milestone) belong to a database
  trigger and are not in the diffs; which fields are written outside the patches, and when, is left
  to the run.
- Hierarchy.RunKeepsForest: takes one request at a time; SafeWorkKeepsForest is about interleavings.
- DocLocks.ClaimIsMarkedBeforeRelease: whether a claim is due is an answer of the environment, and
  the cache directory that deleting a source removes without its lock is not modelled.
- Reorder.MoveShowsTargetIff: ranks are real numbers; only the midpoint may be rounded in any way,
  and the list is the one stored when the move starts.
- Presence.EffectiveIff: a check that the failing database lets pass is not counted as an answer,
  as the code intends.
- Timesheet.LockedMonthIsFrozen: meeting types, the length limit of an absence and clearing the
  task of an entry when the task is purged are not modelled; an absence is the list of its days.
- Csv.BuildCsv: dates are texts, minutes are not negative as the database requires, and hours are
  the exact quotient rounded, not a 64-bit float.
- ByteRanges.AnsweredOrIgnored: several ranges in one header are served as the whole object, which
  the RFC permits.
- Upload.SpoolField: a chunk that cannot be written and a broken stream are answers of the
  environment; the multipart framing around the field is not modelled.
- ImportLinks.ImportCommit: which rows are created is an answer of the environment, the links are
  written without failure, and taxonomy, components, customers and comments are left out.
