# The kflashback history store, verified

kflashback keeps the history of every tracked Kubernetes object as numbered revisions. Some revisions hold
the whole document (snapshots), the others hold a JSON merge patch (RFC 7386) against the document before.
Any revision can be rebuilt on demand from the nearest snapshot and the patches after it.

This project models that store in Dafny 4.11 and proves how its parts fit together: the merge-patch algebra, field
stripping, the event handlers that record revisions, the two tables and their purges, and reconstruction.
Two smaller components are modelled as well: the sliding-window limiter of the AI provider and the registry of
resource watchers. `dafny verify dfyconfig.toml` checks everything.

## Layout

| file | what it holds |
|---|---|
| `Json.dfy` | JSON trees, locations in them, `Option` and `Result` |
| `MergePatch.dfy` | `Diff` and `Apply` (section 2 of RFC 7386), round trip, idempotence, agreement up to null members |
| `FieldPaths.dfy`, `StripFields.dfy`, `StripInPlace.dfy` | the dot notation, field removal on values, and the same removal on nested mutable maps |
| `ChangedPaths.dfy`, `TextLists.dfy` | the depth-limited list of changed paths, and the comma-joined column it is stored in |
| `Store.dfy` | both tables as a class, with the UNIQUE check, the queries and the two purges |
| `Reconstruct.dfy` | `reconstructResource` and `handleDiffRevisions` |
| `Retention.dfy` | what purges do to reconstruction, before it and between its reads; purge loss bound, work bound |
| `Recorder.dfy` | `OnAdd`, `OnUpdate`, `OnDelete` |
| `Interleaving.dfy` | any number of handlers as a state machine over single store calls, with failures and crashes |
| `Purging.dfy` | the same with purges by age in between |
| `History.dfy` | whole runs of events and purges: what is recorded is what is rebuilt |
| `Relist.dfy` | re-list drift, duplicate and late delivery |
| `Departures.dfy` | one failing input for each condition below |
| `RateLimit.dfy`, `Registry.dfy`, `Queries.dfy` | limiter, watcher registry, clause builders of both backends |

Functions without a contract of their own (`MergePatch.Apply`, `MergePatch.Diff`, `StripFields.Strip`,
`ChangedPaths.Changes`, `Reconstruct.Rebuild`, `Recorder.Plan`, `Interleaving.Next`, ...) are the specifications the
methods are tied to; the lemmas in the table say what they mean.

## Where the code departs from what is meant

Each point names the exact condition and, in `Departures.dfy`, an input on its failing side.

- A merge patch cannot introduce a null member (`Departures.IntroducedNullLost`). `MergePatch.RoundTrip` says exactly
  when a patch restores the new document, `History.RevisionExactIff` and `History.RebuildExactIff` carry that to single
  revisions and whole histories, and everything still agrees once null members are dropped (`History.EndToEnd`).
- An insert that is applied but reported as failed, a failed update of the tracked record, and a crash between the two
  writes each leave `current_revision` one behind: every later insert repeats a taken number, until a purge by age
  removes its row (`Interleaving.RecordingContinuesIff`, `Departures.StrandedCounter`, `Purging.PurgeRevives`). A
  recorded deletion does the same by design (`Interleaving.DeletionFinal`). `Purging.CanStoreNewIff` says in which
  states, purged or not, handlers can store anything more.
- Once revision 1 is purged, an add that cannot read the tracked record stores revision 1 again and sends the counter
  back to it (`Departures.FailedReadAfterPurge`). `Purging.CallOrderIff` says exactly when one call does this,
  `Purging.CounterOrderIff` exactly which runs of handlers and purges keep the counter's order.
- A re-list compares against the latest revision only when that is a snapshot; after a patch drift is never recorded
  (`Relist.DriftRepairIff`, `Departures.DriftMissed`). The next update is then recorded as a patch from an object that
  is not in the history, and its revision may rebuild to a wrong document (`Departures.DriftSpoilsNext`).
  `Relist.UpdateReachesDelivered` says exactly when it rebuilds to the object delivered, up to nulls and exactly. Runs
  whose re-lists find no drift or a snapshot the counter points at are sound (`History.EndToEnd`).
- An update recorded by two policies before the next event rebuilds alike as two patches or two snapshots. A patch after
  the snapshot is harmless exactly when the update introduces no null; a snapshot after the patch exactly when the
  patch restores the delivered object from what was stored before, which a null lost earlier prevents
  (`Relist.DuplicateDelivery`, `Departures.DuplicateWithNullDiffers`, `Departures.DuplicateAfterLostNull`). Recorded
  after later ones, an update is harmless exactly when the newest document already has everything its patch imposes,
  and otherwise puts every location it changed back (`Relist.LateDelivery`, `Departures.LateDuplicateHarms`).
- Purging by age trusts timestamps. Between reconstructions it is harmless for every content exactly when no snapshot is
  younger than a later revision (`Retention.PurgeOldHonestIff`, `Retention.YoungerSnapshotLies`).
- A reconstruction reads the snapshot and the rows after it in two calls. It returns what the first saw, for every
  content, exactly when no row from the snapshot to the revision was stored, replaced or removed in between
  (`Retention.TwoReadsTrueIff`); a purge in between can lie even when timestamps are in order
  (`Retention.PurgeBetweenReadsIff`, `Departures.PurgeBetweenReadsLies`).
- A policy that lists one resource type twice leaks a watcher that not even StopAll stops
  (`Registry.LiveIsRegisteredIff`, `Registry.StopAllStopsIff`, `Departures.RepeatedTypeLeaks`).
- A history whose first event is a recorded update has no base until the first multiple of the interval or the first
  recorded add or deletion (`History.FirstEventNotSnapshot`, `Departures.FirstChangeLost`).
- The comment on `GetChangedPaths` speaks of top-level paths; the code reports up to two keys
  (`ChangedPaths.ChangesExact`).

## Model

| member | source | states |
|---|---|---|
| MergePatch.RoundTrip | internal/diff/diff.go:29-45 | Applying the computed patch to the old document gives the new one if and only if every null member of the new document is null at the same path in the old one |
| MergePatch.RoundTripNoNulls | internal/diff/diff.go:29-45 | In particular the round trip holds whenever the new document has no null member |
| MergePatch.RoundTripUpToNulls | internal/diff/diff.go:29-45 | For all documents, old patched with the diff equals new once null members are dropped |
| MergePatch.ApplyUpToNulls | internal/diff/diff.go:38-45 | A patch keeps two documents that differ in null members only equal in that sense |
| MergePatch.ApplyIdempotent | internal/diff/diff.go:38-45 | Applying any patch a second time changes nothing, for any target |
| MergePatch.ReapplyToResult | internal/diff/diff.go:29-45 | Applying a diff to the document it leads to is harmless exactly under the round-trip condition |
| MergePatch.DiffEmpty | internal/diff/diff.go:107-117 | The patch is empty exactly when the documents are equal, which is what IsEmpty decides |
| MergePatch.PatchedMember | internal/diff/diff.go:38-45 | What the patch between two objects does to each member of any target |
| MergePatch.AppliedNode | internal/diff/diff.go:38-45 | At every location a patched document holds the patch's node if it has one (nothing for null), nothing below a value the patch sets, and the target's node elsewhere |
| MergePatch.SettledIff | internal/diff/diff.go:38-45 | A patch leaves a document unchanged if and only if the document already holds, at every location, what the patch imposes there |
| MergePatch.PatchedWhereChanged | internal/diff/diff.go:29-45 | Wherever two documents differ, any target patched with their diff is as in the second, up to nulls |
| MergePatch.PatchedNode | internal/diff/diff.go:29-45 | The diff between two documents over any target: the target's node where it leaves the location alone, the second document's elsewhere, up to nulls |
| MergePatch.LeftAloneWhereSame | internal/diff/diff.go:29-36 | A diff leaves alone only locations that hold the same in both documents, and every such location that holds a value that is no object |
| MergePatch.ReachesIff | internal/diff/diff.go:38-45 | A diff made between other documents leads any target exactly to its second document if and only if the target is the same wherever the diff leaves it alone and no null is set elsewhere |
| MergePatch.ReachesUpToNullsIff | internal/diff/diff.go:38-45 | It leads there up to nulls if and only if the target agrees, up to nulls, wherever the diff leaves it alone |
| MergePatch.AgreedBefore | internal/diff/diff.go:38-45 | A target that agrees with the first document up to nulls always qualifies |
| MergePatch.ApplyMergePatches | internal/diff/diff.go:47-58 | The loop applies the series in order |
| MergePatch.ReplayDiffChain | internal/diff/diff.go:47-58 | Replaying the diffs between the successive documents of a history reaches its last document, up to null members |
| FieldPaths.SplitPath | internal/diff/diff.go:166-194 | The one-pass scan with builder and escape flag computes the split |
| FieldPaths.SplitExact | internal/diff/diff.go:166-194 | Any text whatever: an unescaped dot parts it in two that are split on their own; a text without one is a single key, its backslashes resolved, or no key if nothing is left |
| FieldPaths.SplitSpell | internal/diff/diff.go:166-194 | Splitting the dot-joined, escaped form of any list of non-empty keys returns that list |
| FieldPaths.PartsSpell | internal/diff/diff.go:144-149 | The same through removeField's prefix trimming, with and without the leading dot |
| FieldPaths.SpellingIsCanonical | internal/diff/diff.go:144-194 | Every field path names a list of non-empty keys and can be replaced by the canonical spelling of it |
| StripFields.RemoveNodes | internal/diff/diff.go:144-164 | Removing a field empties its location and those below it and leaves every other location as it was |
| StripFields.DefaultsNamed | internal/diff/diff.go:18-27 | The seven default fields name exactly the locations spelled out as keys |
| StripFields.StripNodes | internal/diff/diff.go:60-84 | Stripping empties the seven default locations, those the policy names and, unless it is tracked, status, with all below them, and leaves every other location as it was |
| StripFields.StatusKept | internal/diff/diff.go:78-81 | Below status everything goes when it is not tracked, and otherwise only its observed generation and what the policy names |
| StripFields.StripEqual | internal/diff/diff.go:60-84 | Two objects strip to the same document if and only if they agree at every location outside those |
| StripFields.StripIdempotent | internal/diff/diff.go:60-84 | Stripping twice is stripping once |
| StripFields.StripOrderIrrelevant | internal/diff/diff.go:60-84 | Order, repetition and spelling of the ignored fields do not matter |
| StripFields.RemoveSpelled | internal/diff/diff.go:144-194 | A field spelled with escaped keys removes exactly that member, dots in keys included |
| StripInPlace.RemoveField | internal/diff/diff.go:144-164 | The walk and delete on nested mutable maps computes the removal and keeps the tree well formed |
| StripInPlace.StripObject | internal/diff/diff.go:60-84 | The in-place StripFields: default fields, policy fields, then status unless tracked |
| ChangedPaths.FindChanges | internal/diff/diff.go:196-235 | The traversal adds exactly the printed changes below the prefix to the shared set, in any key order, and terminates |
| ChangedPaths.GetChangedPaths | internal/diff/diff.go:86-105 | The list is strictly ascending and prints exactly the locations at which the documents differ: a top-level key that is not an object on both sides, or a second key inside two objects, whatever characters the keys hold |
| ChangedPaths.ChangesExact | internal/diff/diff.go:196-235 | A key list is reported if and only if it is a top-level key that differs and is not an object on both sides, or a second key that differs inside two objects |
| ChangedPaths.PathsExact | internal/diff/diff.go:86-105 | The same through the printed and sorted form |
| ChangedPaths.NoChanges | internal/diff/diff.go:196-235 | At any depth limit nothing is reported exactly when the documents are equal |
| ChangedPaths.DiffsAgree | internal/diff/diff.go:86-117 | No changed paths, an empty patch and equal documents come together |
| ChangedPaths.PatchKeys | internal/diff/diff.go:86-105 | The first keys of the changes are exactly the top-level keys of the patch |
| ChangedPaths.PatchKeysPrinted | internal/diff/diff.go:86-105 | The same for the printed paths when keys are non-empty and free of dots |
| ChangedPaths.PrintedPathReadable | internal/diff/diff.go:212-216 | Over such keys a printed path can be split back into its keys |
| TextLists.BeforeIff | internal/diff/diff.go:103 | The sort order puts a proper prefix first and otherwise lets the first character that differs decide |
| TextLists.FieldsRoundTrip | internal/storage/sqlite/sqlite.go:104-105 | The changed_fields column reads back as stored if and only if no entry holds a comma and the list is not one empty string |
| TextLists.SplitJoinIff | internal/storage/sqlite/sqlite.go:499-501 | Splitting a joined list gives it back if and only if it is not empty and no entry holds the separator |
| TextLists.JoinConcat | internal/storage/sqlite/sqlite.go:104-105 | The join of two lists is their joins with the separator between them |
| Store.HistoryStore.StoreRevision | internal/storage/sqlite/sqlite.go:102-120 | Insert under UNIQUE(resource_uid, revision): refused when the number is taken, otherwise one row is added |
| Store.HistoryStore.UpsertTrackedResource | internal/storage/sqlite/sqlite.go:223-240 | A new record is stored as given; on conflict only counter, last-seen time and deletion mark change; no other record does |
| Store.HistoryStore.MarkDeleted | internal/storage/sqlite/sqlite.go:301-308 | Sets the mark and the last-seen time of an existing record, leaves its counter and every other record alone |
| Store.HistoryStore.GetTrackedResource | internal/storage/sqlite/sqlite.go:242-259 | The record of the resource; none when it is missing or the read fails |
| Store.HistoryStore.GetLatestRevision | internal/storage/sqlite/sqlite.go:133-142 | The highest revision of the resource |
| Store.HistoryStore.GetNearestSnapshot | internal/storage/sqlite/sqlite.go:184-195 | The highest snapshot at or before the revision, none only when there is none, or the read error |
| Store.BetweenRows | internal/storage/sqlite/sqlite.go:197-221 | The range query returns every matching row once, in ascending order |
| Store.HistoryStore.PurgeOldRevisions | internal/storage/sqlite/sqlite.go:310-319 | Keeps exactly the rows of any resource that are not older than the cutoff, counts the removed ones and leaves the records alone |
| Store.HistoryStore.PurgeExcessRevisions | internal/storage/sqlite/sqlite.go:321-335 | Removes the rows of one resource beyond its newest ones and touches no other resource |
| Reconstruct.Server.ReconstructResource | internal/server/handlers.go:249-296 | Fails exactly when a read it needs fails; otherwise it follows the rows of the second state of the tables from the nearest snapshot of the first, and over unchanged tables it is the rebuild of the log |
| Reconstruct.FollowPatchesInOrder | internal/server/handlers.go:277-293 | Over patches the loop applies each non-empty one in ascending order |
| Reconstruct.FollowFailsAt | internal/server/handlers.go:277-293 | The loop fails with a revision exactly when that is the first row that cannot be applied to what the rows before it gave |
| Reconstruct.TwoReadsOfOne | internal/server/handlers.go:249-296 | While nobody else writes, the two reads give the rebuild of one log |
| Reconstruct.RebuildRefinesReplay | internal/server/handlers.go:249-296 | With a snapshot at or before r, the fast path equals replaying any longer stretch of history from any starting document |
| Reconstruct.OnlyPatchesAfterNearest | internal/server/handlers.go:277-293 | The loop's snapshot branch only meets rows stored or replaced since the snapshot was read, and is never taken over unchanged tables |
| Reconstruct.RebuildStable | internal/server/handlers.go:249-296 | Revisions recorded later do not change what an earlier one rebuilds to |
| Reconstruct.Server.DiffRevisions | internal/server/handlers.go:202-247 | The patch between two rebuilt revisions leads from one to the other up to nulls, exactly when none is introduced, and is empty exactly when they are equal; the changed paths print exactly where they differ; which step failed otherwise |
| Retention.SuffixHonest | internal/server/handlers.go:250-258 | After removing any number of the oldest revisions each revision rebuilds as before if its snapshot survives and reports a missing snapshot otherwise |
| Retention.PurgeExcessHonest | internal/storage/sqlite/sqlite.go:321-335 | The same for PurgeExcessRevisions |
| Retention.PurgeExcessSize | internal/storage/sqlite/sqlite.go:321-335 | It keeps min(limit, all) revisions |
| Retention.PurgeOldHonestIff | internal/storage/sqlite/sqlite.go:310-319 | PurgeOldRevisions is honest for every cutoff and every content of a history if and only if no snapshot is younger than a later revision |
| Retention.YoungerSnapshotLies | internal/storage/sqlite/sqlite.go:310-319 | Otherwise there are contents and a cutoff after which a revision rebuilds to a wrong document |
| Retention.TwoReadsTrueIff | internal/server/handlers.go:252-274 | A reconstruction whose two reads see different tables returns what the first held, for all contents, if and only if the rows from the nearest snapshot to the revision are the same in both |
| Retention.PurgeBetweenReadsIff | internal/server/handlers.go:252-274 | A purge by age between the two reads is harmless for all contents if and only if it removes none of those rows |
| Retention.PurgeLossBound | internal/storage/sqlite/sqlite.go:321-335 | With interval N at most N-1 retained revisions lose their snapshot, whatever prefix is removed |
| Retention.WorkBound | README.md:74 | With interval N and a snapshot first, rebuilding applies at most N-1 patches |
| Recorder.ResourceEventHandler.OnAdd | internal/controller/resource_watcher.go:138-318 | Creation and re-list handling over the store, with failing reads, writes and compression |
| Recorder.ResourceEventHandler.Relisted | internal/controller/resource_watcher.go:170-261 | The re-list branch: compare with the latest snapshot and record the drift |
| Recorder.ResourceEventHandler.OnUpdate | internal/controller/resource_watcher.go:320-441 | An update recorded as patch or snapshot, then the record |
| Recorder.ResourceEventHandler.OnDelete | internal/controller/resource_watcher.go:443-512 | The last state recorded as a snapshot, then the deletion mark |
| Recorder.PlanShape | internal/controller/resource_watcher.go:371-413 | A recorded revision is numbered one above the record read, deletions are marked, multiples of the interval are snapshots |
| Recorder.RowDescribesEvent | internal/controller/resource_watcher.go:366-413 | A row carries the delivered object's identity, version, policy, time and kind of event; in full, at multiples of the interval (20 if unset), its stripped document, compressed unless switched off; a change, update or re-list, lists exactly where the two stripped documents differ and otherwise holds their diff |
| Recorder.RecordedIff | internal/controller/resource_watcher.go:170-199 | A handler decides to record if and only if the kind of event is not switched off and, for an update or a re-list, the stripped documents differ, a re-list having a latest revision that can be read directly |
| Recorder.CallTouches | internal/controller/resource_watcher.go:297-315 | A call adds at most one row, replaces none and touches no other object; what fails is not written, and the record is left alone unless the insert succeeded |
| Recorder.DeletionMarks | internal/controller/resource_watcher.go:502-509 | After a recorded deletion the record is marked deleted with the time of the deletion and otherwise as before |
| Recorder.RecordCounts | internal/controller/resource_watcher.go:415-438 | After any other recorded event the record counts the stored revision, was seen then and is not deleted; a first record carries the object's names, first-seen time and policy, a later one keeps them |
| Recorder.UpdateSkippedIff | internal/controller/resource_watcher.go:334-364 | An update records nothing if and only if updates are off or the objects agree at every location not ignored |
| Interleaving.InterleavingSafety | internal/controller/resource_watcher.go:469-509 | In every run of any handlers with any failures the revisions are 1..m, the counter is m or m-1, and only the last row can be a deletion |
| Interleaving.NextKeepsInv | internal/controller/resource_watcher.go:415-438 | Every single store call keeps the invariant, adds at most one revision and never lowers the counter |
| Interleaving.RowsPersist | internal/storage/sqlite/sqlite.go:76 | No stored row is replaced or removed by any sequence of handler steps |
| Interleaving.CounterMonotone | internal/controller/resource_watcher.go:425-438 | current_revision never decreases along a run of handlers; with purges see Purging.CounterOrderIff |
| Interleaving.RecordOriginKept | internal/storage/sqlite/sqlite.go:226-231 | Names, first-seen time and first policy of a record never change |
| Interleaving.RecordingContinuesIff | internal/controller/resource_watcher.go:371-375 | With no row missing, handlers can store another revision if and only if the counter is up to date or one of them is about to advance it; for purged states see Purging.CanStoreNewIff |
| Interleaving.DeletionFinal | internal/controller/resource_watcher.go:469-509 | Once a deletion row is stored no later step of any handler stores another revision or clears the deletion mark |
| Interleaving.RunCadenced | internal/controller/resource_watcher.go:377-413 | After any run with one interval the numbering is contiguous and every multiple of the interval is a snapshot |
| Interleaving.RunWorkBound | README.md:74 | After any such run that began with a snapshot, rebuilding applies at most N-1 patches |
| Interleaving.RunPurgeLoss | internal/storage/sqlite/sqlite.go:321-335 | After any such run, removing oldest revisions loses at most N-1 of the others |
| Interleaving.HandledIsRun | internal/controller/resource_watcher.go:138-512 | An uninterrupted handler call is four consecutive steps of the state machine |
| Purging.CarefulSafety | internal/controller/resource_watcher.go:371-438 | In every run of handlers and purges that stores no number the counter has passed and purges no row before its counter is written, numbers end at most one above the counter, only the last can be a deletion, and the counter never goes back |
| Purging.HandlersAreCareful | internal/storage/sqlite/sqlite.go:76 | Runs without purges are careful: the UNIQUE constraint keeps every stored number fresh |
| Purging.CounterOrderIff | internal/controller/resource_watcher.go:425-438 | In any run of handlers and purges, with failing reads, lost writes and crashes, the counter keeps its order if and only if no handler writes the record after a row whose number the counter has passed |
| Purging.CallOrderIff | internal/controller/resource_watcher.go:371-438 | An uninterrupted call sets the counter back if and only if the record cannot be read, row 1 is gone, the counter is past it and both writes go through |
| Purging.CanStoreNewIff | internal/controller/resource_watcher.go:371-415 | In any state, purged or not, handlers can store another revision if and only if a number is free: the one after the counter, number 1, or one in the hands of a handler at work |
| Purging.PurgeRevives | internal/controller/policy_controller.go:87-110 | A stranded resource is recorded again once the taken row is purged, under the same number |
| History.RebuildUpToNulls | internal/server/handlers.go:249-296 | In a history recorded as snapshots and diffs every revision rebuilds to its document up to null members, whatever the documents |
| History.RebuildExactIff | internal/server/handlers.go:249-296 | All revisions rebuild exactly if and only if no recorded patch introduces a null member |
| History.RevisionExactIff | internal/server/handlers.go:249-296 | A revision rebuilds exactly if and only if each null member of its document has been null in every document since the nearest snapshot |
| History.EndToEnd | internal/controller/resource_watcher.go:263-438 | For every run of any objects' events without purges and each object: if its first event is recorded in full, every recorded revision rebuilds to the stripped object of its event, up to nulls, each exactly if and only if its nulls have been null since its snapshot, and all exactly if and only if no patch introduces a null; a non-empty history is sound exactly when revision 1 is a snapshot |
| History.EndToEndExact | internal/controller/resource_watcher.go:263-438 | When no event of an object introduces a null, every stored revision rebuilds exactly or has no base, purges or not, and without purges all do once the first event is recorded in full |
| History.RunHonest | internal/controller/policy_controller.go:87-110 | In every run with age purges at any moments between events, under a clock that does not go back, and after a count purge, each stored revision rebuilds to its document, up to nulls and exactly when its nulls have been null since the snapshot, unless only patches are stored up to it, and then reports a missing snapshot |
| History.DeliveryInStep | internal/controller/resource_watcher.go:341-438 | One event keeps the object's log truthful and gapless, its counter at the end or one behind, and the newest document the delivered object wherever a patch can follow |
| History.OtherUntouched | internal/controller/resource_watcher.go:341-438 | An event of another object leaves an object's rows, record and sources alone |
| History.RunInStep | internal/controller/resource_watcher.go:138-438 | The same after every run of any objects' events with age purges in between, timestamps in the order of the numbers |
| History.FirstEventNotSnapshot | internal/controller/resource_watcher.go:371-413 | When an object's first event is a recorded update, a revision reports a missing snapshot if and only if it is below the interval and no add or deletion was recorded up to it; revision 1 does unless the interval is 1 |
| Relist.DriftRepairIff | internal/controller/resource_watcher.go:170-261 | Over any stored history, perhaps without its oldest revisions: the newest revision matches the listed object after a re-list if and only if it did before, or the latest is a snapshot the counter points at and the new revision is a snapshot or introduces no null; after a patch nothing is recorded |
| Relist.DuplicateDelivery | internal/controller/resource_watcher.go:354-415 | One update recorded by two policies over any stored history: rows of one kind rebuild alike; snapshot then patch if and only if no null is introduced; patch then snapshot if and only if the patch restores the new object from what was rebuilt before, spelled out by location |
| Relist.UpdateReachesDelivered | internal/controller/resource_watcher.go:354-415 | An update recorded over any stored history rebuilds to the delivered object up to nulls if and only if it is a snapshot or what was rebuilt before agrees with it wherever the patch leaves it alone; exactly, if and only if it is the same there and no null is set elsewhere |
| Relist.LateDelivery | internal/controller/resource_watcher.go:354-415 | An update recorded over any newer document: a patch is harmless if and only if that document already holds everything it imposes, a snapshot if and only if nothing newer differs; otherwise every location the update changed, at any depth, is back to the older value |
| RateLimit.RateLimiter.CheckRateLimit | internal/ai/guardrails.go:83-110 | One call: compact, refuse when full, otherwise record |
| RateLimit.RateLimiter.Compact | internal/ai/guardrails.go:95-102 | Filtering in place over the backing array equals filtering the list |
| RateLimit.ListIsRecentLog | internal/ai/guardrails.go:95-108 | After a call the kept list is the full admission log cut to the last sixty seconds |
| RateLimit.AdmittedIff | internal/ai/guardrails.go:104-109 | A request is admitted if and only if fewer than the limit were admitted in the sixty seconds before |
| RateLimit.LimitOff | internal/ai/guardrails.go:84-86 | With a limit of zero or less every request is admitted and nothing is kept |
| RateLimit.WindowBound | internal/ai/guardrails.go:83-110 | Any minute whatever holds at most the limit of admitted requests |
| RateLimit.RefusalConsumesNothing | internal/ai/guardrails.go:104-106 | A refused call changes neither the outcome of the next call nor the list after it |
| Registry.ResourceWatcher.Reconcile | internal/controller/resource_watcher.go:46-74 | Stops the policy's watchers and, unless paused, starts one per resource that parses |
| Registry.ResourceWatcher.StopPolicy | internal/controller/resource_watcher.go:76-88 | Cancels and forgets exactly the watchers whose key has the policy's prefix |
| Registry.ResourceWatcher.StopAll | internal/controller/resource_watcher.go:90-99 | Cancels every registered watcher and forgets all |
| Registry.StopAllStopsIff | internal/controller/resource_watcher.go:90-99 | After any calls StopAll leaves no watcher running if and only if no reconciled policy lists two types that print alike; for such types, the same one twice |
| Registry.BelongsIff | internal/controller/resource_watcher.go:81-83 | For slash-free names the prefix test recognises exactly the policy's own keys |
| Registry.SlashedNameIsStopped | internal/controller/resource_watcher.go:81-83 | With a slash in a name, stopping another policy reaches its watchers |
| Registry.TypeNameInjective | internal/controller/resource_watcher.go:63 | Types with a slash-free group and a comma-free version print alike only when they are the same |
| Registry.LiveIsRegisteredIff | internal/controller/resource_watcher.go:46-88 | After any calls the live watchers are exactly the registered ones if and only if no reconciled policy lists two types that print alike; for such types, the same one twice |
| Registry.RegisteredIffWanted | internal/controller/resource_watcher.go:46-88 | After any calls on slash-free policies such a type is registered if and only if the policy's last Reconcile listed it |
| Registry.RegisteredByName | internal/controller/resource_watcher.go:46-88 | The same for all types, by their printed names |
| Departures.IntroducedNullLost | internal/diff/diff.go:29-45 | The diff from {} to {v: null} does not restore the null |
| Departures.StrandedCounter | internal/controller/resource_watcher.go:289-317 | After a lost insert, a failed record update or a crash between them, a new resource keeps its one revision through all later steps of any handlers |
| Departures.DriftMissed | internal/controller/resource_watcher.go:170-261 | After an add and a patch, a re-list of a changed object records nothing and the newest revision still rebuilds to the old one |
| Departures.DriftSpoilsNext | internal/controller/resource_watcher.go:354-415 | The update after that re-list is recorded as a revision that does not rebuild to the object delivered, even up to nulls |
| Departures.DuplicateWithNullDiffers | internal/controller/resource_watcher.go:377-415 | An update that introduces a null, recorded as a snapshot by one policy and as a patch by another, rebuilds to two different documents |
| Departures.DuplicateAfterLostNull | internal/controller/resource_watcher.go:377-415 | An update that introduces no null, recorded as a patch and as a snapshot after an earlier null was lost, rebuilds to two different documents |
| Departures.PurgeBetweenReadsLies | internal/server/handlers.go:252-274 | Snapshot 1 and patch 2 purged between the two reads: revision 2 comes out as revision 1 |
| Departures.FailedReadAfterPurge | internal/controller/resource_watcher.go:138-318 | After a purge of both revisions an add that cannot read the record stores revision 1 again and sets the counter from 2 to 1 |
| Departures.LateDuplicateHarms | internal/controller/resource_watcher.go:354-415 | The change from 1 to 2 recorded again after 2 to 3: the newest revision rebuilds to 2 |
| Departures.FirstChangeLost | internal/controller/resource_watcher.go:371-413 | An object first seen when it changes: revision 1 is stored and cannot be rebuilt |
| Departures.RepeatedTypeLeaks | internal/controller/resource_watcher.go:56-73 | A policy with one type listed twice leaves a watcher running after StopAll |
| Queries.ClauseBuilder.BuildHistoryWhere | internal/storage/postgres/postgres.go:414-465 | The clause holds one condition and one argument per set field, in order, numbered or positional |
| Queries.ClauseBuilder.BuildResourceListWhere | internal/storage/postgres/postgres.go:467-498 | The same for the resource list |
| Queries.SelectMeans | internal/storage/postgres/postgres.go:165-172 | In either placeholder style the select denotes its filters, and LIMIT and OFFSET take the last two arguments |
| Queries.HistorySelect | internal/storage/sqlite/sqlite.go:144-167 | Both backends select exactly the rows the history query asks for, with the limit asked for or 50, placeholders positional or numbered from 1 in the order of the arguments |
| Queries.ListSelect | internal/storage/sqlite/sqlite.go:261-285 | Both backends select exactly the records the list query asks for, with the limit asked for or 100, placeholders likewise |

## Left out

- JSON text, numbers as floats and the internals of the json-patch library: documents are trees, numbers opaque, arrays values replaced whole as RFC 7386 section 2 says.
- Gzip: compressed bytes are a constructor; decompressing anything else fails. Whether compression succeeds is an input of each handler call.
- Documents that are not JSON objects at the top level in stripping and diffing: the handlers only see Kubernetes objects, and a stored non-object is treated as a failed diff.
- `shouldTrack`, object decoding and deletion tombstones: every modelled event is one the handler tracks.
- Row identifiers and sizes, statistics, and the width of 64-bit revision numbers: revisions are unbounded integers.
- ChangedPaths.PatchKeysPrinted: needs non-empty, dot-free keys, because printed paths run keys together.
- Store.HistoryStore.PurgeExcessRevisions: a negative limit follows SQLite, where it means no limit; Postgres rejects it.
- Queries.ClauseBuilder.BuildHistoryWhere: one builder with a flag stands for both backends' copies of the same code, and the repeated if-blocks are one method.
- The ORDER BY of the two selects and the text of their SQL: a select is its conditions, placeholders and arguments.
- Parsing of API versions and the plural of a kind: a policy's resource is a type or one that does not parse.
- Goroutines and informers of watchers: a watcher is a context that is live until cancelled.
- Documents in runs where a purge interrupts a handler: `Purging` follows numbers and counters through them; in `History`, which follows documents, a purge by age may come between any two events but not in the middle of one, and the purge by count, which nothing calls, comes last.
- Changes of the tables between more than the two reads of a reconstruction: `Retention.PurgeOldHonestIff` and `History` rebuild from one state of the tables.
- Several policies with different settings in one run of `History`: a run has one configuration; `Relist` covers what a second policy adds, `Interleaving` any mix.
- Reads that fail while a run of `History` goes on: its deliveries find a store that answers; `Recorder` and `Interleaving` model failing reads and writes.
- RateLimit.WindowBound: assumes clock readings that never go back, as a monotonic clock gives.
- Policy settings the controller never reads (maxRevisions, IncludeFields, MatchExpressions), HTTP routing, AI prompts and redaction, the user interface: not part of this model.
