# Herder, verified

A Dafny model of the stateful engines of `tools/herder`, and proofs of what they
promise over every input, every run and every interleaving. Files are byte
sequences, times are integers (only their order matters), strings compare byte by
byte, and JSON, transcript classification and sizes are function parameters
constrained only by the laws the code relies on. Code that updates state in place
is a class or a looping method proved equal to a function on values; the theorems
are about those functions.

`dafny verify dfyconfig.toml` checks the whole project.

| file | component |
|---|---|
| `Lines`, `Journal` | complete lines of a file; the append-only event journal, its idempotent appends, crashes and torn-tail repair |
| `Events`, `Projection`, `SessionHistory`, `ProjectionHistory`, `ProjectionPromises`, `LaneHistory`, `UnnamedSessions` | the event fold, what its records mean in terms of the events, and the promises that follow |
| `Snapshot` | loads that open, scan and save while others write, against a full replay |
| `WebState`, `WebStateRuns`, `WebStateDisk`, `StateSweep` | the last-writer-wins browser store, its runs of upserts, sweeps and restarts, and the serve's sweep policy |
| `SessionRead`, `Vitals`, `Observer` | reading a transcript in both directions, the incremental vitals cache, and the observer's session table |
| `FileIndex`, `RosterCache`, `Drain` | the concurrent caches and the drain protocol, as steps at the mutex boundaries |
| `FleetJoin`, `FleetRows`, `FleetBoard`, `FleetShown`, `FleetOnce`, `FleetPlaces` | the join of panes and roster rows, and the board built from it |
| `FoldCheckouts`, `ScreenFrame` | folding checkout copies, and cutting a screen frame |
| `Lanes`, `LaneRules`, `LaneBreaks` | the lane commands, the rules they keep on a settled store, and how they break them on any other |
| `Common`, `Text`, `Sorting`, `Roster` | shared values, string order, stable sorting and sums, roster rows |

Findings, where the code does less than one might expect. Each comes with a
failing run and the exact condition:

- A delete is safe from older writes across purges exactly when its time is positive
  or the namespace already has a horizon (`WebStateRuns.SafeExactlyWhenTimed`; the
  failing run is built by `WebStateRuns.UndoneRun`).
- An expiry of the roster cache reads the clock before it takes the lock and sets its
  mark to that reading. Fresh rows are no older than every expiry's reading, in every
  run with given expiries, exactly when the expiry that landed last carries the
  greatest reading (`RosterCache.FreshExactlyWhenInOrder`); two overlapping launches
  can break it (`RosterCache.OverlappingExpiriesExample`).
- A lane command assigns a seat to a lane in the seat's latest record, which need not
  be the record the seat's roster row reads. Every run of commands keeps the lane
  rules exactly when the store is settled at its start: each roster seat reads the
  record an assignment lands in, and shows no lane borrowed from another seat
  (`LaneBreaks.SafeExactlyWhenSettled`). A seat that was restarted without its end
  being recorded is not settled (`LaneBreaks.UnrecordedEndExample`).
- A journal scan that buffered a torn line, and goes on in the longer line another
  writer put in its place, reads the two as one line: it ends past the new event and
  takes what the merged line says in its place (`Snapshot.TornScanExact`). What a scan
  leaves is true of the file, whatever writers do before it reads on, exactly when
  what it buffered ends within the complete lines
  (`Snapshot.ScanSafeExactlyWhenComplete`, for any torn bytes over which some event
  can be appended that the merged line does not say; one torn byte suffices in
  `Snapshot.TornScanExample`).
- A refused write of the browser store may still be on disk and appear after a
  restart. A restart shows the old rows exactly when the file was not replaced or the
  batch would change nothing (`WebStateDisk.RefusedBatchStaysAway`); a first row that
  is refused and comes back is built by `WebStateDisk.RefusedRowReturns`.
- A roster row whose parents run in a circle, a row naming itself included, is on no
  board at all; every other row is on it exactly once (`FleetOnce.EachRowShownOnce`,
  `FleetOnce.OwnParentVanishes`, with an example in `FleetOnce.VanishingExample`).

## Model

| member | source | states |
|---|---|---|
| `Journal.Store.CompleteEndBlocks` | tools/herder/internal/agentstore/store.go:219-237 | The block-wise backward search finds one past the last newline, for every block size. |
| `Journal.Store.RepairTornTail` | tools/herder/internal/agentstore/store.go:186-213 | Truncates exactly the bytes after the last newline. |
| `Journal.Store.FindId` | tools/herder/internal/agentstore/store.go:241-297 | The last well-formed complete line with the id, with its offset, or nothing exactly when there is none. |
| `Journal.Store.Append` | tools/herder/internal/agentstore/store.go:86-184 | The outcome and the file left behind, for every fate of the writer: death after any prefix of the line, and each refusal. |
| `Journal.Store.Has` | tools/herder/internal/agentstore/store.go:71-107 | Whether a complete record with the id exists once the tail is repaired. |
| `Journal.StepKeepsPrefix` | tools/herder/internal/agentstore/store.go:86-184 | Whatever a writer does or wherever it dies, the complete lines before it stay a prefix of the file. |
| `Journal.StepKeepsRecords` | tools/herder/internal/agentstore/store.go:86-297 | One operation adds at most its own record behind the records on file, and only under a new id. |
| `Journal.TornLine` | tools/herder/internal/agentstore/store.go:169-213 | A line written without its newline leaves no record: repair gives the file back as it was. |
| `Journal.ScannedIsRecorded` | tools/herder/internal/agentstore/store.go:260-297 | An event is visited by a scan at an offset exactly when a complete well-formed line with it starts there. |
| `Journal.AcknowledgedIsRecorded` | tools/herder/internal/agentstore/store.go:117-163 | An acknowledged receipt names an event and offset that are a complete record of the file. |
| `Journal.AcknowledgedForever` | tools/herder/internal/agentstore/store.go:86-297 | Over every run with crashes, an acknowledged record is still at its receipt's offset after any later operations. |
| `Journal.PrefixForever` | tools/herder/internal/agentstore/store.go:86-216 | Complete lines on file at one point of a run are there, unmoved, at every later point. |
| `Journal.IdsStayUnique` | tools/herder/internal/agentstore/store.go:117-163 | Over every run no id ever gets two complete records. |
| `Journal.RepairSparesReceipts` | tools/herder/internal/agentstore/store.go:186-237 | The record of every acknowledged receipt ends at or before the point any later repair cuts at. |
| `Journal.RetryReturnsSameReceipt` | tools/herder/internal/agentstore/store.go:130-150 | Retrying an acknowledged payload, after any later operations, returns the same event at the same offset. |
| `Journal.RetryAfterCrash` | tools/herder/internal/agentstore/store.go:130-163 | A retry after the first writer died is acknowledged: with the earlier record if its line landed whole, else with a new one. |
| `Journal.ConflictChangesNothing` | tools/herder/internal/agentstore/store.go:133-141 | A different payload under a taken id is refused and leaves every record as it was. |
| `Lines.PreviousNewline` | tools/herder/internal/sessionjsonl/reverse.go:232-249 | The block-wise backward search finds the last newline before a position, for every block size. |
| `Lines.ReadLine` | tools/herder/internal/agentstore/store.go:265-297 | One past the next newline, or none exactly when the rest of the file is partial. |
| `Lines.GrowthKeepsComplete` | tools/herder/internal/agentstore/store.go:219-237 | Appending bytes never moves the complete input back and keeps all its boundaries. |
| `Projection.Projection.Apply` | tools/herder/internal/agentstore/projection.go:197-416 | Updating the maps in place is the fold of one event. |
| `Projection.Projection.ApplyBatch` | tools/herder/internal/agentstore/projection.go:216-227 | A batch folds as one creation per named instance, in order. |
| `Projection.Projection.ApplyLane` | tools/herder/internal/agentstore/projection.go:418-446 | Creation is idempotent by id, a rename keeps the former name, and a lead yields only to one at least as late. |
| `Projection.Projection.ApplyToRecord` | tools/herder/internal/agentstore/projection.go:183-245 | The event reaches the incarnation it belongs to, opening one when the latest is closed, and no other record changes. |
| `Projection.Projection.Update` | tools/herder/internal/agentstore/projection.go:246-414 | One event's effect on one record, for every kind. |
| `Projection.Projection.SetLauncher` | tools/herder/internal/agentstore/projection.go:246-262 | A launcher is set once; only a mirror's attribution gives way, and the manager follows until one is assigned. |
| `Projection.Projection.AssignTo` | tools/herder/internal/agentstore/projection.go:361-371 | Group, lane and manager each keep the assignment with the latest time, later folds winning ties. |
| `Projection.Projection.Sessions` | tools/herder/internal/agentstore/projection.go:330-412 | How resume and the session events open, end and supersede the record's sessions. |
| `Projection.Projection.EndNamedSession` | tools/herder/internal/agentstore/projection.go:501-511 | Ends the newest session with the id when it is still open, and nothing else. |
| `LaneHistory.LanesAreHistory` | tools/herder/internal/agentstore/projection.go:418-446 | After any events a lane exists exactly when it was created; its lead is the last-folded among the greatest-time leads, creation included, and its names are those it was given, in order. |
| `LaneHistory.CollapseMeans` | tools/herder/internal/agentstore/projection.go:418-446 | The names kept: every name given, none right after itself, the last given last. |
| `UnnamedSessions.UnnamedIsHistory` | tools/herder/internal/agentstore/projection.go:483-499 | After any events a session without a seat name has a record exactly when it was sighted, and the record holds its first sighting's session and time, the last path given and the first ending. |
| `UnnamedSessions.UnnamedEndsForever` | tools/herder/internal/agentstore/projection.go:483-499 | Whatever events follow, such a session keeps its id and start, and any ending it had. |
| `UnnamedSessions.EventSights` | tools/herder/internal/agentstore/projection.go:197-233 | An event changes the record of the one unnamed session it sights, and no other. |
| `ProjectionHistory.FoldIsHistory` | tools/herder/internal/agentstore/projection.go:183-414 | After any events, the records of a name are exactly the summaries of that name's lives, and every request record is what its history says. A summary tells every field from the life's events, without the fold. |
| `SessionHistory.SessionsStep` | tools/herder/internal/agentstore/projection.go:291-544 | Sessions told from the events of a life step as the code's do, for every kind: a stretch of events begins where another session is offered, is one session with the last path observed in it, and ends with its first ending or with the next stretch. |
| `SessionHistory.FirstEndMeans` | tools/herder/internal/agentstore/projection.go:501-511 | The ending of a session is given by an event of its stretch before which none gives one. |
| `ProjectionHistory.TimesMean` | tools/herder/internal/agentstore/projection.go:183-245 | FirstSeen and LastSeen of a life are the least and greatest times of its events, each of them attained. |
| `ProjectionHistory.LatestIndexMeans` | tools/herder/internal/agentstore/projection.go:361-371 | The holder of a register is the last-folded among the assignments with the greatest time. |
| `ProjectionHistory.AbsorbSummary` | tools/herder/internal/agentstore/projection.go:197-414 | Folding one more event into a record gives the summary of the longer life, field by field. |
| `ProjectionHistory.FreshSummary` | tools/herder/internal/agentstore/projection.go:183-195 | A new record with its first event is the summary of a one-event life. |
| `ProjectionPromises.LivesPartition` | tools/herder/internal/agentstore/projection.go:183-195 | The lives of a name, in order, are its whole history: every event is in exactly one. |
| `ProjectionPromises.EarlierLivesClosed` | tools/herder/internal/agentstore/projection.go:183-195 | Every life but the last is closed. |
| `ProjectionPromises.LivesGrow` | tools/herder/internal/agentstore/projection.go:183-195 | One more event lengthens the last life or opens another and touches no earlier one. |
| `ProjectionPromises.IncarnationFacts` | tools/herder/internal/agentstore/projection.go:183-245 | In every record after any events: all but the last are closed, FirstSeen and LastSeen are the extreme event times, and the kept events are the last min(32, count) folded into it. |
| `ProjectionPromises.NeverReopens` | tools/herder/internal/agentstore/projection.go:183-195 | Whatever events follow, no incarnation disappears, changes place or reopens. |
| `ProjectionPromises.SessionStepContinues` | tools/herder/internal/agentstore/projection.go:291-413 | Every event kind leaves ended sessions ended, in place, and opens at most one session on top. |
| `ProjectionPromises.SessionsNeverReopen` | tools/herder/internal/agentstore/projection.go:501-544 | Within a record every session but the newest has ended, and whatever follows no ended session reopens. |
| `ProjectionPromises.RegisteredLauncherForever` | tools/herder/internal/agentstore/projection.go:246-262 | A launcher attributed by anything but a mirror is the launcher of that record for ever. |
| `ProjectionPromises.ManagerIsLatestOrLauncher` | tools/herder/internal/agentstore/projection.go:246-262 | The manager is the launcher until the first explicit assignment, and from then on the latest assignment's. |
| `ProjectionPromises.LaneIsLatest` | tools/herder/internal/agentstore/projection.go:365-367 | The lane is unset until the first assignment of one, and from then on the latest assignment's. |
| `ProjectionPromises.HolderIgnoresOrder` | tools/herder/internal/agentstore/projection.go:361-371 | With distinct times, who holds a register does not depend on the order of the facts. |
| `ProjectionPromises.AssignmentOrderIrrelevant` | tools/herder/internal/agentstore/projection.go:361-371 | Two histories whose lives of a name hold the same assignments, in whatever orders and among whatever other events, leave the same lane and the same manager, as long as no two different assignments carry one time. |
| `ProjectionPromises.RegisterIgnoresOrder` | tools/herder/internal/agentstore/projection.go:361-371 | Who holds a register is settled by which events set it, whatever else the life holds. |
| `ProjectionPromises.FinalAssignmentsCommute` | tools/herder/internal/agentstore/projection.go:361-371 | After any history, a block of assignments with distinct times leaves the same manager and lane in every order. |
| `Snapshot.Reader.ScanFrom` | tools/herder/internal/agentstore/store.go:265-297 | The events of every complete well-formed line from a boundary on, and where complete input ends. |
| `Snapshot.Reader.HasCandidate` | tools/herder/internal/agentstore/snapshot.go:78-103 | Whether any launch-ready event could alias a base-name record. |
| `Snapshot.Reader.ReplayAll` | tools/herder/internal/agentstore/snapshot.go:31-63 | The fold of every event from byte 0 with the complete end as offset; a journal with an alias candidate is reported apart. |
| `Snapshot.Reader.LoadOnly` | tools/herder/internal/agentstore/snapshot.go:142-196 | Snapshot plus tail when the snapshot's offset is a boundary of the file, else a replay; also a replay when the tail mirrors an unknown name. |
| `Snapshot.Reader.OpenSnapshot` | tools/herder/internal/agentstore/snapshot.go:170-196 | Opens the snapshot exactly when its offset is a record boundary of the file. |
| `Snapshot.Reader.ScanOnce` | tools/herder/internal/agentstore/snapshot.go:142-168 | One scan gives the projection and offset of the tail on an opened snapshot, or asks for a replay; or it gives the replay. |
| `Snapshot.Reader.SaveSnapshot` | tools/herder/internal/agentstore/snapshot.go:18-26 | A finished load's result becomes the snapshot when the write succeeds. |
| `Snapshot.LoadIsReplay` | tools/herder/internal/agentstore/snapshot.go:142-168 | With the file to itself, a load from a snapshot that describes a prefix of the journal gives exactly the projection and offset of a replay. |
| `Snapshot.WriteKeepsHeld` | tools/herder/internal/agentstore/store.go:86-216 | No append, crash or repair falls below the offset of a projection taken earlier or changes what precedes it. |
| `Snapshot.ScanIsReplay` | tools/herder/internal/agentstore/snapshot.go:142-168 | A scan on such a projection, made at any later time, gives the replay of the file as it is then. |
| `Snapshot.NoCandidateEarlier` | tools/herder/internal/agentstore/snapshot.go:78-103 | With unique ids, a journal without alias candidates had none at any earlier length. |
| `Snapshot.SnapshotEqualsReplay` | tools/herder/internal/agentstore/snapshot.go:18-63 | Over every run of appends, crashes and repairs, and of loads that open, scan and save at any times in between: loading equals replaying, whatever snapshot was left, and the snapshot's offset is within the repaired file. |
| `Snapshot.OverlappingLoadIsReplay` | tools/herder/internal/agentstore/snapshot.go:18-63 | A load that overlaps writes and other loads finishes with the replay of the file as it is at its last scan. |
| `Snapshot.MixedIsLater` | tools/herder/internal/agentstore/store.go:265-297 | A scan that buffered complete lines alone before some writes reads the later file. |
| `Snapshot.TornScanExact` | tools/herder/internal/agentstore/store.go:265-297 | A scan that buffered a torn line and goes on in the longer line written over it ends past the new event, reads what the merged line says in its place, and leaves a true projection exactly when both fold alike. |
| `Snapshot.TornBufferIsUnsafe` | tools/herder/internal/agentstore/store.go:265-297 | A buffer that ends in a torn line leads to an untrue projection after some run of writers. |
| `Snapshot.ScanSafeExactlyWhenComplete` | tools/herder/internal/agentstore/store.go:186-297 | A scan leaves a projection true of the file after every run of writers if and only if what it buffered ends within the complete lines. |
| `Snapshot.TornScanExample` | tools/herder/internal/agentstore/store.go:265-297 | A concrete codec, one torn byte and one append: the scan that buffered the byte is not safe. |
| `WebState.BeatsIsStrictOrder` | tools/herder/internal/webstate/store.go:74-88 | The write order is a strict total order on (updated, write id). |
| `WebState.Namespace.UpsertRows` | tools/herder/internal/webstate/store.go:182-258 | The whole outcome of a batch, the rows in memory and the rows on file, refusals and every way a save can end included. |
| `WebState.Namespace.Restart` | tools/herder/internal/webstate/store.go:154-180 | A new process holds what the file holds. |
| `WebState.Namespace.Gather` | tools/herder/internal/webstate/store.go:194-212 | The first refused row refuses the batch; else each key's greatest row, keys in order of first appearance. |
| `WebState.Namespace.Screen` | tools/herder/internal/webstate/store.go:214-227 | Which creates are at or below the horizon and how many rows would be new. |
| `WebState.Namespace.StoreWinners` | tools/herder/internal/webstate/store.go:232-248 | Stores exactly the winners that are not stale and beat what is stored, one revision each. |
| `WebState.Namespace.Since` | tools/herder/internal/webstate/store.go:260-287 | The rows changed after a cursor, or all rows when the cursor is below the floor, in order of revision, each once. |
| `WebState.Namespace.SweepRows` | tools/herder/internal/webstate/sweep.go:78-117 | The survivors, the raised horizon and the floor, in memory when saved and on file when the file was replaced; nothing changes when nothing is removed or the save fails before that. |
| `WebState.Namespace.Survivors` | tools/herder/internal/webstate/sweep.go:92-104 | Keeps exactly the rows the policy spares, counts the removed and finds the newest purged tombstone's time. |
| `WebStateRuns.UpsertPerKey` | tools/herder/internal/webstate/store.go:194-257 | What a batch does to one key: the greatest of the stored row and the batch's rows for it, unless it is a stale create. |
| `WebStateRuns.AcceptedMeansChanged` | tools/herder/internal/webstate/store.go:236-257 | The accepted keys are exactly those whose stored row changed, and the revision grew by their number. |
| `WebStateRuns.StepKeepsValid` | tools/herder/internal/webstate/store.go:95-108 | Every upsert and sweep keeps row revisions distinct and none above the namespace revision. |
| `WebStateRuns.DeltasAreExact` | tools/herder/internal/webstate/store.go:260-287 | For every run and every earlier cursor: at or above the floor, the rows held then overlaid with the answer are exactly the current rows; below it, the answer is all of them. |
| `WebStateRuns.AnswerIsWhole` | tools/herder/internal/webstate/store.go:260-287 | An answer to a cursor below the floor is every current row and nothing else. |
| `WebStateRuns.BatchesHoldMaxima` | tools/herder/internal/webstate/store.go:194-257 | With no sweep and no refusal, the store holds the per-key maximum of all the writes. |
| `WebStateRuns.WritesConverge` | tools/herder/internal/webstate/store.go:74-88 | Any ordering, duplication and batching of the same writes leaves the same rows. |
| `WebStateRuns.ReplayChangesNothing` | tools/herder/internal/webstate/store.go:194-257 | Replaying a batch that was not refused stores nothing and changes nothing. |
| `WebStateRuns.DeletedStaysDeleted` | tools/herder/internal/webstate/store.go:214-248 | In a run whose sweeps remove no live row and raise the horizon, every row stored for a key after a positive-time delete beats that delete, across purges. |
| `WebStateRuns.SafeExactlyWhenTimed` | tools/herder/internal/webstate/sweep.go:92-114 | A stored delete is never undone by an older write, in any such run, if and only if its time is positive or the horizon is. |
| `WebStateRuns.UndoneRun` | tools/herder/internal/webstate/sweep.go:92-114 | The failing run for an untimed delete: the sweep purges it and an older row is stored again. |
| `WebStateDisk.UpsertDoes` | tools/herder/internal/webstate/store.go:289-334 | A batch is one step on memory and file, however its save ends. |
| `WebStateDisk.RefusedBatchStaysAway` | tools/herder/internal/webstate/store.go:289-334 | A restart after a batch whose save failed shows the old rows if and only if the file was not replaced or the batch would change nothing. |
| `WebStateDisk.FailedSweepStaysAway` | tools/herder/internal/webstate/sweep.go:78-117 | A restart after a failed sweep shows the old rows if and only if the file was not replaced or nothing was to be swept. |
| `WebStateDisk.RefusedRowReturns` | tools/herder/internal/webstate/store.go:289-334 | The failing run: a first valid row is refused because its save failed after the file was replaced, and a restart brings it. |
| `WebStateDisk.RestartsAreLateSaves` | tools/herder/internal/webstate/store.go:289-334 | What a process holds over any run with restarts, refused writes that reached the file included, is a run of the same operations, a landed one made at the restart. |
| `WebStateDisk.DeltasExactAcrossRestarts` | tools/herder/internal/webstate/store.go:260-287 | Deltas stay exact for every earlier cursor across restarts. |
| `WebStateDisk.DeletedAcrossRestarts` | tools/herder/internal/webstate/sweep.go:92-114 | A timed delete stays deleted across restarts. |
| `StateSweep.CollectPresent` | tools/herder/internal/servecmd/statesweep.go:51-57 | The names a sweep takes as present: every roster row's name and non-empty base name. |
| `StateSweep.OwnerContentStaysDeleted` | tools/herder/internal/servecmd/statesweep.go:50-81 | Under the serve's own sweep policy, a namespace that holds the owner's content never brings a deleted row back. |
| `StateSweep.OwnerPolicy` | tools/herder/internal/servecmd/statesweep.go:50-81 | The policy for such a namespace removes no live row and raises the horizon. |
| `SessionRead.FindCompleteEnd` | tools/herder/internal/sessionjsonl/reverse.go:214-230 | One past the last newline, for every block size. |
| `SessionRead.CountLines` | tools/herder/internal/sessionjsonl/reverse.go:153-174 | The number of newlines before an offset, for every block size. |
| `SessionRead.ScanBackward` | tools/herder/internal/sessionjsonl/reverse.go:120-151 | The last entries before an offset, each with its line number and byte offset, until the limit or the start. |
| `SessionRead.ReadForward` | tools/herder/internal/claudesession/read.go:110-171 | A forward window: the entries from an offset, where the next one starts, and the errors for bad offsets. |
| `SessionRead.ReadTail` | tools/herder/internal/claudesession/read.go:249-262 | The last entries of the complete input, and the offset of the first of them. |
| `SessionRead.ReadBefore` | tools/herder/internal/claudesession/read.go:306-349 | A backward page from a cursor; a reset for a foreign session or an offset past the end; an error for a bad limit or an offset that is no record boundary. |
| `SessionRead.EntriesStable` | tools/herder/internal/claudesession/read.go:110-171 | Entries of a growing file stay as they are: same lines, same offsets. |
| `SessionRead.CutAtEntry` | tools/herder/internal/claudesession/read.go:130-160 | An entry's offset splits the entry list at that entry. |
| `SessionRead.ForwardAdvances` | tools/herder/internal/claudesession/read.go:110-171 | A full forward page ends strictly later, at a boundary, and leaves exactly the entries that follow it. |
| `SessionRead.BackwardIsLast` | tools/herder/internal/claudesession/read.go:276-286 | A backward page holds the last entries before its cursor. |
| `SessionRead.BackwardRetreats` | tools/herder/internal/claudesession/read.go:306-328 | A backward page that does not reach the start ends strictly earlier and leaves exactly the older entries. |
| `SessionRead.ForwardPagesAreAll` | tools/herder/internal/claudesession/read.go:96-171 | Forward pages from any boundary, for every positive limit, together are all entries from there; the paging ends. |
| `SessionRead.BackwardPagesAreAll` | tools/herder/internal/claudesession/read.go:290-328 | Backward pages down to offset 0, for every positive limit, together are all entries before the start; the paging ends. |
| `SessionRead.ReadersAgree` | tools/herder/internal/claudesession/read.go:82-171 | One read from 0, forward pages and backward pages give the same entries with the same lines and offsets, and a tail is the last of them. |
| `Vitals.ReadVitals` | tools/herder/internal/claudesession/read.go:185-203 | The newest-first read with early stop equals folding every complete record in order. |
| `Vitals.AdvanceTail` | tools/herder/internal/sessionvitals/tail.go:37-81 | Folds exactly the complete records past the offset, or reports that the file shrank. |
| `Vitals.AdvanceIsDirect` | tools/herder/internal/sessionvitals/tail.go:37-81 | Advancing a cache that holds the records before its offset gives the direct read of the file. |
| `Vitals.TailEqualsDirect` | tools/herder/internal/sessionvitals/tail.go:25-81 | For a file grown in arbitrary chunks, a seed and any choice of advances hold the same vitals as a direct read of the complete records. |
| `Observer.Observer.Seed` | tools/herder/internal/observer/session.go:90-108 | A session becomes tailing with the direct read, or keeps waiting for its file. |
| `Observer.Observer.AdvanceOne` | tools/herder/internal/observer/session.go:112-136 | A tailing session takes the tail's result, is seeded anew when the file shrank, and waits when it is gone. |
| `Observer.Observer.Refresh` | tools/herder/internal/observer/session.go:140-153 | What one refresh does in each phase. |
| `Observer.Observer.OnPaths` | tools/herder/internal/observer/discover.go:103-125 | A change batch refreshes exactly the sessions it names and those still awaiting a file, each reading its file in its own turn. |
| `Observer.Observer.SweepAll` | tools/herder/internal/observer/discover.go:127-147 | The safety pass refreshes waiting sessions and those whose file changed size, and notices missing files, each in its own turn. |
| `Observer.Observer.End` | tools/herder/internal/observer/discover.go:66-76 | Ends one session, once. |
| `Observer.Observer.SyncRoster` | tools/herder/internal/observer/discover.go:19-64 | The table after reconciling with a roster, row by row: kept, moved, new and ended sessions, and expired ones dropped. |
| `Observer.ActKeepsTable` | tools/herder/internal/observer/discover.go:19-147 | Every step of the observer and every growth of a file keeps each cached entry the direct read of a complete prefix. |
| `Observer.CacheNeverDrifts` | tools/herder/internal/observer/discover.go:19-147 | Over every interleaving of file growth, sync, change and sweep steps, growth between the sessions of one pass included, each tailing session holds the direct read of a complete prefix of its transcript: no record skipped or folded twice. |
| `Observer.SweepCatchesUp` | tools/herder/internal/observer/discover.go:127-147 | After a sweep every tailing session answers what a direct read would have when its turn came. |
| `Observer.ChangeCatchesUp` | tools/herder/internal/observer/discover.go:103-125 | After a change batch, so does every tailing session whose path was in it. |
| `Observer.SweepKeepsTailing` | tools/herder/internal/observer/discover.go:127-147 | While its transcript exists a tailing session stays tailing through a sweep. |
| `FileIndex.Index.StartLocked` | tools/herder/internal/fileindex/index.go:151-174 | Starts the root's one load under a fresh number. |
| `FileIndex.Index.Candidates` | tools/herder/internal/fileindex/index.go:102-125 | Answers from the cache, starting a refresh past the time to live, or waits for the one load. |
| `FileIndex.Index.Forced` | tools/herder/internal/fileindex/index.go:130-147 | A forced lookup waits out a load already running, else starts its own. |
| `FileIndex.Index.ForcedAgain` | tools/herder/internal/fileindex/index.go:139-147 | After waiting out the old load it joins or starts a newer one. |
| `FileIndex.Index.Land` | tools/herder/internal/fileindex/index.go:157-171 | A finished load publishes its outcome and clears its flight; a failure also drops the cached list. |
| `FileIndex.StepKeeps` | tools/herder/internal/fileindex/index.go:102-186 | Every step keeps the single flight per root, the cache's tie to the newest finished load, and each call's promise. |
| `FileIndex.AtMostOneInFlight` | tools/herder/internal/fileindex/index.go:151-174 | Over every interleaving each root has at most one load in flight. |
| `FileIndex.OutcomesAreFinal` | tools/herder/internal/fileindex/index.go:176-186 | A finished load keeps its outcome for the rest of the run. |
| `FileIndex.AnswersAreFinalAndFresh` | tools/herder/internal/fileindex/index.go:130-186 | Every answered call has the final outcome of its own load, and a forced call's load began after the call. |
| `FileIndex.CallStamp` | tools/herder/internal/fileindex/index.go:130-147 | The mark a call carries is the number of loads begun before it. |
| `FileIndex.CachedListIsNewest` | tools/herder/internal/fileindex/index.go:102-174 | A cached list is always the newest finished load's, and a failed load leaves none. |
| `FileIndex.StaleWhileRefresh` | tools/herder/internal/fileindex/index.go:111-118 | A lookup of a cached root never waits, and past the time to live it leaves a refresh in flight. |
| `RosterCache.Cache.SetRows` | tools/herder/internal/servecmd/serve.go:151-180 | An observation older than the cached one is refused; an accepted one replaces the rows and extends the memory of names. |
| `RosterCache.Cache.Fresh` | tools/herder/internal/servecmd/serve.go:201-215 | The cached rows exactly when their observation is within the bound and not before the last change. |
| `RosterCache.Cache.MarkChanged` | tools/herder/internal/servecmd/serve.go:217-225 | The mark before which observations are stale becomes the clock reading the expiry made before it had the lock. |
| `RosterCache.MemoryMeans` | tools/herder/internal/servecmd/serve.go:151-180 | A base name is remembered as n exactly when rows with it came and all were named n. |
| `RosterCache.RememberedExactly` | tools/herder/internal/servecmd/serve.go:151-180 | Over every run, with non-empty names, a base name is remembered as n exactly when every accepted row with it was named n. |
| `RosterCache.ObservationNeverGoesBack` | tools/herder/internal/servecmd/serve.go:151-180 | Whatever order overlapping fetches finish in, the cached observation time never goes back. |
| `RosterCache.CachedIsNewest` | tools/herder/internal/servecmd/serve.go:151-180 | The cached rows are those of the newest observation accepted so far. |
| `RosterCache.FreshIsFresh` | tools/herder/internal/servecmd/serve.go:201-225 | Rows from a fresh read come from a fetch begun within the bound and no earlier than the reading of the expiry that landed last; and no earlier than any expiry's reading, when that one is the greatest. |
| `RosterCache.FreshExactlyWhenInOrder` | tools/herder/internal/servecmd/serve.go:201-225 | In every timely run with given expiries fresh rows are no older than every expiry's reading, if and only if the one that landed last carries the greatest. |
| `RosterCache.StaleRun` | tools/herder/internal/servecmd/serve.go:217-225 | The failing run for expiries out of order: a fetch begun at the last one's reading is served fresh. |
| `RosterCache.OverlappingExpiriesExample` | tools/herder/internal/servecmd/serve.go:217-225 | Two overlapping expiries and a fetch for which that happens. |
| `RosterCache.ApartIsInOrder` | tools/herder/internal/servecmd/serve.go:217-225 | Expiries that do not overlap are in order. |
| `Drain.DrainingHandler.Begin` | tools/herder/internal/servecmd/serve.go:794-819 | Admits a request or refuses it while draining, with a new idle channel when it is the only one. |
| `Drain.DrainingHandler.Finish` | tools/herder/internal/servecmd/serve.go:820-829 | The last request to leave closes the idle channel, which is still open then. |
| `Drain.DrainingHandler.Drain` | tools/herder/internal/servecmd/serve.go:833-841 | Stops admission, takes the cancel of every stream on file and returns the idle channel. |
| `Drain.DrainingHandler.CancelNext` | tools/herder/internal/servecmd/serve.go:842-844 | Calls one of the taken cancels, without the lock. |
| `Drain.IdleExactlyWhenInactive` | tools/herder/internal/servecmd/serve.go:788-831 | Over every interleaving the idle channel is closed exactly when no request is active, and no channel is closed twice or reopened. |
| `Drain.NoAdmissionAfterDrain` | tools/herder/internal/servecmd/serve.go:794-846 | Once draining, no request is admitted and the idle channel stays the one the drain returned. |
| `Drain.DrainChannelClosesAtLast` | tools/herder/internal/servecmd/serve.go:794-846 | The channel a drain returned is closed exactly when every request admitted before it has finished; every stream still running was cancelled or its cancel is still to be called. |
| `FleetJoin.ValidateSnapshot` | tools/herder/internal/fleetview/fleet.go:327-356 | Accepts exactly the snapshots with no gap from agent to pane to tab to workspace. |
| `FleetJoin.ValidateRoster` | tools/herder/internal/fleetview/fleet.go:360-373 | Accepts exactly the rosters in which no pane is claimed twice. |
| `FleetJoin.Correlate` | tools/herder/internal/fleetview/fleet.go:379-437 | What is placed at each pane, who claimed it, and which sessions pair a pane with a row unambiguously. |
| `FleetJoin.MatchSessions` | tools/herder/internal/fleetview/fleet.go:414-437 | A pane and a row are paired exactly when both have an identity nobody else has, the pane is unclaimed and the row has no live claim. |
| `FleetJoin.JoinRows` | tools/herder/internal/fleetview/fleet.go:378-480 | The rows are, sorted, one per roster row at each placement, one for a placement with none, and one for each roster row at none. |
| `FleetRows.EveryRowOnce` | tools/herder/internal/fleetview/fleet.go:378-480 | For a validated snapshot every roster row is emitted exactly once. |
| `FleetRows.OnePlace` | tools/herder/internal/fleetview/fleet.go:405-437 | For a validated snapshot no roster row is at two panes. |
| `FleetRows.RowsAreTrue` | tools/herder/internal/fleetview/fleet.go:438-472 | Every emitted row is a placement nobody on the bus is at, a roster row where it is, or a roster row that is nowhere. |
| `FleetRows.EveryPlacementShown` | tools/herder/internal/fleetview/fleet.go:438-466 | No placement is dropped: its pane has one row per roster row there, and one when there is none. |
| `FleetRows.OneRowPerPane` | tools/herder/internal/fleetview/fleet.go:360-466 | With a validated roster a pane has at most one row. |
| `FleetRows.RowsAreOrdered` | tools/herder/internal/fleetview/fleet.go:473-479 | Rows come out in order of pane, then agent. |
| `FleetBoard.BuildIndex` | tools/herder/internal/fleetview/fleet.go:486-510 | The index of rows by agent, of children by parent name and of proven children. |
| `FleetBoard.PlaceRows` | tools/herder/internal/fleetview/fleet.go:533-548 | Which trees go to which pane and which stay unplaced. |
| `FleetBoard.Build` | tools/herder/internal/fleetview/fleet.go:484-591 | The board is assembled from the join; attaching children ends on every roster, circular ones included. |
| `FleetShown.AttachCount` | tools/herder/internal/fleetview/fleet.go:511-532 | The tree of a row whose parents end counts each of its descendants once and nothing else. |
| `FleetOnce.EachRowShownOnce` | tools/herder/internal/fleetview/fleet.go:484-591 | With validated inputs, distinct ids and names and known statuses, the board shows a roster row exactly once if its parents end, and never if they run in a circle. |
| `FleetOnce.OwnParentVanishes` | tools/herder/internal/fleetview/fleet.go:494-510 | A row that is its own parent is on no board. |
| `FleetOnce.VanishingExample` | tools/herder/internal/hcomidentity/identity.go:58-77 | A roster the validators accept in which a row is its own parent. |
| `FleetPlaces.EachRowInPlace` | tools/herder/internal/fleetview/fleet.go:511-591 | Every pane shows the row the join put there, every unplaced row has no pane, and under each row are exactly its children. |
| `Roster.FindUniqueBase` | tools/herder/internal/hcomidentity/identity.go:67-77 | The one row exposing a base name, or none when none or several do. |
| `Roster.UniqueBaseMeans` | tools/herder/internal/hcomidentity/identity.go:58-77 | A unique base name picks the row at the only index that exposes it. |
| `FoldCheckouts.FoldRanked` | tools/herder/internal/fileresolver/resolver.go:263-310 | The loop with an index of groups shows each group of the fold, in order. |
| `FoldCheckouts.FoldLosesNothing` | tools/herder/internal/fileresolver/resolver.go:263-310 | Each (root, path, kind) is shown or folded as often as it was ranked, and the sum of 1 + also is the number of ranked hits. |
| `FoldCheckouts.GroupsKeepRank` | tools/herder/internal/fileresolver/resolver.go:263-295 | Groups stay in ranked order of their first hit, and an anchored hit is never folded away. |
| `FoldCheckouts.OneUnanchoredPerKey` | tools/herder/internal/fileresolver/resolver.go:263-295 | At most one unanchored result remains per repository, path and kind. |
| `FoldCheckouts.CopiesBelong` | tools/herder/internal/fileresolver/resolver.go:263-295 | A folded copy is unanchored and in the same repository, path and kind as its winner. |
| `FoldCheckouts.WinnerRule` | tools/herder/internal/fileresolver/resolver.go:296-310 | The main checkout wins exactly when the first hit is neither anchored, the context root nor main and a main copy was folded; the list of other roots is capped. |
| `ScreenFrame.LineBoundaries` | tools/herder/internal/servecmd/screens.go:139-187 | The cuts are exactly the positions after a newline with the escape recogniser in its ground state. |
| `ScreenFrame.EncodeScreenEvent` | tools/herder/internal/servecmd/screens.go:65-137 | Every frame sent fits; one that fits is sent whole, one that does not carries the longest prefix at a cut that fits, or the longest detail, bytes that are no UTF-8 replaced. |
| `ScreenFrame.CutText` | tools/herder/internal/servecmd/screens.go:81-103 | The binary search finds the largest cut that fits. |
| `ScreenFrame.CutDetail` | tools/herder/internal/servecmd/screens.go:111-127 | The binary search finds the longest detail that fits, over its runes. |
| `ScreenFrame.LaterCutsAreLarger` | tools/herder/internal/servecmd/screens.go:65-137 | A later cut never makes a smaller event, so the binary search is the linear maximum. |
| `Lanes.Desk.FindSeat` | tools/herder/internal/lanecmd/lane.go:249-259 | A seat argument's one identity: a roster name, the row of a unique base name, or itself. |
| `Lanes.Desk.FindRecord` | tools/herder/internal/agentstore/projection.go:580-599 | The first incarnation not closed before the row's creation time, unless it is an earlier life of the name. |
| `Lanes.Desk.FindRowLane` | tools/herder/internal/agentstore/projection.go:665-688 | A roster row's lane, filled from the base-name record when the row alone owns that base name. |
| `Lanes.Desk.FindLane` | tools/herder/internal/lanecmd/lane.go:263-270 | A seat's lane by its roster row, else by its latest record. |
| `Lanes.Desk.CheckLive` | tools/herder/internal/agentstore/projection.go:467-481 | Whether a lane has a live member, a subagent following its proved parent. |
| `Lanes.Desk.CheckName` | tools/herder/internal/lanecmd/lane.go:237-244 | Whether another lane with a live member has the name, case folded. |
| `Lanes.Desk.CheckLeaving` | tools/herder/internal/lanecmd/lane.go:274-283 | Whether moving the seat would take a lane's lead out of it. |
| `Lanes.Desk.Resolve` | tools/herder/internal/lanecmd/lane.go:207-234 | The lane with the id, else the only lane with the name, else the only live one; none exactly when no lane qualifies. |
| `Lanes.Desk.New` | tools/herder/internal/lanecmd/lane.go:321-341 | The store after a new lane, or unchanged on refusal. |
| `Lanes.Desk.RenameLane` | tools/herder/internal/lanecmd/lane.go:343-356 | The store after a rename, or unchanged on refusal. |
| `Lanes.Desk.SetLaneLead` | tools/herder/internal/lanecmd/lane.go:358-379 | The store after a new lead, moved in first when needed, or unchanged on refusal. |
| `Lanes.Desk.MoveSeat` | tools/herder/internal/lanecmd/lane.go:381-397 | The store after a move, or unchanged on refusal. |
| `LaneRules.SeatNameStable` | tools/herder/internal/lanecmd/lane.go:249-259 | Resolving a seat's identity again changes nothing. |
| `LaneRules.AssignSeen` | tools/herder/internal/agentstore/projection.go:580-599 | An assignment shows in the record a row reads exactly when the row reads the record it lands in; else the row reads what it read before. |
| `LaneRules.AssignToward` | tools/herder/internal/agentstore/projection.go:467-481 | On any store an assignment moves roster rows to its lane or not at all. |
| `LaneRules.AssignLands` | tools/herder/internal/agentstore/projection.go:365-367 | On a settled store an assignment puts the seat in the lane, moves no other seat, and leaves the store settled. |
| `LaneRules.AssignKeeps` | tools/herder/internal/lanecmd/lane.go:381-397 | On a settled store a permitted move keeps leads in their lanes and live names apart. |
| `LaneRules.NewLaneKeeps` | tools/herder/internal/lanecmd/lane.go:321-341 | So does a permitted new lane. |
| `LaneRules.RenameKeeps` | tools/herder/internal/lanecmd/lane.go:343-356 | A permitted rename does on any store. |
| `LaneRules.SetLeadKeeps` | tools/herder/internal/lanecmd/lane.go:358-379 | On a settled store so does a permitted change of lead, and the lane's lead is then the seat named. |
| `LaneRules.ExecuteKeeps` | tools/herder/internal/lanecmd/lane.go:237-397 | Every command, accepted or refused, keeps the rules and keeps the store settled. |
| `LaneRules.LaneRulesHold` | tools/herder/internal/lanecmd/lane.go:237-397 | From a settled store, over every serial run by a clock that never goes back: each lead is a member of its lane, no seat leads two lanes, and no two live lanes share a case-folded name. |
| `LaneRules.MoveMoves` | tools/herder/internal/lanecmd/lane.go:381-397 | On a settled store an accepted move puts the seat in the lane and moves no other seat. |
| `LaneRules.EmptyStoreSettled` | tools/herder/internal/lanecmd/lane.go:161-168 | A store with no events is settled for rows that began by now and whose base names are no other row's name. |
| `LaneBreaks.SafeExactlyWhenSettled` | tools/herder/internal/lanecmd/lane.go:237-397 | From a store that keeps the rules, while three lane names are to be had, every run of commands keeps them if and only if the store is settled. |
| `LaneBreaks.StaleRowBreaks` | tools/herder/internal/agentstore/projection.go:580-599 | Where a roster seat does not read the record its assignments land in, commands lead to a lane whose lead is not its member. |
| `LaneBreaks.BorrowerBreaks` | tools/herder/internal/agentstore/projection.go:665-688 | Where a roster seat shows a lane borrowed from another seat, so do commands. |
| `LaneBreaks.UnseenAssignment` | tools/herder/internal/lanecmd/lane.go:321-341 | A new lane led by such a seat has a lead that is not its member. |
| `LaneBreaks.UnrecordedEndExample` | tools/herder/internal/agentstore/projection.go:573-579 | A seat restarted without its end being recorded is such a seat, and the new lane is accepted. |

## Left out

- Alias repair in `replayAliases`: a journal with an alias candidate is reported as such and excluded from the snapshot theorem, because the repair looks across the whole log.
- Descriptive record fields (provenance, model, effort, placement, pane, directory, batch, notes, titles, request provenance) and lane links and repositories: carried unread or dropped.
- `Event.Validate`, lane-name validation and the flag parsers: a predicate parameter or dropped.
- JSON encoding and decoding: an inverse pair whose line holds exactly one newline, at its end; malformed lines are skipped as the code skips them.
- Transcript classification and vitals extraction: function parameters; the codex reader repeats the window code modelled here.
- Power loss and fsync: a writer may die after any prefix of its line, but written bytes are not lost.
- `importEdges`, the one-time import of older state.
- Sharing of record pointers inside the projection: records are values in maps.
- Lane commands that overlap: runs are serial, each command folding the store the one before left, over one roster.
- The rest of a roster view (binding, tool, tag, joined events): only its lane is modelled.
- `Snapshot.SnapshotEqualsReplay`: assumes that the journal's ids are unique to begin with, that no launch-ready event forms an alias candidate, and that one scan sees the file at one instant; what a scan that overlaps a repair sees is stated apart.
- Directory watchers, observation errors and times, and `Lookup` of the observer; `rosterCache.resolve`; the wait for terminals to hang up.
- The walk over users and namespaces in `Sweep`, the steps of loading and saving the browser store's file (how a save ends is a parameter), and 64-bit wrap-around of revisions and times.
- Ranking of roots, absolute-path lookup, and fuzzy matching before `foldCheckouts`.
- Numbers, titles, focus, counts and worktree parents on the board, and the store facts folded into it afterwards.
- Cancellation of a waiting lookup is a step that drops the call; contexts, goroutine scheduling and subprocesses are not modelled.
- The `keepTail` ring of the forward reader, which no caller turns on.
- HTTP handlers, sockets, terminals, event streams, git, GitHub, backlog and mish commands, and the front ends.
