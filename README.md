# java-kanban in Dafny

This project models the core of java-kanban, a tracker of tasks, epics and subtasks.

- An epic groups subtasks. Its status follows from theirs: NEW when it has none or all are NEW, DONE when all are DONE, IN_PROGRESS otherwise.
- In the current revision (`src/manager`), the epic's start, duration and end also follow from its scheduled subtasks.
- The tracker keeps the records it stores, a history of the records the user viewed, and a start-ordered index of scheduled tasks and subtasks.
- The index refuses a record whose time interval meets that of another indexed record.
- A file-backed variant saves every record as a comma-separated line after each change. It reads such a file back in two passes.

The modules follow the repository:

| module | file | models |
|---|---|---|
| `Wrappers` | wrappers.dfy | `Option`, `Result` and the exceptions the Java code throws (`Failure`) |
| `Model` | model.dfy | `model/Task`, `model/Epic`, `model/Subtask` as one datatype `Task` with three kinds; the epic status rule |
| `Schedule` | schedule.dfy | the `TreeSet` ordered by start, `isOverlapping`, and the epic time aggregate |
| `History` | history.dfy | `manager/InMemoryHistoryManager`: a doubly linked list of `Node` objects plus an id→node map, as a class |
| `Manager` | manager.dfy | `manager/InMemoryTaskManager`: the `Store` value, its consistency invariant and its lemmas, and the class with the fields the Java class updates |
| `Codec` | codec.dfy | `toStringLine`, the header, `split`, `parseInt`/`parseLong`/`valueOf`, one loader line |
| `FileBacked` | filebacked.dfy | `manager/FileBackedTaskManager`: `save`, the save-after-change overrides, and the two passes of `loadFromFile` |
| `ServiceModel` | service_model.dfy | the record objects of the older revision (`src/service`), which are shared mutable objects |
| `ServiceHistory` | service_history.dfy | `service/InMemoryHistoryManager`: an array list of at most ten entries |
| `ServiceManager` | service_manager.dfy | `service/InMemoryTaskManager` |
| `ServiceStore` | service_store.dfy | `service/TaskManager` and its static counter |
| `Routing` | routing.dfy | `TaskHttpHandler.getId` and `getEndpoint`, including Java's `String.split` |

How the model is built:

- **Values.** A time is an `Option<int>` of epoch milliseconds, where `None` is "unscheduled". A duration is a `nat` of milliseconds.
- **The current store.** Records are values. The Java getters hand out copies, but the adds and updates file the caller's own object, so the caller could alias a stored record; that aliasing is not modelled (see "Left out"). The methods of `Manager.InMemoryTaskManager` update the fields `taskId`, `taskIds`, `epics`, `tasks`, `subtasks`, `prioritized` and `history`. Each method is proved against functions on the `Store` value (`Forgotten`, `PutRecord`, `SubtaskAdded`, …). The lemmas about those functions state what the code promises. The central one is that every operation keeps the store `Consistent`:
  - `KeysValid`: `taskIds` is the union of the three key sets, and no id is used by two kinds;
  - `RecordsValid`: each map holds records of its own kind, each filed under its own id;
  - `IndexValid`: the index lists exactly the stored scheduled tasks and subtasks, sorted, with no two intervals meeting.
- **Epic sets.** `Consistent` does not constrain the ids an epic lists. The span's `(Subtask)` cast therefore can fail: when an epic's set lists an indexed plain task, the model throws `ClassCastException` (`Schedule.CastFails`) where the source does, in `addSubtask`, `updateSubtask`, `removeSubtask`, `updateEpic` and the second loop of `loadFromFile`.
- **The older revision.** It works on shared objects, so there the records are Dafny classes and the store holds references to them.

Where the sources disagree with their description, the model follows the code. In particular:

- The overlap test treats both intervals as closed, so two records that only touch (one ends when the other starts) conflict.
- `clearSubtasks` keeps the epics and empties them.
- `getAllSubtasksByEpic` uses the given epic's own id set, not the stored epic's.
- The split pattern `"\s*,\s*"` in `FileBackedTaskManager.java` is written with Java's `\s` string escape, which is a single space. The loader therefore splits on commas padded with spaces only.

## Model

| member | source | states |
|---|---|---|
| Model.NewRecordDefaults | src/model/Epic.java:12-16 | A new task is NEW, of type TASK and id-less. A new epic has an empty subtask set and no start, duration or end. A new subtask captures the epic's id at creation. The loader's placeholder epic leaves a subtask with no epic link. |
| Model.SetId | src/model/Task.java:31-33 | The record gets the id; every other field is unchanged. |
| Model.Equals | src/model/Task.java:60-65 | Equal records hash alike. Two id-less records of the same class are equal. A task never equals an epic or a subtask. |
| Model.EqualsIsEquivalence | src/model/Task.java:60-70 | `equals` is reflexive, symmetric and transitive, and is exactly "same class, same id". |
| Model.EndTimeFacts | src/model/Epic.java:45-48 | A task's or subtask's end is start plus duration, present exactly when it is scheduled. An epic's end is the stored end time. |
| Model.AddOrUpdateSubtask | src/model/Epic.java:29-31 | The epic's id set gains the subtask's id; nothing else changes. |
| Model.RemoveSubtask | src/model/Epic.java:41-43 | The epic's id set loses the subtask's id; nothing else changes. |
| Model.AddOrUpdateSubtaskIdempotent | src/model/Epic.java:29-31 | Adding twice is adding once, and adding a held id changes nothing. |
| Model.RemoveUndoesAdd | src/model/Epic.java:29-43 | Removing undoes adding an id that was absent. Removing an absent id changes nothing. |
| Model.SetEpic | src/model/Subtask.java:29-31 | The link becomes the given epic's id; every other field is unchanged. |
| Model.WithStatus | src/manager/InMemoryTaskManager.java:332-334 | The counted subtasks are owned subtasks of the epic. |
| Model.EpicStatusMeaning | src/manager/InMemoryTaskManager.java:318-343 | DONE iff some owned subtask exists and all are DONE. NEW iff all owned subtasks are NEW (vacuously when there are none). IN_PROGRESS otherwise. |
| Model.EpicStatusPairs | src/manager/InMemoryTaskManager.java:336-342 | {NEW,NEW} gives NEW, {DONE,DONE} gives DONE, {NEW,DONE} gives IN_PROGRESS. |
| Model.EpicStatusEdges | src/manager/InMemoryTaskManager.java:327-330 | No stored subtask gives NEW; a single IN_PROGRESS subtask gives IN_PROGRESS. |
| Model.CountIsAll | src/manager/InMemoryTaskManager.java:332-336 | The count of a status equals the number of owned subtasks exactly when all have that status. |
| Schedule.AddSpec | src/manager/InMemoryTaskManager.java:24 | `TreeSet.add` keeps the old elements and adds the record exactly when its start is free. The index stays sorted and grows by one or not at all. |
| Schedule.AddMembers | src/manager/InMemoryTaskManager.java:24 | `add` brings in nothing but the record and drops nothing. |
| Schedule.AddSorted | src/manager/InMemoryTaskManager.java:24 | `add` keeps the index sorted by start. |
| Schedule.AddSize | src/manager/InMemoryTaskManager.java:24 | A taken start leaves the index unchanged; a free start grows it by one. |
| Schedule.DeleteSpec | src/manager/InMemoryTaskManager.java:24 | `TreeSet.remove` keeps exactly the elements with another start, in order and sorted, and removes one element exactly when one has that start. |
| Schedule.DeleteMembers | src/manager/InMemoryTaskManager.java:24 | `remove` keeps exactly the elements with another start. |
| Schedule.DeleteSorted | src/manager/InMemoryTaskManager.java:24 | `remove` keeps the index sorted. |
| Schedule.DeleteSize | src/manager/InMemoryTaskManager.java:24 | `remove` shrinks a sorted index by one exactly when an element has that start. |
| Schedule.SortedStartsUnique | src/manager/InMemoryTaskManager.java:23-24 | In the index a start identifies its element. |
| Schedule.IsOverlapping | src/manager/InMemoryTaskManager.java:380-397 | An empty index never conflicts. The result is true exactly when some index entry's closed interval meets the record's. |
| Schedule.ConflictFacts | src/manager/InMemoryTaskManager.java:390 | Conflict is symmetric, and reflexive on scheduled records. Intervals sharing one instant conflict; intervals with a gap do not. |
| Schedule.AddKeepsDisjoint | src/manager/InMemoryTaskManager.java:237-239 | Adding a record the validator passed keeps the index free of conflicts. |
| Schedule.DropSorted | src/manager/InMemoryTaskManager.java:143 | Removing entries by id keeps the index sorted and conflict-free. |
| Schedule.DropDrop | src/manager/InMemoryTaskManager.java:121-136 | Two rounds of removal by id are one. |
| Schedule.DropAbsent | src/manager/InMemoryTaskManager.java:143 | Removing ids no entry has changes nothing. |
| Schedule.DropAdd | src/manager/InMemoryTaskManager.java:63-85 | Removing the id of a record that was just added undoes the add. |
| Schedule.DeleteIsDrop | src/manager/InMemoryTaskManager.java:143 | When only the record with id `k` has start `st`, removal by that start is removal of id `k`. |
| Schedule.DeleteAddRoundTrip | src/manager/InMemoryTaskManager.java:229-241 | `remove` of an indexed record followed by `add` of it gives back the index. |
| Schedule.Members | src/manager/InMemoryTaskManager.java:354-355 | The index entries whose id the epic lists, in index order: exactly those, each once. Whether the `(Subtask)` cast of line 356 accepts them is `CastFails`. |
| Schedule.CastMeaning | src/manager/InMemoryTaskManager.java:354-357 | The cast throws ClassCastException exactly when some listed index entry is not a subtask; otherwise every listed entry is a subtask. |
| Schedule.MinStart | src/manager/InMemoryTaskManager.java:360-361 | The earliest start, attained by some element, at or before every element's start. |
| Schedule.MaxFinish | src/manager/InMemoryTaskManager.java:367-368 | The latest end, attained by some element, at or after every element's end. |
| Schedule.EpicSpanBounds | src/manager/InMemoryTaskManager.java:353-378 | With owned scheduled subtasks, the epic starts at the earliest of them, ends at the latest end, and start ≤ end. With none, the epic is unscheduled, with zero duration and no end. |
| Schedule.EpicSpanExample | src/manager/InMemoryTaskManager.java:353-378 | Subtasks at T for 10 and at T+20 for 5 give an epic from T for 15 that ends at T+25. |
| History.Without | src/manager/InMemoryHistoryManager.java:41-47 | Dropping ids keeps the other entries in order and keeps no entry with a dropped id. |
| History.WithoutIds | src/manager/InMemoryHistoryManager.java:41-47 | The id set loses exactly the dropped ids. |
| History.WithoutUnique | src/manager/InMemoryHistoryManager.java:41-47 | Dropping keeps ids unique. |
| History.WithoutAbsent | src/manager/InMemoryHistoryManager.java:41-47 | Dropping ids that do not occur changes nothing. |
| History.WithoutWithout | src/manager/InMemoryHistoryManager.java:41-47 | Two rounds of dropping are one. |
| History.WithoutAt | src/manager/InMemoryHistoryManager.java:96-110 | With unique ids, dropping the id of entry `i` removes exactly that entry. |
| History.AddedShape | src/manager/InMemoryHistoryManager.java:19-33 | After `add` the record is last, and the others keep their relative order. |
| History.AddedIds | src/manager/InMemoryHistoryManager.java:19-33 | After `add` the ids are still unique, and the record's id has joined the id set. |
| History.AddedSize | src/manager/InMemoryHistoryManager.java:19-33 | A new id grows the history by one; a known id keeps its length. |
| History.RemovedSpec | src/manager/InMemoryHistoryManager.java:41-47 | Removing a present id shrinks the history by one and keeps the others in order. Removing an absent id changes nothing. |
| History.ReAddMovesToEnd | src/manager/InMemoryHistoryManager.java:19-33 | With unique ids, adding a record with the id of entry `i` takes entry `i` out, keeps the others in order and puts the new record last. Removing that id takes out entry `i` alone. |
| History.HistoryManager.ValidFacts | src/manager/InMemoryHistoryManager.java:14-16 | No id occurs twice in the list, and head and tail are null exactly when the map is empty. |
| History.HistoryManager.constructor | src/manager/InMemoryHistoryManager.java:14-16 | A new manager's history is empty. |
| History.HistoryManager.LinkLast | src/manager/InMemoryHistoryManager.java:59-73 | The new node is appended after the tail. The chain of nodes and what they hold gain it at the end. |
| History.HistoryManager.RemoveNode | src/manager/InMemoryHistoryManager.java:96-110 | Entry `i` is cut out of the chain, head and tail follow, and the other nodes keep their order. |
| History.HistoryManager.Remove | src/manager/InMemoryHistoryManager.java:41-47 | The history becomes `Removed(old, id)`; the invariant is kept. |
| History.HistoryManager.Add | src/manager/InMemoryHistoryManager.java:19-33 | A null record changes nothing. Otherwise the history becomes `Added(old, record)`. An id-less record while an id-less entry is present throws NullPointerException in the unboxing, as the code does. |
| History.HistoryManager.Evict | src/manager/InMemoryHistoryManager.java:25-27 | The entry with the record's id, if any, is unlinked. |
| History.HistoryManager.Put | src/manager/InMemoryHistoryManager.java:28-31 | A node for a new id is linked last and entered in the map. |
| History.HistoryManager.GetHistory | src/manager/InMemoryHistoryManager.java:36-38 | The entries from oldest to newest, read off the chain of nodes. |
| Manager.EmptyStore | src/manager/InMemoryTaskManager.java:16-29 | A new manager's store is consistent. |
| Manager.IndexExact | src/manager/InMemoryTaskManager.java:19-24 | In a consistent store the index holds exactly the stored scheduled tasks and subtasks, sorted by start, and never an epic. |
| Manager.IndexedRecord | src/manager/InMemoryTaskManager.java:229 | An index entry has the start of the record under `k` exactly when it is that record. A record is indexed exactly when it is scheduled. |
| Manager.Unindexed | src/manager/InMemoryTaskManager.java:228-233 | `contains`+`remove` of the old record removes exactly it, and `add` restores the index. |
| Manager.PutKeeps | src/manager/InMemoryTaskManager.java:63-85 | Filing a task or subtask that passed the validator keeps the store consistent. |
| Manager.PutEpicKeeps | src/manager/InMemoryTaskManager.java:47-60 | Filing a new epic under a free id keeps the store consistent. |
| Manager.ForgetKeeps | src/manager/InMemoryTaskManager.java:121-160 | Forgetting records, cascade included, keeps the store consistent. |
| Manager.EpicKeeps | src/manager/InMemoryTaskManager.java:220-224 | Replacing a stored epic by an epic under the same id keeps the store consistent. |
| Manager.DeriveEpic | src/manager/InMemoryTaskManager.java:318-378 | The re-derived epic keeps its id, title, description and subtask set; only status, start, duration and end change. It is used only where the cast succeeds (`Rederived`). |
| Manager.Rederived | src/manager/InMemoryTaskManager.java:318-378 | The status is set first. The call throws ClassCastException exactly when the cast fails; the epic then keeps its old span with the new status. Otherwise the epic is replaced by its derived form. The store stays consistent either way. |
| Manager.DeriveEpicMeaning | src/manager/InMemoryTaskManager.java:318-378 | Status: DONE iff every listed stored subtask is DONE and there is one; NEW iff all are NEW; otherwise IN_PROGRESS. The span covers exactly the listed scheduled subtasks. |
| Manager.DeriveEmptied | src/manager/InMemoryTaskManager.java:206-213 | An epic whose set is cleared and re-derived is NEW, unscheduled, with zero duration. |
| Manager.SubtasksCleared | src/manager/InMemoryTaskManager.java:202-217 | After `clearSubtasks` every epic is still there: NEW, unscheduled and empty. No subtask is left, and tasks are untouched. |
| Manager.SubtasksOf | src/manager/InMemoryTaskManager.java:163-171 | Exactly the stored subtasks whose id the given epic lists, and nothing for an epic that is not stored. |
| Manager.SubtasksOfOwned | src/manager/InMemoryTaskManager.java:163-171 | For a stored epic the result holds one subtask per owned id. |
| Manager.RejectedMeaning | src/manager/InMemoryTaskManager.java:380-401 | A record is rejected iff it is scheduled and its closed interval meets that of another indexed record. |
| Manager.AddRemoveRoundTrip | src/manager/InMemoryTaskManager.java:63-85 | Adding a new record and removing it again gives back the store. |
| Manager.RefileStored | src/manager/InMemoryTaskManager.java:227-244 | Updating a record with itself passes the validator and changes nothing. |
| Manager.StoredNotRejected | src/manager/InMemoryTaskManager.java:227-244 | The validator never rejects a record that is already stored. |
| Manager.SubtaskAdded | src/manager/InMemoryTaskManager.java:106-114 | The subtask's epic lists it and is re-derived. A named epic that is not stored throws NullPointerException. The span's cast throws exactly when the epic, with the subtask added, lists an indexed non-subtask. |
| Manager.SubtaskUpdated | src/manager/InMemoryTaskManager.java:265-266 | The named epic is re-derived. A missing or unstored epic throws NullPointerException. The cast throws exactly when the epic lists an indexed non-subtask. |
| Manager.SubtaskRemoved | src/manager/InMemoryTaskManager.java:154-157 | The epic drops the subtask and is re-derived. A missing or unstored epic throws NullPointerException. The cast throws exactly when the remaining set lists an indexed non-subtask. |
| Manager.SubtaskDroppedMeaning | src/manager/InMemoryTaskManager.java:148-160 | The subtask is gone from every map, the id set and the index. With its epic stored, that epic alone changes and no longer lists it, and the call returns the subtask unless the cast throws. With no stored epic the call throws NullPointerException and no epic changes. |
| Manager.DroppedFromEpic | src/manager/InMemoryTaskManager.java:148-160 | With a stored epic, only that epic changes, losing the subtask. The call throws, and then only ClassCastException, exactly when the cast fails. |
| Manager.DroppedWithoutEpic | src/manager/InMemoryTaskManager.java:148-160 | With no stored epic the call throws and no epic changes. |
| Manager.TaskFiled | src/manager/InMemoryTaskManager.java:63-85 | A rejected task leaves the store as it was. Otherwise the task is filed under its id, indexed when scheduled, and the store stays consistent. |
| Manager.SubtaskFiled | src/manager/InMemoryTaskManager.java:88-118 | As for a task, then the named epic lists the subtask and is re-derived. |
| Manager.SubtaskRefiled | src/manager/InMemoryTaskManager.java:247-267 | The new record replaces the old one unless it is rejected. The epic it names is re-derived. |
| Manager.Values | src/manager/InMemoryTaskManager.java:32-34 | Every value of the map is listed once, each paired with its key. |
| Manager.InMemoryTaskManager.constructor | src/manager/InMemoryTaskManager.java:26-29 | The counter is 1 and the store is empty. |
| Manager.InMemoryTaskManager.GenerateId | src/manager/InMemoryTaskManager.java:345-351 | The counter moves to the least id at or above it that is not taken. |
| Manager.InMemoryTaskManager.AddEpic | src/manager/InMemoryTaskManager.java:47-60 | A null epic or a taken id gives -1 and changes nothing. Otherwise the epic gets a fresh id if it has none and is filed as given, with its status and span as the caller set them. |
| Manager.InMemoryTaskManager.AddTask | src/manager/InMemoryTaskManager.java:63-85 | A null task or a taken id gives -1. An overlap throws with the store unchanged (the caller's object keeps a generated id). Otherwise the task is filed and indexed. |
| Manager.InMemoryTaskManager.AddSubtask | src/manager/InMemoryTaskManager.java:88-118 | As for a task, then the subtask's epic lists it and is re-derived. An unstored epic throws after the filing. |
| Manager.InMemoryTaskManager.RemoveEpic | src/manager/InMemoryTaskManager.java:121-136 | The epic and every stored subtask it lists leave the maps, the id set, the index and the history. Any other id changes nothing (the corrected behaviour; see Findings). |
| Manager.InMemoryTaskManager.RemoveTask | src/manager/InMemoryTaskManager.java:139-145 | The task leaves the store, the index and the history, and is returned. Any other id changes nothing (the corrected behaviour; see Findings). |
| Manager.InMemoryTaskManager.RemoveSubtask | src/manager/InMemoryTaskManager.java:148-160 | The subtask leaves the store, the index and the history. Its epic drops it and is re-derived. A subtask with no stored epic throws after the removal, and so does a failing cast. Any other id changes nothing (the corrected behaviour; see Findings). |
| Manager.InMemoryTaskManager.ClearTasks | src/manager/InMemoryTaskManager.java:191-199 | No task is left in the maps, id set, index or history; epics and subtasks are untouched. |
| Manager.InMemoryTaskManager.ClearEpics | src/manager/InMemoryTaskManager.java:174-188 | No epic and no subtask is left anywhere; tasks are untouched. |
| Manager.InMemoryTaskManager.ClearSubtasks | src/manager/InMemoryTaskManager.java:202-217 | Every subtask is gone, and every epic remains with an empty set, NEW and unscheduled. |
| Manager.InMemoryTaskManager.EmptyEpics | src/manager/InMemoryTaskManager.java:206-213 | Every epic's set is cleared and the epic re-derived. |
| Manager.InMemoryTaskManager.UpdateEpic | src/manager/InMemoryTaskManager.java:220-224 | Throws ClassCastException, with the store unchanged, exactly when the given set lists an indexed non-subtask. Otherwise the given epic, re-derived from its own set, replaces the stored one; a caller-set status is overridden. |
| Manager.InMemoryTaskManager.UpdateTask | src/manager/InMemoryTaskManager.java:227-244 | Throws iff the new record overlaps another indexed record, leaving the store as it was. Otherwise the record replaces the old one (the corrected behaviour; see Findings). |
| Manager.InMemoryTaskManager.UpdateSubtask | src/manager/InMemoryTaskManager.java:247-267 | As `updateTask`, then the epic the new record names is re-derived. An unstored epic throws. |
| Manager.InMemoryTaskManager.GetTask | src/manager/InMemoryTaskManager.java:270-280 | A stored task is returned and recorded last in the history. An absent id returns nothing and leaves the history as it was. |
| Manager.InMemoryTaskManager.GetEpic | src/manager/InMemoryTaskManager.java:283-293 | As `getTask`, over the epics. |
| Manager.InMemoryTaskManager.GetSubtask | src/manager/InMemoryTaskManager.java:296-306 | As `getTask`, over the subtasks. |
| Manager.InMemoryTaskManager.GetEpics | src/manager/InMemoryTaskManager.java:32-34 | Every stored epic, each exactly once, and nothing else. |
| Manager.InMemoryTaskManager.GetTasks | src/manager/InMemoryTaskManager.java:37-39 | Every stored task, each exactly once, and nothing else. |
| Manager.InMemoryTaskManager.GetSubtasks | src/manager/InMemoryTaskManager.java:42-44 | Every stored subtask, each exactly once, and nothing else. |
| Manager.InMemoryTaskManager.GetAllSubtasksByEpic | src/manager/InMemoryTaskManager.java:163-171 | A record is returned iff it is in `SubtasksOf(store, epic)`, with no duplicates. |
| Manager.InMemoryTaskManager.GetHistory | src/manager/InMemoryTaskManager.java:309-311 | The viewed records, oldest first, each id once. |
| Manager.InMemoryTaskManager.GetPrioritizedTasks | src/manager/InMemoryTaskManager.java:314-316 | The stored scheduled tasks and subtasks in ascending start order, each once, and no epic. |
| Codec.Digits | src/manager/FileBackedTaskManager.java:24 | The decimal digits of a number, with no leading zero. |
| Codec.DigitsRoundTrip | src/manager/FileBackedTaskManager.java:24 | Reading back the digits of `n` gives `n`. |
| Codec.ParseInteger | src/manager/FileBackedTaskManager.java:165 | Accepts exactly an optional sign, then at least one digit, with a value inside the range. Anything else is NumberFormatException. |
| Codec.DecimalRoundTrip | src/manager/FileBackedTaskManager.java:165 | The text `%d` writes parses back to the number exactly when the number is in range. |
| Codec.NegativeReadBack | src/manager/FileBackedTaskManager.java:165 | A minus sign and digits read back as the negative number. |
| Codec.SplitFields | src/manager/FileBackedTaskManager.java:163 | At least one field and at most `limit`. |
| Codec.SplitJoin | src/manager/FileBackedTaskManager.java:163 | Splitting comma-joined clean fields gives them back when the limit allows that many. |
| Codec.ParseType | src/manager/FileBackedTaskManager.java:166 | Only an exact constant name is read, as that type; anything else is IllegalArgumentException. |
| Codec.ParseStatus | src/manager/FileBackedTaskManager.java:168 | Only an exact constant name is read, as that status; anything else is IllegalArgumentException. |
| Codec.NamesRoundTrip | src/manager/FileBackedTaskManager.java:166-168 | Every type and status name is read back as itself. |
| Codec.LineFields | src/manager/FileBackedTaskManager.java:21-39 | Eight fields. The last one is empty except for a subtask, which writes its epic id ("null" when it has none). |
| Codec.Build | src/manager/FileBackedTaskManager.java:175-184 | A record of the kind of its type column, with the read fields. An epic gets an empty set and no end. A subtask gets no epic link (the placeholder epic has no id). |
| Codec.DecodeLine | src/manager/FileBackedTaskManager.java:163-173 | The columns are read in order and the first failing column's exception is thrown. A missing column is ArrayIndexOutOfBoundsException. A start of 0 reads as unscheduled. |
| Codec.ParseEpicColumn | src/manager/FileBackedTaskManager.java:173 | A blank column means no link; anything else must parse as an int. |
| Codec.LineRoundTrip | src/manager/FileBackedTaskManager.java:21-173 | A saved line with clean text fields reads back the record's id, type, title, status, description, start, duration and epic column. |
| Codec.ColumnsRoundTrip | src/manager/FileBackedTaskManager.java:163-184 | A saved line loads as the reloaded record unless its epic column fails to parse. |
| Codec.BuildReloaded | src/manager/FileBackedTaskManager.java:175-184 | The record the loader builds from a record's columns is its reloaded form. |
| Codec.EpochStartReadsUnscheduled | src/manager/FileBackedTaskManager.java:29-30 | A start exactly at the epoch is written as 0 and read back as unscheduled. |
| Codec.EpiclessSubtaskUnreadable | src/manager/FileBackedTaskManager.java:35 | A subtask without an epic is saved with the epic column "null", which the loader cannot read. |
| Codec.NullColumnFails | src/manager/FileBackedTaskManager.java:173 | The epic column "null" does not parse. |
| Codec.RecordLineShape | src/manager/FileBackedTaskManager.java:160-161 | A record line is never blank and never starts with "id", so the loader neither stops at it nor skips it. |
| Codec.HeaderSkipped | src/manager/FileBackedTaskManager.java:14 | The header starts with "id" and is skipped. |
| Codec.SnapshotLines | src/manager/FileBackedTaskManager.java:119-134 | The header, then one line per record, in the order given. |
| Codec.ParseLines | src/manager/FileBackedTaskManager.java:159-173 | Stops at the first blank line, skips lines starting with "id", and fails at the first line that does not read. |
| Codec.SnapshotRoundTrip | src/manager/FileBackedTaskManager.java:119-173 | Parsing the lines of a saved file whose text fields hold no comma, no line break and no edge space reads back every record, in the order written. |
| Codec.RecordLinesRoundTrip | src/manager/FileBackedTaskManager.java:128-173 | The record lines alone, under the same condition, read back every record, in order. |
| Codec.ReadWrittenLines | src/manager/FileBackedTaskManager.java:126-155 | Lines with no line break, each written followed by "\n", are what `readAllLines` gives back. |
| Codec.LineHasNoBreak | src/manager/FileBackedTaskManager.java:21-39 | The line of a record with clean text fields holds no "\n" and no "\r". |
| Codec.SavedTextRoundTrip | src/manager/FileBackedTaskManager.java:119-173 | The text `save` writes is read back by `readAllLines` as the lines written, and those parse back to every record in order. |
| FileBacked.Filed | src/manager/FileBackedTaskManager.java:175-184 | A taken id gives -1 and changes nothing. An epic is filed as it is. A task or subtask goes through the add, validator included. |
| FileBacked.LineStep | src/manager/FileBackedTaskManager.java:160-180 | A line starting with "id" is skipped. Any other line is read and its record added. A subtask's epic column is remembered even when the add gave -1. |
| FileBacked.FirstPass | src/manager/FileBackedTaskManager.java:159-185 | A blank line ends the pass. The first line that fails to read, or whose add throws, ends the load with that exception. |
| FileBacked.Relink | src/manager/FileBackedTaskManager.java:187-196 | `getSubtask` and `getEpic` are recorded in the history. A null column, a missing subtask or a missing epic throws NullPointerException. Otherwise the epic lists the subtask; a failing cast in `updateEpic` throws, else both are updated. |
| FileBacked.SecondPass | src/manager/FileBackedTaskManager.java:187-196 | The entries in map order; the first that throws ends the load. |
| FileBacked.RelinkFailure | src/manager/FileBackedTaskManager.java:187-196 | An entry throws NullPointerException exactly when its epic column is null or its subtask or epic is not stored. The only other failures are an overlap and the span's cast. |
| FileBacked.SecondPassKeepsTasks | src/manager/FileBackedTaskManager.java:187-196 | The second pass changes neither the id set nor the tasks. |
| FileBacked.FirstPassParses | src/manager/FileBackedTaskManager.java:159-185 | The first pass reads lines as `ParseLines` does and adds their records in order. |
| FileBacked.SavedFileLoads | src/manager/FileBackedTaskManager.java:119-185 | The first loop over a file `save` wrote adds back every saved record, in the order written, each rebuilt from its line. |
| FileBacked.LoadAllReloads | src/manager/FileBackedTaskManager.java:159-185 | Adding the lines of records not yet read succeeds. Each record comes back under its id as the loader rebuilds it, and each subtask's epic column is remembered. |
| FileBacked.SavedFileReloads | src/manager/FileBackedTaskManager.java:119-185 | The first loop over a snapshot of a consistent store succeeds. It reads back exactly the store's ids, every record as rebuilt from its line, and every subtask's epic column. |
| FileBacked.SubtaskIdsCast | src/manager/InMemoryTaskManager.java:354-357 | The cast never fails on ids that are all stored subtasks. |
| FileBacked.RefileNotRejected | src/manager/InMemoryTaskManager.java:255-259 | Re-filing a stored subtask with its start and duration unchanged passes the overlap check. |
| FileBacked.RelinkFiles | src/manager/FileBackedTaskManager.java:187-196 | For a stored subtask and epic: a failing cast throws with the store unchanged. Otherwise the result is the linked subtask re-filed into the store where the epic lists it. |
| FileBacked.RelinkReloads | src/manager/FileBackedTaskManager.java:187-196 | On a reloaded store, linking a saved subtask to the epic it named never throws. The subtask gets its epic link back and the epic lists it, with status and span re-derived. |
| FileBacked.SecondPassReloads | src/manager/FileBackedTaskManager.java:187-196 | In any order of the remembered ids, the second loop never throws, and it links every subtask it meets. |
| FileBacked.SaveLoadRoundTrip | src/manager/FileBackedTaskManager.java:119-201 | For a consistent store whose subtasks all name stored epics, a snapshot loads without an exception, in whatever order the map gives. The ids and tasks are those saved (rebuilt from their lines). Every subtask comes back with its epic link, and every epic lists exactly the subtasks that name it. |
| FileBacked.WroteStays | src/manager/FileBackedTaskManager.java:159-185 | Once a record was added and saved, the pass says so to the end. |
| FileBacked.Enumerate | src/manager/FileBackedTaskManager.java:187 | Every key of the map exactly once. |
| FileBacked.LoadFromFile | src/manager/FileBackedTaskManager.java:136-201 | A missing file gives an empty manager and an empty file. Otherwise the result is the first pass followed by the second, or the first exception either throws. |
| FileBacked.SaveThenLoad | src/manager/FileBackedTaskManager.java:119-201 | `save` then `loadFromFile` of that file gives a valid manager holding the store read back, as `SaveLoadRoundTrip` states it. |
| FileBacked.FileBackedTaskManager.constructor | src/manager/FileBackedTaskManager.java:16-19 | An empty store; the file is left as it is. |
| FileBacked.FileBackedTaskManager.Save | src/manager/FileBackedTaskManager.java:119-134 | The file holds the header and one line per stored task, subtask and epic. |
| FileBacked.FileBackedTaskManager.AddEpic | src/manager/FileBackedTaskManager.java:42-46 | `addEpic`, then the file is a snapshot of the new store. |
| FileBacked.FileBackedTaskManager.AddTask | src/manager/FileBackedTaskManager.java:49-53 | `addTask`; the file is saved unless the add threw. |
| FileBacked.FileBackedTaskManager.AddSubtask | src/manager/FileBackedTaskManager.java:56-60 | `addSubtask`; the file is saved unless the add threw. |
| FileBacked.FileBackedTaskManager.RemoveEpic | src/manager/FileBackedTaskManager.java:63-67 | `removeEpic` (corrected as in Findings), then a snapshot. |
| FileBacked.FileBackedTaskManager.RemoveTask | src/manager/FileBackedTaskManager.java:70-74 | `removeTask`, then a snapshot. |
| FileBacked.FileBackedTaskManager.RemoveSubtask | src/manager/FileBackedTaskManager.java:77-81 | `removeSubtask` (corrected as in Findings); the file is saved unless the call threw. |
| FileBacked.FileBackedTaskManager.ClearEpics | src/manager/FileBackedTaskManager.java:84-87 | `clearEpics`, then a snapshot. |
| FileBacked.FileBackedTaskManager.ClearTasks | src/manager/FileBackedTaskManager.java:90-93 | `clearTasks`, then a snapshot. |
| FileBacked.FileBackedTaskManager.ClearSubtasks | src/manager/FileBackedTaskManager.java:96-99 | `clearSubtasks`, then a snapshot. |
| FileBacked.FileBackedTaskManager.UpdateEpic | src/manager/FileBackedTaskManager.java:102-105 | `updateEpic`; a failing cast throws with the store and the file unchanged, otherwise the file is a snapshot. |
| FileBacked.FileBackedTaskManager.UpdateTask | src/manager/FileBackedTaskManager.java:108-111 | `updateTask`; the file is saved unless the validator threw. |
| FileBacked.FileBackedTaskManager.UpdateSubtask | src/manager/FileBackedTaskManager.java:114-117 | `updateSubtask`; the file is saved unless the call threw. |
| FileBacked.FileBackedTaskManager.ReadRecords | src/manager/FileBackedTaskManager.java:159-185 | The first loop yields what `FirstPass` says, and the file is a snapshot whenever a record was added. |
| FileBacked.FileBackedTaskManager.RelinkAll | src/manager/FileBackedTaskManager.java:187-196 | The second loop yields what `SecondPass` says over the order the map gives. |
| ServiceModel.Epic.AddOrUpdateSubtask | src/service/InMemoryTaskManager.java:88 | The epic's collection holds the subtask under its id. |
| ServiceModel.Epic.RemoveSubtask | src/service/InMemoryTaskManager.java:120 | The epic's collection loses the entry under the subtask's id. |
| ServiceModel.Epic.CheckStatus | src/service/InMemoryTaskManager.java:200-223 | The status is the rule applied to the held subtasks. |
| ServiceModel.DerivedMeaning | src/service/InMemoryTaskManager.java:200-223 | DONE iff at least one subtask is held and all are DONE. NEW iff all are NEW. IN_PROGRESS otherwise. |
| ServiceModel.CountIsAll | src/service/InMemoryTaskManager.java:212-218 | A status count equals the held count exactly when all held subtasks have it. |
| ServiceModel.Listing | src/service/InMemoryTaskManager.java:131 | Every value of the map once, paired with its key. |
| ServiceModel.ListedValues | src/service/InMemoryTaskManager.java:131 | A listing holds every value of the map, and nothing else. |
| ServiceModel.RemoveHeld | src/service/InMemoryTaskManager.java:102-106 | Without a null id, every held subtask's id leaves the map. A null id throws NullPointerException after the earlier removals. Only held ids are removed. |
| ServiceModel.TaskRecord | src/service/InMemoryTaskManager.java:175-179 | The history snapshot of a task keeps its kind, id and status. |
| ServiceHistory.WindowFacts | src/service/InMemoryHistoryManager.java:12-30 | The list holds at most ten entries and ends with the newest. A short list is kept whole. |
| ServiceHistory.WindowAppend | src/service/InMemoryHistoryManager.java:17-30 | Adding to the window is the window of the longer stream. |
| ServiceHistory.ReplayIsWindow | src/service/InMemoryHistoryManager.java:17-30 | After any run of adds the list is the newest ten records added. |
| ServiceHistory.WithoutMembers | src/service/InMemoryHistoryManager.java:38-46 | After removal exactly the entries not equal to the record remain. |
| ServiceHistory.WithoutNoneEqual | src/service/InMemoryHistoryManager.java:38-46 | No entry equal to the record remains. |
| ServiceHistory.WithoutConcat | src/service/InMemoryHistoryManager.java:38-46 | Removal keeps the other entries in order. |
| ServiceHistory.WithoutIdempotent | src/service/InMemoryHistoryManager.java:38-46 | Removing twice is removing once. |
| ServiceHistory.RemoveAtKeepsFilter | src/service/InMemoryHistoryManager.java:40-44 | Removing one equal entry is a step toward the final list. |
| ServiceHistory.InMemoryHistoryManager.Add | src/service/InMemoryHistoryManager.java:17-30 | The list is the window of the old list plus the record. A null record throws after the eviction. |
| ServiceHistory.InMemoryHistoryManager.Remove | src/service/InMemoryHistoryManager.java:38-46 | The list keeps exactly the entries not equal to the record, in order. A null record changes nothing. |
| ServiceHistory.InMemoryHistoryManager.GetHistory | src/service/InMemoryHistoryManager.java:33-35 | The entries, oldest first. |
| ServiceManager.NextFree | src/service/InMemoryTaskManager.java:225-231 | The least key at or above the counter that the map does not hold. |
| ServiceManager.InMemoryTaskManager.constructor | src/service/InMemoryTaskManager.java:26-31 | Empty maps, counters at 1, the given history. |
| ServiceManager.InMemoryTaskManager.GenerateTaskId | src/service/InMemoryTaskManager.java:225-231 | A task id the map does not hold. |
| ServiceManager.InMemoryTaskManager.GenerateSubtaskId | src/service/InMemoryTaskManager.java:233-239 | A subtask id the map does not hold. |
| ServiceManager.InMemoryTaskManager.GenerateEpicId | src/service/InMemoryTaskManager.java:241-247 | An epic id the map does not hold. |
| ServiceManager.InMemoryTaskManager.GetEpics | src/service/InMemoryTaskManager.java:34-36 | Every stored epic is listed, each under its own key and once, and nothing else is. |
| ServiceManager.InMemoryTaskManager.GetTasks | src/service/InMemoryTaskManager.java:39-41 | Every stored task is listed, each under its own key and once, and nothing else is. |
| ServiceManager.InMemoryTaskManager.GetSubtasks | src/service/InMemoryTaskManager.java:44-46 | Every stored subtask is listed, each under its own key and once, and nothing else is. |
| ServiceManager.InMemoryTaskManager.AddEpic | src/service/InMemoryTaskManager.java:49-61 | A null epic or a present key gives -1 and changes nothing. Otherwise a missing id is generated and set on the caller's object, and the epic is put under it. |
| ServiceManager.InMemoryTaskManager.AddTask | src/service/InMemoryTaskManager.java:64-76 | As `addEpic`, over the tasks. |
| ServiceManager.InMemoryTaskManager.AddSubtask | src/service/InMemoryTaskManager.java:79-97 | As `addEpic`. The subtask's epic also holds it and re-derives its status. |
| ServiceManager.InMemoryTaskManager.RemoveEpic | src/service/InMemoryTaskManager.java:100-109 | The epic leaves the map, then every held subtask id leaves the subtask map and nothing else does. An absent id throws. |
| ServiceManager.InMemoryTaskManager.RemoveTask | src/service/InMemoryTaskManager.java:112-114 | The task leaves the map and is returned, or null. |
| ServiceManager.InMemoryTaskManager.RemoveSubtask | src/service/InMemoryTaskManager.java:117-123 | The subtask leaves the map; its epic drops it and re-derives. An absent id or a missing epic throws after the removal. |
| ServiceManager.InMemoryTaskManager.GetAllSubtasksByEpic | src/service/InMemoryTaskManager.java:126-132 | The given epic's own held subtasks, each once, or nothing when no stored epic has its id. |
| ServiceManager.InMemoryTaskManager.ClearEpics | src/service/InMemoryTaskManager.java:135-138 | No epic and no subtask is left; tasks stay. |
| ServiceManager.InMemoryTaskManager.ClearTasks | src/service/InMemoryTaskManager.java:141-143 | No task is left; epics and subtasks stay. |
| ServiceManager.InMemoryTaskManager.ClearSubtasks | src/service/InMemoryTaskManager.java:146-155 | Every stored epic is emptied and becomes NEW; no subtask is left. |
| ServiceManager.InMemoryTaskManager.UpdateEpic | src/service/InMemoryTaskManager.java:158-161 | The status is re-derived, overriding the caller's, and the epic is stored under its id. |
| ServiceManager.InMemoryTaskManager.UpdateTask | src/service/InMemoryTaskManager.java:164-166 | The task is stored under its id. |
| ServiceManager.InMemoryTaskManager.UpdateSubtask | src/service/InMemoryTaskManager.java:169-172 | The subtask is stored under its id, and its epic re-derives. |
| ServiceManager.InMemoryTaskManager.GetTask | src/service/InMemoryTaskManager.java:175-179 | The stored task, recorded in the history. An absent id throws in the history after a possible eviction. |
| ServiceManager.InMemoryTaskManager.GetEpic | src/service/InMemoryTaskManager.java:182-186 | As `getTask`, over the epics. |
| ServiceManager.InMemoryTaskManager.GetSubtask | src/service/InMemoryTaskManager.java:189-193 | As `getTask`, over the subtasks. |
| ServiceManager.InMemoryTaskManager.GetHistory | src/service/InMemoryTaskManager.java:196-198 | The history's list. |
| ServiceManager.InMemoryTaskManager.CheckEpicStatus | src/service/InMemoryTaskManager.java:200-223 | A null epic changes nothing. Otherwise the epic's status follows the rule over its held subtasks. |
| ServiceStore.PutAllMeaning | src/service/TaskManager.java:30-46 | After the puts a key is present iff it was present or was put, and holds the last value put under it. |
| ServiceStore.TaskCounter.IncrementAndGet | src/service/TaskManager.java:115-117 | Pre-increment: the result is one more than the old counter, and the counter holds it. |
| ServiceStore.TaskManager.AddEpic | src/service/TaskManager.java:30-34 | Each epic is put under its id, in argument order. |
| ServiceStore.TaskManager.AddTask | src/service/TaskManager.java:36-40 | Each task is put under its id, in argument order. |
| ServiceStore.TaskManager.AddSubtask | src/service/TaskManager.java:42-46 | Each subtask is put under its id, in argument order. |
| ServiceStore.TaskManager.RemoveEpic | src/service/TaskManager.java:48-57 | The epic and the held subtask ids leave the maps, and nothing else does. An absent id throws. |
| ServiceStore.TaskManager.RemoveTask | src/service/TaskManager.java:59-61 | The task leaves the map and is returned, or null. |
| ServiceStore.TaskManager.RemoveSubtask | src/service/TaskManager.java:63-67 | The subtask leaves the map and its epic drops it. An absent id or a missing epic throws after the removal. |
| ServiceStore.TaskManager.GetAllSubtasksByEpic | src/service/TaskManager.java:69-71 | The given epic's own collection. |
| ServiceStore.TaskManager.ClearEpics | src/service/TaskManager.java:73-76 | No epic and no subtask is left; tasks stay. |
| ServiceStore.TaskManager.ClearTasks | src/service/TaskManager.java:78-80 | No task is left. |
| ServiceStore.TaskManager.ClearSubtasks | src/service/TaskManager.java:82-88 | Every stored epic's collection is emptied, with no status change; no subtask is left. |
| ServiceStore.TaskManager.UpdateEpic | src/service/TaskManager.java:90-92 | The epic is stored under its id. |
| ServiceStore.TaskManager.UpdateTask | src/service/TaskManager.java:94-96 | The task is stored under its id. |
| ServiceStore.TaskManager.UpdateSubtask | src/service/TaskManager.java:98-101 | The subtask is stored and its epic re-derives. A subtask without an epic throws after the put. |
| ServiceStore.TaskManager.GetTask | src/service/TaskManager.java:103-105 | The stored task, or null. |
| ServiceStore.TaskManager.GetEpic | src/service/TaskManager.java:107-109 | The stored epic, or null. |
| ServiceStore.TaskManager.GetSubtask | src/service/TaskManager.java:111-113 | The stored subtask, or null. |
| Routing.SplitMeaning | src/api/handler/TaskHttpHandler.java:248 | `split("/")` gives the whole text when it holds no slash. Otherwise it gives the pieces between slashes with trailing empty pieces removed, none holding a slash. |
| Routing.PiecesJoin | src/api/handler/TaskHttpHandler.java:248 | The pieces joined with slashes give back the path, and no piece holds a slash. |
| Routing.SplitOfJoin | src/api/handler/TaskHttpHandler.java:248 | A path of slash-free pieces whose last piece is non-empty splits back into them. |
| Routing.SplitTwoLevels | src/api/handler/TaskHttpHandler.java:248 | `/a/b` splits into "", `a`, `b`. |
| Routing.SplitTrailingSlashes | src/api/handler/TaskHttpHandler.java:248 | Trailing slashes are dropped. |
| Routing.SplitEdges | src/api/handler/TaskHttpHandler.java:248 | "" splits into [""]; "/" splits into nothing. |
| Routing.GetId | src/api/handler/TaskHttpHandler.java:236-243 | An id iff the third piece exists and parses as an int, and then it is that int. |
| Routing.GetIdRoundTrip | src/api/handler/TaskHttpHandler.java:236-243 | `/name/<n>` gives back `n` for every int. |
| Routing.Lower | src/api/handler/TaskHttpHandler.java:253 | Same length; each letter is lower-cased. |
| Routing.EndpointMeaning | src/api/handler/TaskHttpHandler.java:250-295 | Each resource-level endpoint is returned iff the path has two or three pieces, the method is exactly that one, and the second piece lower-cased is the resource. |
| Routing.EpicSubtasksMeaning | src/api/handler/TaskHttpHandler.java:296-300 | GET_EPIC_SUBTASKS iff the path is exactly four pieces, "epics" and "subtasks" at 1 and 3 (case-sensitive), and the method is GET. |
| Routing.UnknownCases | src/api/handler/TaskHttpHandler.java:301 | Another method, or fewer than two or more than four pieces, gives UNKNOWN. |
| Routing.CaseExamples | src/api/handler/TaskHttpHandler.java:250-300 | The resource match ignores case; the four-piece match and the method match do not. |

## Left out

- The repository's `model/Task.java` has no start time and no duration, yet `Epic` and `Subtask` call its four- and seven-argument constructors and `getStartTime`/`getDuration`/`getEndTime`. The model gives every record a start and a duration as those callers use them.
- Java's `null` start and `LocalDateTime.MIN` are both "unscheduled" (`None`). The comparator's NullPointerException on a null start inside the `TreeSet` is not modelled.
- Times and durations are epoch milliseconds as `int`/`nat`. A negative duration is not representable, and the loader refuses one in its text. Nanosecond precision and `LocalDateTime` overflow are not modelled.
- The `int` and `long` widths: `Codec.ParseInteger` checks the int and long ranges, but the id counters are unbounded integers and do not wrap at 2^31.
- Hash iteration order is arbitrary in the model: `Values`, `Listing`, `Enumerate` and the order `save` writes records in are "some order".
- Manager.InMemoryTaskManager.AddTask: a subclass record (an `Epic` or `Subtask` passed as a `Task`) is not modelled; each add takes its own kind.
- Manager.InMemoryTaskManager.UpdateEpic: requires the epic to be stored under its id. The source's behaviour on an unknown id is not modelled.
- Manager.InMemoryTaskManager.UpdateTask: requires the task to be stored under its id. On an unknown id the source's `contains(null)` throws from the comparator on a non-empty index; that is not modelled.
- Manager.InMemoryTaskManager.UpdateSubtask: requires the subtask to be stored under its id, for the same reason as `UpdateTask`.
- Manager.InMemoryTaskManager.GetAllSubtasksByEpic: a null epic (a NullPointerException in the source) is not modelled.
- FileBacked.FileBackedTaskManager.UpdateEpic, UpdateTask and UpdateSubtask carry the same preconditions as the in-memory methods.
- The aliasing between the caller's objects and the stored records of the current revision is not modelled: records are values, and only the caller's id change after an add is returned (`after`).
- Files, `IOException`/`ManagerSaveException`, `createNewFile` and the console message: the file is a parameter, a list of lines or none.
- SaveLoadRoundTrip: proved for stores whose subtasks all name stored epics (`SubtasksLinked`) and whose records have clean text fields and ids in range (`Encodable`). A subtask without an epic is saved as "null", which the loader cannot read (`EpiclessSubtaskUnreadable`). The reloaded epics' status, start, duration and end are re-derived by the second loop and are not compared with the saved ones. A start exactly at the epoch reads back as unscheduled (`Reloaded`). The history the second loop's `getSubtask`/`getEpic` calls leave is not stated.
- SaveThenLoad: carries the same two preconditions as `SaveLoadRoundTrip`.
- `FileBackedTaskManager.main` and `src/Main.java` are demonstration code.
- The HTTP server, `handle`, `HttpExchange`, Gson, the JSON adapters and the response writing: only `getId` and `getEndpoint` are modelled. `toLowerCase` is modelled for ASCII letters only, and `parseInt` for ASCII digits only.
- ServiceManager.InMemoryTaskManager: the history it is given is fixed to the older revision's own `InMemoryHistoryManager` (`ServiceHistory`). The Java constructor accepts any `HistoryManager`, including the current revision's, whose `add(null)` does nothing.
- The older revision's epic API (`getSubtasks`, `addOrUpdateSubtask`, `removeSubtask`, `checkStatus`) and `Subtask.getEpic` are not in the given model files. The model assumes a map from subtask id to Subtask, and a subtask holding a reference to its epic.
- ServiceStore.TaskManager: `getEpics`, `getTasks` and `getSubtasks` return the live maps, which the model reads as the fields themselves.
- The static `taskCounter` of `service/TaskManager` is an object (`ServiceStore.TaskCounter`) shared by whoever holds it.
- `toString`, the getters and setters of titles and descriptions, and `Managers` are not modelled.

## Findings

| source | as written | input that shows it | evidently intended | confidence | as-written member | corrected member |
|---|---|---|---|---|---|---|
| src/manager/InMemoryTaskManager.java:139-145 | `removeTask(id)` drops `id` from `taskIds` and from the history whatever kind of record holds it, and then calls `prioritizedTasks.remove(null)` when no task has it | an epic stored under id 1 and `removeTask(1)`: id 1 becomes free while the epic stays, so the next generated id is the epic's | only a task's id is released | not executed | Manager.RemoveTaskAsWrittenFreesEpicId | Manager.InMemoryTaskManager.RemoveTask |
| src/manager/InMemoryTaskManager.java:228-242 | an update rejected by the overlap check re-adds the old record to the index even when it was never there | unscheduled task 1, task 2 at 10 for 5, and task 1 updated to start at 12: the exception leaves unscheduled task 1 in the index | a rejected update leaves the index as it was | not executed | Manager.RejectedUpdateAsWrittenIndexesUnscheduled | Manager.InMemoryTaskManager.UpdateTask |
| src/manager/InMemoryTaskManager.java:121-127 | `removeEpic(id)` drops `id` from the history and from `taskIds` before it looks at the epic, then throws NullPointerException at `epic.getSubtasksId()` when no epic has that id | a task stored under id 1 and `removeEpic(1)`: the task leaves the history, id 1 becomes free while the task stays, and the call throws | an id that is not an epic's changes nothing | not executed | Manager.RemoveEpicAsWrittenFreesTaskId | Manager.InMemoryTaskManager.RemoveEpic |
| src/manager/InMemoryTaskManager.java:127-133 | the loop over the epic's set calls `prioritizedTasks.remove(subtasks.get(subtaskId))`, which is `remove(null)` for a listed id that is no stored subtask's and throws from the comparator on a non-empty index, after the epic is gone | epic 1 listing id 3, which nothing stores, and task 2 indexed at 0: `removeEpic(1)` removes the epic and throws | only stored subtasks are cascaded | not executed | Manager.RemoveEpicAsWrittenStaleListing | Manager.InMemoryTaskManager.RemoveEpic |
| src/manager/InMemoryTaskManager.java:148-154 | `removeSubtask(id)` drops `id` from the history and `taskIds` whatever record holds it, then throws NullPointerException (at `remove(null)` or at `subtask.getEpicId()`) when no subtask has it | a task stored under id 1 and `removeSubtask(1)`: the task leaves the history, id 1 becomes free while the task stays, and the call throws | an id that is not a subtask's changes nothing | not executed | Manager.RemoveSubtaskAsWrittenFreesTaskId | Manager.InMemoryTaskManager.RemoveSubtask |
