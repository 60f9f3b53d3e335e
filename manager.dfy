/**
 * The entity store of manager/InMemoryTaskManager.java: one id namespace for
 * tasks, epics and subtasks, three maps from id to record, a start-ordered
 * priority index with an overlap validator, and a history tracker that every
 * get feeds.
 *
 * `Store` is the value of the five collections the class keeps; `Consistent`
 * is what the store promises about them, and every method of the class keeps
 * it. The lemmas about `Store` carry the proofs; the methods mutate the
 * fields in the order the Java code does and call them.
 */
module Manager {
  import opened Wrappers
  import opened Model
  import opened Schedule
  import opened History

  // ---------------------------------------------------------------------
  // The store as a value

  datatype Store = Store(taskIds: set<int>, epics: map<int, Task>, tasks: map<int, Task>,
                         subtasks: map<int, Task>, index: seq<Task>)

  /** `taskIds` is the union of the three key sets, and no id is used by two kinds. */
  predicate KeysValid(s: Store)
  {
    s.taskIds == s.epics.Keys + s.tasks.Keys + s.subtasks.Keys &&
    s.epics.Keys !! s.tasks.Keys && s.epics.Keys !! s.subtasks.Keys && s.tasks.Keys !! s.subtasks.Keys
  }

  /** Each map holds records of its own kind, filed under their own id. */
  predicate RecordsValid(s: Store)
  {
    (forall k :: k in s.epics ==> s.epics[k].Epic? && s.epics[k].id == Some(k)) &&
    (forall k :: k in s.tasks ==> s.tasks[k].Plain? && s.tasks[k].id == Some(k)) &&
    (forall k :: k in s.subtasks ==> s.subtasks[k].Subtask? && s.subtasks[k].id == Some(k))
  }

  /** `x` is the task or subtask stored under its id. */
  predicate Stored(s: Store, x: Task)
  {
    x.id.Some? &&
    ((x.id.value in s.tasks && s.tasks[x.id.value] == x) ||
     (x.id.value in s.subtasks && s.subtasks[x.id.value] == x))
  }

  /** The index is sorted by start, free of conflicts, and holds exactly the stored scheduled
      tasks and subtasks. */
  predicate IndexValid(s: Store)
  {
    Sorted(s.index) && Disjoint(s.index) &&
    (forall x :: x in s.index ==> x.start.Some? && Stored(s, x)) &&
    (forall k :: k in s.tasks && s.tasks[k].start.Some? ==> s.tasks[k] in s.index) &&
    (forall k :: k in s.subtasks && s.subtasks[k].start.Some? ==> s.subtasks[k] in s.index)
  }

  predicate Consistent(s: Store)
  {
    KeysValid(s) && RecordsValid(s) && IndexValid(s)
  }

  /** The empty store a new manager starts with. */
  function EmptyStore(): (s: Store)
    ensures Consistent(s)
  {
    Store({}, map[], map[], map[], [])
  }

  /** The index lists exactly the stored scheduled tasks and subtasks, in ascending start
      order, and never an epic. */
  lemma IndexExact(s: Store, x: Task)
    requires Consistent(s)
    ensures x in s.index <==> x.start.Some? && Stored(s, x)
    ensures x in s.index ==> !x.Epic?
    ensures Sorted(s.index)
  {
    if x.start.Some? && Stored(s, x) {
      var k := x.id.value;
      if k in s.tasks && s.tasks[k] == x {
        assert s.tasks[k] in s.index;
      } else {
        assert s.subtasks[k] in s.index;
      }
    }
  }

  // ---------------------------------------------------------------------
  // Looking records up in the index

  /** The task or subtask stored under `k`. */
  function Record(s: Store, k: int): Task
    requires k in s.tasks || k in s.subtasks
  {
    if k in s.tasks then s.tasks[k] else s.subtasks[k]
  }

  /** In a consistent store an index entry has the start of the record under `k` exactly when it
      is that record; the record is indexed exactly when it is scheduled. */
  lemma IndexedRecord(s: Store, k: int)
    requires Consistent(s) && (k in s.tasks || k in s.subtasks)
    ensures forall x :: x in s.index ==> (x.start == Record(s, k).start <==> x.id == Some(k))
    ensures HasStart(s.index, Record(s, k).start) <==> Record(s, k).start.Some?
  {
    var r := Record(s, k);
    forall x | x in s.index ensures x.start == r.start <==> x.id == Some(k) {
      if x.start == r.start {
        assert r in s.index;
        SortedStartsUnique(s.index, x, r);
      }
    }
    if r.start.Some? {
      assert r in s.index;
      var i :| 0 <= i < |s.index| && s.index[i] == r;
      assert HasStart(s.index, r.start);
    } else {
      assert !HasStart(s.index, r.start) by {
        forall i | 0 <= i < |s.index| ensures s.index[i].start != r.start {
          assert s.index[i] in s.index;
        }
      }
    }
  }

  /** `prioritizedTasks.remove(record)` drops the record under `k` from a consistent index. */
  lemma DeleteRecord(s: Store, k: int)
    requires Consistent(s) && (k in s.tasks || k in s.subtasks)
    ensures Delete(s.index, Record(s, k).start) == Drop(s.index, {k})
  {
    IndexedRecord(s, k);
    DeleteIsDrop(s.index, Record(s, k).start, k);
  }

  /** `contains(before)` then `remove(before)` leave the index without the record under `k`; when
      the record was indexed, `add(before)` restores the index exactly. */
  lemma Unindexed(s: Store, k: int)
    requires Consistent(s) && (k in s.tasks || k in s.subtasks)
    ensures (if HasStart(s.index, Record(s, k).start) then Delete(s.index, Record(s, k).start)
             else s.index) == Drop(s.index, {k})
    ensures HasStart(s.index, Record(s, k).start) ==> Add(Drop(s.index, {k}), Record(s, k)) == s.index
  {
    IndexedRecord(s, k);
    if HasStart(s.index, Record(s, k).start) {
      DeleteRecord(s, k);
      DeleteAddRoundTrip(s.index, Record(s, k));
    } else {
      DropAbsent(s.index, {k});
    }
  }

  // ---------------------------------------------------------------------
  // Store transitions

  /** The store with the records under `ids` forgotten everywhere. */
  function Forgotten(s: Store, ids: set<int>): Store
  {
    Store(s.taskIds - ids, s.epics - ids, s.tasks - ids, s.subtasks - ids, Drop(s.index, ids))
  }

  /** Forgetting records keeps the store consistent. */
  lemma ForgetKeeps(s: Store, ids: set<int>)
    requires Consistent(s)
    ensures Consistent(Forgotten(s, ids))
  {
    var r := Forgotten(s, ids);
    DropSorted(s.index, ids);
    forall x | x in r.index ensures x.start.Some? && Stored(r, x) {
      assert x in s.index;
    }
  }

  /** The store with task or subtask `t` filed under `k`, replacing what was there, and the index
      updated as `remove(before)` then `add(t)` do. */
  function PutRecord(s: Store, k: int, t: Task): Store
  {
    var rest := Drop(s.index, {k});
    Store(s.taskIds + {k}, s.epics,
          if t.Plain? then s.tasks[k := t] else s.tasks,
          if t.Subtask? then s.subtasks[k := t] else s.subtasks,
          if t.start.Some? then Add(rest, t) else rest)
  }

  /** Filing a task or subtask that passed the validator keeps the store consistent. */
  lemma PutKeeps(s: Store, k: int, t: Task)
    requires Consistent(s) && (t.Plain? || t.Subtask?) && t.id == Some(k) && k !in s.epics
    requires t.Plain? ==> k !in s.subtasks
    requires t.Subtask? ==> k !in s.tasks
    requires t.start.Some? ==> !IsOverlapping(Drop(s.index, {k}), t)
    ensures Consistent(PutRecord(s, k, t))
  {
    PutIndexKeeps(s, k, t);
    PutRecordsIndexed(s, k, t);
    PutKeysKeep(s, k, t);
  }

  /** After filing, the key sets and the kinds of the records still agree. */
  lemma PutKeysKeep(s: Store, k: int, t: Task)
    requires KeysValid(s) && RecordsValid(s) && (t.Plain? || t.Subtask?) && t.id == Some(k)
    requires k !in s.epics && (t.Plain? ==> k !in s.subtasks) && (t.Subtask? ==> k !in s.tasks)
    ensures KeysValid(PutRecord(s, k, t)) && RecordsValid(PutRecord(s, k, t))
  {
  }

  /** After filing, the index is sorted, conflict-free and lists only stored records. */
  lemma PutIndexKeeps(s: Store, k: int, t: Task)
    requires Consistent(s) && (t.Plain? || t.Subtask?) && t.id == Some(k)
    requires t.start.Some? ==> !IsOverlapping(Drop(s.index, {k}), t)
    ensures var r := PutRecord(s, k, t);
      Sorted(r.index) && Disjoint(r.index) && forall x :: x in r.index ==> x.start.Some? && Stored(r, x)
  {
    var r := PutRecord(s, k, t);
    var rest := Drop(s.index, {k});
    DropSorted(s.index, {k});
    if t.start.Some? {
      AddKeepsDisjoint(rest, t);
      AddSpec(rest, t);
    }
    forall x | x in r.index ensures x.start.Some? && Stored(r, x) {
      if x != t {
        assert x in s.index;
      }
    }
  }

  /** After filing, every stored scheduled task and subtask is in the index. */
  lemma PutRecordsIndexed(s: Store, k: int, t: Task)
    requires Consistent(s) && (t.Plain? || t.Subtask?) && t.id == Some(k)
    requires t.Plain? ==> k !in s.subtasks
    requires t.Subtask? ==> k !in s.tasks
    requires t.start.Some? ==> !IsOverlapping(Drop(s.index, {k}), t)
    ensures var r := PutRecord(s, k, t);
      (forall j :: j in r.tasks && r.tasks[j].start.Some? ==> r.tasks[j] in r.index) &&
      (forall j :: j in r.subtasks && r.subtasks[j].start.Some? ==> r.subtasks[j] in r.index)
  {
    var r := PutRecord(s, k, t);
    var rest := Drop(s.index, {k});
    DropSorted(s.index, {k});
    if t.start.Some? {
      AddKeepsDisjoint(rest, t);
      AddSpec(rest, t);
    }
    assert forall x :: x in rest ==> x in r.index;
    forall j | j in r.tasks && r.tasks[j].start.Some? ensures r.tasks[j] in r.index {
      if j != k {
        assert s.tasks[j] in s.index && s.tasks[j] in rest;
      }
    }
    forall j | j in r.subtasks && r.subtasks[j].start.Some? ensures r.subtasks[j] in r.index {
      if j != k {
        assert s.subtasks[j] in s.index && s.subtasks[j] in rest;
      }
    }
  }

  /** A store id that is not a task or subtask id has no index entry. */
  lemma NotIndexed(s: Store, k: int)
    requires Consistent(s) && k !in s.tasks && k !in s.subtasks
    ensures Drop(s.index, {k}) == s.index
  {
    DropAbsent(s.index, {k});
  }

  /** Replacing the epics by records of the same kind under the same ids keeps the store
      consistent. */
  lemma EpicsKeep(s: Store, epics: map<int, Task>)
    requires Consistent(s) && epics.Keys == s.epics.Keys
    requires forall k :: k in epics ==> epics[k].Epic? && epics[k].id == Some(k)
    ensures Consistent(s.(epics := epics))
  {
  }

  /** Replacing one stored epic by a record of the same kind under the same id keeps the store
      consistent. */
  lemma EpicKeeps(s: Store, k: int, e: Task)
    requires Consistent(s) && k in s.epics && e.Epic? && e.id == Some(k)
    ensures Consistent(s.(epics := s.epics[k := e]))
  {
  }

  /** Filing a new epic under a free id keeps the store consistent. */
  lemma PutEpicKeeps(s: Store, k: int, e: Task)
    requires Consistent(s) && e.Epic? && e.id == Some(k) && k !in s.taskIds
    ensures Consistent(s.(taskIds := s.taskIds + {k}, epics := s.epics[k := e]))
  {
  }

  // ---------------------------------------------------------------------
  // The derived epic fields (checkEpicStatus and calculateTimeAndDurationOfEpic)

  /** The epic with its status taken from the stored subtasks it lists and its start, duration
      and end taken from the scheduled ones. */
  function DeriveEpic(epic: Task, subtasks: map<int, Task>, index: seq<Task>): (e: Task)
    requires epic.Epic? && forall x :: x in index ==> x.start.Some?
    ensures e.Epic? && e.id == epic.id && e.subtasksId == epic.subtasksId
    ensures e.(status := epic.status, start := epic.start, duration := epic.duration,
               endTime := epic.endTime) == epic
  {
    var span := EpicSpan(index, epic.subtasksId);
    epic.(status := EpicStatus(subtasks, epic.subtasksId),
          start := span.start, duration := span.duration, endTime := span.endTime)
  }

  /** What the derived fields mean: DONE when every listed stored subtask is DONE (and there is
      one), NEW when every one is NEW, IN_PROGRESS otherwise; the span starts at the earliest
      listed scheduled subtask, ends at the latest end among them and is absent with zero duration
      when none is scheduled. */
  lemma DeriveEpicMeaning(epic: Task, subtasks: map<int, Task>, index: seq<Task>)
    requires epic.Epic? && forall x :: x in index ==> x.start.Some?
    ensures var e := DeriveEpic(epic, subtasks, index);
      (e.status == DONE <==> Owned(subtasks, epic.subtasksId) != {} &&
                             AllHave(subtasks, epic.subtasksId, DONE)) &&
      (e.status == NEW <==> AllHave(subtasks, epic.subtasksId, NEW)) &&
      (e.start.Some? <==> exists x :: x in index && x.id.Some? && x.id.value in epic.subtasksId) &&
      (e.start.Some? <==> e.endTime.Some?) &&
      (e.start.None? ==> e.duration == 0) &&
      (forall x :: x in index && x.id.Some? && x.id.value in epic.subtasksId ==>
         e.start.value <= x.start.value && Finish(x) <= e.endTime.value)
  {
    EpicStatusMeaning(subtasks, epic.subtasksId);
    EpicSpanBounds(index, epic.subtasksId);
  }

  /** An epic whose subtask set was cleared. */
  function Emptied(epic: Task): (e: Task)
    requires epic.Epic?
    ensures e.Epic? && e.id == epic.id
  {
    epic.(subtasksId := {}, status := NEW, start := None, duration := 0, endTime := None)
  }

  /** `getSubtasksId().clear()` followed by re-derivation: NEW, unscheduled, zero duration. */
  lemma DeriveEmptied(epic: Task, subtasks: map<int, Task>, index: seq<Task>)
    requires epic.Epic? && forall x :: x in index ==> x.start.Some?
    ensures DeriveEpic(ClearSubtasksId(epic), subtasks, index) == Emptied(epic)
  {
    assert Owned(subtasks, {}) == {};
  }

  /** Every epic of `epics` with its set cleared and its fields re-derived. */
  function EmptiedAll(epics: map<int, Task>): (r: map<int, Task>)
    requires forall k :: k in epics ==> epics[k].Epic?
    ensures r.Keys == epics.Keys
    ensures forall k :: k in r ==>
      (r[k].Epic? && r[k].id == epics[k].id && r[k].subtasksId == {} && r[k].status == NEW &&
       r[k].start.None?)
  {
    map k | k in epics :: Emptied(epics[k])
  }

  /** `clearSubtasks` empties every epic rather than removing it: afterwards each epic is
      there, NEW, unscheduled and with an empty set; no subtask is left; tasks are untouched. */
  lemma SubtasksCleared(s: Store)
    requires Consistent(s)
    ensures var r := Forgotten(s.(epics := EmptiedAll(s.epics)), s.subtasks.Keys);
      r.epics == EmptiedAll(s.epics) && r.subtasks == map[] && r.tasks == s.tasks
  {
    var e := EmptiedAll(s.epics);
    assert e - s.subtasks.Keys == e;
  }

  // ---------------------------------------------------------------------
  // Id assignment (generateId)

  /** `id` is the least value at or above `counter` that is not in `ids`. */
  predicate LeastFree(id: int, ids: set<int>, counter: int)
  {
    counter <= id && id !in ids && forall k :: counter <= k < id ==> k in ids
  }

  /** The id an add gives record `t`: its own, or the least free one from the counter. */
  predicate AssignedId(id: int, t: Task, ids: set<int>, counter: int)
  {
    if t.id.Some? then id == t.id.value else LeastFree(id, ids, counter)
  }

  // ---------------------------------------------------------------------
  // getAllSubtasksByEpic

  /** The stored subtasks whose id the given epic lists; nothing when the epic's id is not an
      epic of the store. The given epic's own set is used, not the stored epic's. */
  function SubtasksOf(s: Store, epic: Task): (r: set<Task>)
    requires epic.Epic?
    ensures forall x :: x in r ==> x in s.subtasks.Values && x.id.Some? && x.id.value in epic.subtasksId
    ensures epic.id.None? || epic.id.value !in s.epics ==> r == {}
  {
    if epic.id.None? || epic.id.value !in s.epics then {}
    else set k | k in s.subtasks && s.subtasks[k].id.Some? && s.subtasks[k].id.value in epic.subtasksId
                :: s.subtasks[k]
  }

  /** For a stored epic of a consistent store, the result holds one subtask per owned id. */
  lemma SubtasksOfOwned(s: Store, epic: Task)
    requires Consistent(s) && epic.Epic? && epic.id.Some? && epic.id.value in s.epics
    ensures (set x | x in SubtasksOf(s, epic) :: x.id.value) == Owned(s.subtasks, epic.subtasksId)
  {
    var r := SubtasksOf(s, epic);
    forall k | k in Owned(s.subtasks, epic.subtasksId) ensures k in (set x | x in r :: x.id.value) {
      assert s.subtasks[k] in r;
    }
  }

  // ---------------------------------------------------------------------
  // Filing, re-deriving and forgetting, as the manager's methods do them

  /** The validator rejects `t`: it is scheduled and conflicts with an index entry other than the
      record it replaces. */
  predicate Rejected(s: Store, t: Task)
    requires t.id.Some?
  {
    t.start.Some? && IsOverlapping(Drop(s.index, {t.id.value}), t)
  }

  /** What a rejection means: some other indexed record's closed interval meets `t`'s. */
  lemma RejectedMeaning(s: Store, t: Task)
    requires t.id.Some?
    ensures Rejected(s, t) <==>
      t.start.Some? && exists x :: x in s.index && x.id != t.id && Conflict(x, t)
  {
    if t.start.Some? && IsOverlapping(Drop(s.index, {t.id.value}), t) {
      var x :| x in Drop(s.index, {t.id.value}) && Conflict(x, t);
      assert x in s.index && x.id != t.id;
    }
    if t.start.Some? && exists x :: x in s.index && x.id != t.id && Conflict(x, t) {
      var x :| x in s.index && x.id != t.id && Conflict(x, t);
      assert x in Drop(s.index, {t.id.value});
    }
  }

  /** `t` may be filed under its id: a task or subtask whose id is not used by another kind. */
  predicate Fileable(s: Store, t: Task)
  {
    (t.Plain? || t.Subtask?) && t.id.Some? && t.id.value !in s.epics &&
    (t.Plain? ==> t.id.value !in s.subtasks) && (t.Subtask? ==> t.id.value !in s.tasks)
  }

  /** Adding a new record and removing it again gives back the store. */
  lemma AddRemoveRoundTrip(s: Store, t: Task)
    requires Consistent(s) && Fileable(s, t) && t.id.value !in s.taskIds && !Rejected(s, t)
    ensures Forgotten(PutRecord(s, t.id.value, t), {t.id.value}) == s
  {
    AddDropIndex(s, t);
    AddForgetMaps(s, t.id.value, t);
  }

  /** The map part of the round trip: filing under a free id and forgetting it again. */
  lemma AddForgetMaps(s: Store, k: int, t: Task)
    requires KeysValid(s) && k !in s.taskIds
    ensures var r := Forgotten(PutRecord(s, k, t), {k});
      r.taskIds == s.taskIds && r.epics == s.epics && r.tasks == s.tasks && r.subtasks == s.subtasks
  {
    var r := Forgotten(PutRecord(s, k, t), {k});
    assert k !in s.epics && k !in s.tasks && k !in s.subtasks;
    assert r.taskIds == s.taskIds;
    assert r.epics == s.epics;
    assert r.tasks == s.tasks;
    assert r.subtasks == s.subtasks;
  }

  /** The index part of the round trip: the new record's entry is the only one dropped. */
  lemma AddDropIndex(s: Store, t: Task)
    requires Consistent(s) && Fileable(s, t) && t.id.value !in s.taskIds && !Rejected(s, t)
    ensures Drop(PutRecord(s, t.id.value, t).index, {t.id.value}) == s.index
  {
    var k := t.id.value;
    NotIndexed(s, k);
    if t.start.Some? {
      assert !HasStart(s.index, t.start) by {
        forall i | 0 <= i < |s.index| ensures s.index[i].start != t.start {
          assert s.index[i] in s.index;
          assert s.index[i] in Drop(s.index, {k});
          ConflictFacts(s.index[i], t);
        }
      }
      DropAdd(s.index, t, {k});
    }
  }

  /** Filing the record already stored under its id passes the validator and changes nothing. */
  lemma RefileStored(s: Store, k: int)
    requires Consistent(s) && (k in s.tasks || k in s.subtasks)
    ensures !Rejected(s, Record(s, k)) && PutRecord(s, k, Record(s, k)) == s
  {
    StoredNotRejected(s, k);
    RefileSame(s, k);
  }

  /** The index never rejects a record it already holds. */
  lemma StoredNotRejected(s: Store, k: int)
    requires Consistent(s) && (k in s.tasks || k in s.subtasks)
    ensures !Rejected(s, Record(s, k))
  {
    var r := Record(s, k);
    if r.start.Some? {
      assert r in s.index;
      forall x | x in Drop(s.index, {k}) ensures !Conflict(x, r) {
        assert x in s.index && x.id != Some(k);
      }
    }
  }

  /** Putting back the record stored under `k` gives the same store. */
  lemma RefileSame(s: Store, k: int)
    requires Consistent(s) && (k in s.tasks || k in s.subtasks)
    ensures PutRecord(s, k, Record(s, k)) == s
  {
    var r := Record(s, k);
    Unindexed(s, k);
    IndexedRecord(s, k);
    assert PutRecord(s, k, r).index == s.index;
    assert PutRecord(s, k, r).tasks == s.tasks;
    assert PutRecord(s, k, r).subtasks == s.subtasks;
  }

  /** One step of the removal loops: with the records under `done` already gone from the index,
      `remove` of the record under `k` drops exactly it. */
  lemma UnindexStep(s: Store, done: set<int>, k: int)
    requires Consistent(s) && (k in s.tasks || k in s.subtasks)
    ensures Delete(Drop(s.index, done), Record(s, k).start) == Drop(s.index, done + {k})
  {
    IndexedRecord(s, k);
    DeleteIsDrop(Drop(s.index, done), Record(s, k).start, k);
    DropDrop(s.index, done, {k});
  }

  /** One step of the history loops. */
  lemma UntrackStep(h: seq<Task>, done: set<int>, k: int)
    ensures Without(Without(h, SomeIds(done)), {Some(k)}) == Without(h, SomeIds(done + {k}))
  {
    WithoutWithout(h, SomeIds(done), {Some(k)});
    assert SomeIds(done) + {Some(k)} == SomeIds(done + {k});
  }

  /** The store with epic `e` replaced by `epic` with its derived fields recomputed. */
  function Relinked(s: Store, e: int, epic: Task): Store
    requires epic.Epic? && forall x :: x in s.index ==> x.start.Some?
  {
    s.(epics := s.epics[e := DeriveEpic(epic, s.subtasks, s.index)])
  }

  /** `checkEpicStatus` then `calculateTimeAndDurationOfEpic` on the stored epic `e`, changed
      to `epic`. The status is set first, so when the span's cast meets a listed record that is
      not a subtask, the call throws with the new status stored and the old span kept. */
  function Rederived(s: Store, e: int, epic: Task): (r: (Option<Failure>, Store))
    requires Consistent(s) && e in s.epics && epic.Epic? && epic.id == Some(e)
    ensures Consistent(r.1)
    ensures r.0.None? || r.0 == Some(ClassCast)
    ensures r.0 == Some(ClassCast) <==> CastFails(s.index, epic.subtasksId)
    ensures r.0.None? ==> r.1 == Relinked(s, e, epic)
    ensures r.0.Some? ==>
      r.1.(epics := s.epics) == s &&
      r.1.epics == s.epics[e := r.1.epics[e]] &&
      r.1.epics[e].(status := epic.status, subtasksId := epic.subtasksId) == epic &&
      r.1.epics[e].status == DeriveEpic(epic, s.subtasks, s.index).status
  {
    if CastFails(s.index, epic.subtasksId) then
      var derived := epic.(status := EpicStatus(s.subtasks, epic.subtasksId), subtasksId := epic.subtasksId);
      EpicKeeps(s, e, derived);
      (Some(ClassCast), s.(epics := s.epics[e := derived]))
    else
      RelinkedKeeps(s, e, epic);
      (None, Relinked(s, e, epic))
  }

  /** What `addSubtask` leaves after filing subtask `t` into store `s1`: its epic, when it names
      one, lists it and is re-derived; a named epic that is not stored throws, and so does the
      span's cast when the epic lists an indexed record that is not a subtask. */
  function SubtaskAdded(s1: Store, t: Task): (r: (Option<Failure>, Store))
    requires Consistent(s1) && t.Subtask? && t.id.Some?
    ensures Consistent(r.1)
    ensures r.0.None? || r.0 == Some(NullPointer) || r.0 == Some(ClassCast)
    ensures r.0 == Some(NullPointer) <==> t.epicId.Some? && t.epicId.value !in s1.epics
    ensures r.0 == Some(ClassCast) <==>
      t.epicId.Some? && t.epicId.value in s1.epics && s1.epics[t.epicId.value].Epic? &&
      CastFails(s1.index, s1.epics[t.epicId.value].subtasksId + {t.id.value})
  {
    if t.epicId.None? then (None, s1)
    else if t.epicId.value !in s1.epics then (Some(NullPointer), s1)
    else
      var e := t.epicId.value;
      assert RecordsValid(s1);
      Rederived(s1, e, AddOrUpdateSubtask(s1.epics[e], t))
  }

  /** What `updateSubtask` leaves after filing subtask `t` into store `s1`: the epic it names is
      re-derived from its own set; a missing or unstored epic throws, and so does the span's cast
      when the epic lists an indexed record that is not a subtask. */
  function SubtaskUpdated(s1: Store, t: Task): (r: (Option<Failure>, Store))
    requires Consistent(s1) && t.Subtask?
    ensures Consistent(r.1)
    ensures r.0.None? || r.0 == Some(NullPointer) || r.0 == Some(ClassCast)
    ensures r.0 == Some(NullPointer) <==> t.epicId.None? || t.epicId.value !in s1.epics
    ensures r.0 == Some(ClassCast) <==>
      t.epicId.Some? && t.epicId.value in s1.epics && s1.epics[t.epicId.value].Epic? &&
      CastFails(s1.index, s1.epics[t.epicId.value].subtasksId)
  {
    if t.epicId.None? || t.epicId.value !in s1.epics then (Some(NullPointer), s1)
    else
      var e := t.epicId.value;
      assert RecordsValid(s1);
      Rederived(s1, e, s1.epics[e])
  }

  /** What `removeSubtask` leaves after the subtask `sub` was forgotten from store `s1`: its epic
      drops it and is re-derived; a missing or unstored epic throws, and so does the span's cast
      when the epic lists an indexed record that is not a subtask. */
  function SubtaskRemoved(s1: Store, sub: Task): (r: (Option<Failure>, Store))
    requires Consistent(s1) && sub.Subtask?
    ensures Consistent(r.1)
    ensures r.0.None? || r.0 == Some(NullPointer) || r.0 == Some(ClassCast)
    ensures r.0 == Some(NullPointer) <==> sub.epicId.None? || sub.epicId.value !in s1.epics
    ensures r.0 == Some(ClassCast) <==>
      sub.epicId.Some? && sub.epicId.value in s1.epics && s1.epics[sub.epicId.value].Epic? &&
      CastFails(s1.index, Model.RemoveSubtask(s1.epics[sub.epicId.value], sub).subtasksId)
  {
    if sub.epicId.None? || sub.epicId.value !in s1.epics then (Some(NullPointer), s1)
    else
      var e := sub.epicId.value;
      assert RecordsValid(s1);
      Rederived(s1, e, Model.RemoveSubtask(s1.epics[e], sub))
  }

  /** What `removeSubtask(id)` does to a store holding subtask `id`: the subtask is forgotten
      everywhere, then its epic steps follow; the call returns the subtask unless they throw. */
  function SubtaskDropped(s: Store, id: int): (r: (Result<Option<Task>>, Store))
    requires Consistent(s) && id in s.subtasks
    ensures Consistent(r.1)
  {
    ForgetKeeps(s, {id});
    var a := SubtaskRemoved(Forgotten(s, {id}), s.subtasks[id]);
    (if a.0.None? then Ok(Some(s.subtasks[id])) else Err(a.0.value), a.1)
  }

  /** What removing a subtask means: it is gone from every map, the id set and the index. When
      it names a stored epic, that epic alone changes, no longer listing it, and the call returns
      the subtask unless the span's cast throws. A subtask naming no stored epic makes the call
      throw with no epic changed. */
  lemma SubtaskDroppedMeaning(s: Store, id: int)
    requires Consistent(s) && id in s.subtasks
    ensures var r := SubtaskDropped(s, id);
      var s1 := Forgotten(s, {id});
      var sub := s.subtasks[id];
      var stored := sub.epicId.Some? && sub.epicId.value in s.epics;
      r.1.(epics := s1.epics) == s1 &&
      (r.0 == Err(NullPointer) <==> !stored) &&
      (r.0 == Err(ClassCast) <==>
         stored && CastFails(s1.index, s.epics[sub.epicId.value].subtasksId - {id})) &&
      (r.0.Ok? ==> r.0.value == Some(sub)) &&
      (stored ==> r.1.epics == s.epics[sub.epicId.value := r.1.epics[sub.epicId.value]] &&
                  r.1.epics[sub.epicId.value].subtasksId == s.epics[sub.epicId.value].subtasksId - {id}) &&
      (!stored ==> r.1.epics == s.epics)
  {
    var sub := s.subtasks[id];
    if sub.epicId.Some? && sub.epicId.value in s.epics {
      DroppedFromEpic(s, id);
    } else {
      DroppedWithoutEpic(s, id);
    }
  }

  /** Removing a subtask whose epic is stored: the epic alone changes, losing the subtask, and
      the call throws exactly when the span's cast does. */
  lemma DroppedFromEpic(s: Store, id: int)
    requires Consistent(s) && id in s.subtasks
    requires s.subtasks[id].epicId.Some? && s.subtasks[id].epicId.value in s.epics
    ensures var r := SubtaskDropped(s, id);
      var s1 := Forgotten(s, {id});
      var e := s.subtasks[id].epicId.value;
      (r.0.Ok? ==> r.0 == Ok(Some(s.subtasks[id]))) &&
      (r.0.Err? <==> CastFails(s1.index, s.epics[e].subtasksId - {id})) &&
      (r.0.Err? ==> r.0.error == ClassCast) &&
      r.1.(epics := s1.epics) == s1 &&
      r.1.epics == s.epics[e := r.1.epics[e]] &&
      r.1.epics[e].subtasksId == s.epics[e].subtasksId - {id}
  {
    var s1 := Forgotten(s, {id});
    var sub := s.subtasks[id];
    var e := sub.epicId.value;
    DroppedFromEpicValue(s, id);
    assert sub.id == Some(id);
    var epic := Model.RemoveSubtask(s.epics[e], sub);
    assert epic.subtasksId == s.epics[e].subtasksId - {id};
  }

  /** The store `removeSubtask` leaves when the subtask's epic is stored: the epic, without the
      subtask, re-derived over the store that forgot it. */
  lemma DroppedFromEpicValue(s: Store, id: int)
    requires Consistent(s) && id in s.subtasks
    requires s.subtasks[id].epicId.Some? && s.subtasks[id].epicId.value in s.epics
    ensures Consistent(Forgotten(s, {id}))
    ensures var e := s.subtasks[id].epicId.value;
      var a := Rederived(Forgotten(s, {id}), e, Model.RemoveSubtask(s.epics[e], s.subtasks[id]));
      Forgotten(s, {id}).epics == s.epics &&
      SubtaskDropped(s, id) == (if a.0.None? then Ok(Some(s.subtasks[id])) else Err(ClassCast), a.1)
  {
    ForgetKeeps(s, {id});
    var s1 := Forgotten(s, {id});
    assert s1.epics == s.epics;
    var sub := s.subtasks[id];
    var e := sub.epicId.value;
    var a := Rederived(s1, e, Model.RemoveSubtask(s.epics[e], sub));
    assert SubtaskRemoved(s1, sub) == a;
    assert a.0.Some? ==> a.0.value == ClassCast;
  }

  /** Removing a subtask whose epic is not stored: the call throws and no epic changes. */
  lemma DroppedWithoutEpic(s: Store, id: int)
    requires Consistent(s) && id in s.subtasks
    requires !(s.subtasks[id].epicId.Some? && s.subtasks[id].epicId.value in s.epics)
    ensures SubtaskDropped(s, id) == (Err(NullPointer), Forgotten(s, {id}))
    ensures Forgotten(s, {id}).epics == s.epics
  {
    ForgetKeeps(s, {id});
  }

  /** What `addSubtask` does with a subtask `t` that has its id: the validator may reject it,
      leaving the store as it was; otherwise it is filed and its epic, when it names one, lists
      it and is re-derived, and a named epic that is not stored throws after the filing. */
  function SubtaskFiled(s: Store, t: Task): (r: (Result<int>, Store))
    requires Consistent(s) && Fileable(s, t) && t.Subtask?
    ensures Consistent(r.1)
    ensures r.0 == Err(TaskOverlapping) <==> Rejected(s, t)
    ensures r.0 == Err(TaskOverlapping) ==> r.1 == s
    ensures r.0 != Err(TaskOverlapping) ==>
      var s1 := PutRecord(s, t.id.value, t);
      Consistent(s1) && (r.0 == Ok(t.id.value) <==> SubtaskAdded(s1, t).0.None?) && r.1 == SubtaskAdded(s1, t).1
  {
    if Rejected(s, t) then (Err(TaskOverlapping), s)
    else
      PutKeeps(s, t.id.value, t);
      var a := SubtaskAdded(PutRecord(s, t.id.value, t), t);
      (if a.0.None? then Ok(t.id.value) else Err(a.0.value), a.1)
  }

  /** What `addTask` and `updateTask` do with a task `t` that has its id: the validator may
      reject it, leaving the store as it was; otherwise it is filed under its id. */
  function TaskFiled(s: Store, t: Task): (r: (Result<int>, Store))
    requires Consistent(s) && Fileable(s, t)
    ensures Consistent(r.1)
    ensures r.0.Err? <==> Rejected(s, t)
    ensures r.0.Err? ==> r.0.error == TaskOverlapping && r.1 == s
    ensures r.0.Ok? ==> r.0.value == t.id.value && r.1 == PutRecord(s, t.id.value, t)
  {
    if Rejected(s, t) then (Err(TaskOverlapping), s)
    else
      PutKeeps(s, t.id.value, t);
      (Ok(t.id.value), PutRecord(s, t.id.value, t))
  }

  /** What `updateSubtask` does with a subtask `t` stored under its id: filed as `updateTask`
      files a task; then the epic the new record names is re-derived from its own set, and a
      missing or unstored epic throws after the filing. */
  function SubtaskRefiled(s: Store, t: Task): (r: (Option<Failure>, Store))
    requires Consistent(s) && Fileable(s, t) && t.Subtask?
    ensures Consistent(r.1)
    ensures r.0 == Some(TaskOverlapping) <==> Rejected(s, t)
    ensures r.0 == Some(TaskOverlapping) ==> r.1 == s
    ensures r.0 != Some(TaskOverlapping) ==>
      var s1 := PutRecord(s, t.id.value, t);
      Consistent(s1) && r == SubtaskUpdated(s1, t)
  {
    if Rejected(s, t) then (Some(TaskOverlapping), s)
    else
      PutKeeps(s, t.id.value, t);
      SubtaskUpdated(PutRecord(s, t.id.value, t), t)
  }

  /** Re-deriving a stored epic keeps the store consistent. */
  lemma RelinkedKeeps(s: Store, e: int, epic: Task)
    requires Consistent(s) && e in s.epics && epic.Epic? && epic.id == Some(e)
    ensures Consistent(Relinked(s, e, epic))
  {
    EpicKeeps(s, e, DeriveEpic(epic, s.subtasks, s.index));
  }

  // ---------------------------------------------------------------------
  // Findings: the code as written

  /** `removeTask(id)` as written on the store (lines 139-145): the id leaves `taskIds` whatever
      kind it belongs to, and `prioritizedTasks.remove(null)` throws on a non-empty index. */
  function RemoveTaskAsWritten(s: Store, id: int): Result<Store>
  {
    if id in s.tasks then
      Ok(s.(taskIds := s.taskIds - {id}, tasks := s.tasks - {id},
            index := Delete(s.index, s.tasks[id].start)))
    else if s.index != [] then Err(NullPointer)
    else Ok(s.(taskIds := s.taskIds - {id}))
  }

  /** Removing an epic's id as a task frees the id while the epic stays: the next generated id
      from counter 1 is the epic's. */
  lemma RemoveTaskAsWrittenFreesEpicId(e: Task)
    requires e.Epic? && e.id == Some(1)
    ensures var s := Store({1}, map[1 := e], map[], map[], []);
      Consistent(s) &&
      RemoveTaskAsWritten(s, 1).Ok? &&
      !Consistent(RemoveTaskAsWritten(s, 1).value) &&
      1 in RemoveTaskAsWritten(s, 1).value.epics &&
      LeastFree(1, RemoveTaskAsWritten(s, 1).value.taskIds, 1)
  {
  }

  /** `removeEpic(id)` as written (lines 121-136), on the store and the history, with the epic's
      set visited in the order `order`: the id leaves the history and `taskIds` whatever record
      it belongs to, and a missing epic then throws at `getSubtasksId`. */
  function RemoveEpicAsWritten(s: Store, h: seq<Task>, id: int, order: seq<int>): (Option<Failure>, Store, seq<Task>)
  {
    var s1 := s.(taskIds := s.taskIds - {id}, epics := s.epics - {id});
    if id !in s.epics then (Some(NullPointer), s1, Removed(h, id))
    else CascadeAsWritten(s1, Removed(h, id), order)
  }

  /** The loop of `removeEpic` as written: each listed id leaves the history, the index (by the
      subtask's start), `subtasks` and `taskIds`; `prioritizedTasks.remove(null)` for an id that is
      not a stored subtask's throws on a non-empty index. */
  function CascadeAsWritten(s: Store, h: seq<Task>, order: seq<int>): (Option<Failure>, Store, seq<Task>)
    decreases |order|
  {
    if order == [] then (None, s, h)
    else
      var k := order[0];
      if k !in s.subtasks && s.index != [] then (Some(NullPointer), s, Removed(h, k))
      else
        var index := if k in s.subtasks then Delete(s.index, s.subtasks[k].start) else s.index;
        CascadeAsWritten(s.(taskIds := s.taskIds - {k}, subtasks := s.subtasks - {k}, index := index),
                         Removed(h, k), order[1..])
  }

  /** `removeEpic` of a task's id frees the id while the task stays, drops the task from the
      history and throws: the next generated id from counter 1 collides with the task. */
  lemma RemoveEpicAsWrittenFreesTaskId(t: Task)
    requires t.Plain? && t.id == Some(1) && t.start.None?
    ensures var s := Store({1}, map[], map[1 := t], map[], []);
      var r := RemoveEpicAsWritten(s, [t], 1, []);
      Consistent(s) && r.0 == Some(NullPointer) &&
      1 in r.1.tasks && !Consistent(r.1) && LeastFree(1, r.1.taskIds, 1) && r.2 == []
  {
    assert Removed([t], 1) == [] by {
      assert [t][1..] == [];
    }
  }

  /** `removeEpic` of an epic whose set lists an id that is no stored subtask's, while a task is
      indexed: the epic is already gone when `prioritizedTasks.remove(null)` throws. */
  lemma RemoveEpicAsWrittenStaleListing(e: Task, t: Task)
    requires e.Epic? && e.id == Some(1) && e.subtasksId == {3}
    requires t.Plain? && t.id == Some(2) && t.start == Some(0)
    ensures var s := Store({1, 2}, map[1 := e], map[2 := t], map[], [t]);
      var r := RemoveEpicAsWritten(s, [], 1, [3]);
      Consistent(s) && r.0 == Some(NullPointer) && 1 !in r.1.epics && 1 !in r.1.taskIds
  {
  }

  /** `removeSubtask(id)` as written (lines 148-160): for a stored subtask as the manager does
      it; for any other id, the id leaves the history and `taskIds` whatever record it belongs
      to, and the call throws, at `prioritizedTasks.remove(null)` on a non-empty index and at
      `subtask.getEpicId()` otherwise. */
  function RemoveSubtaskAsWritten(s: Store, h: seq<Task>, id: int): (Option<Failure>, Store, seq<Task>)
    requires Consistent(s)
  {
    if id in s.subtasks then
      var a := SubtaskDropped(s, id);
      (if a.0.Ok? then None else Some(a.0.error), a.1, Removed(h, id))
    else (Some(NullPointer), s.(taskIds := s.taskIds - {id}), Removed(h, id))
  }

  /** `removeSubtask` of a task's id frees the id while the task stays, drops the task from
      the history and throws. */
  lemma RemoveSubtaskAsWrittenFreesTaskId(t: Task)
    requires t.Plain? && t.id == Some(1) && t.start.None?
    ensures var s := Store({1}, map[], map[1 := t], map[], []);
      var r := RemoveSubtaskAsWritten(s, [t], 1);
      Consistent(s) && r.0 == Some(NullPointer) &&
      1 in r.1.tasks && !Consistent(r.1) && LeastFree(1, r.1.taskIds, 1) && r.2 == []
  {
    assert Removed([t], 1) == [] by {
      assert [t][1..] == [];
    }
  }

  /** The index after an update that the validator rejected, as written (lines 228-242): the old
      record is taken out if an entry has its start, and then added back in any case. */
  function RejectedUpdateIndexAsWritten(index: seq<Task>, before: Task): seq<Task>
  {
    var rest := if HasStart(index, before.start) then Delete(index, before.start) else index;
    Add(rest, before)
  }

  /** An unscheduled task whose update is rejected lands in the index: task 2 occupies
      10..15, task 1 is unscheduled and its update to start 12 conflicts. */
  lemma RejectedUpdateAsWrittenIndexesUnscheduled()
    ensures var before := Plain(Some(1), "a", "", NEW, TASK, None, 0);
      var x := Plain(Some(2), "b", "", NEW, TASK, Some(10), 5);
      var task := Plain(Some(1), "a", "", NEW, TASK, Some(12), 0);
      var s := Store({1, 2}, map[], map[1 := before, 2 := x], map[], [x]);
      Consistent(s) && IsOverlapping(Drop(s.index, {1}), task) &&
      before in RejectedUpdateIndexAsWritten(s.index, before) &&
      !Consistent(s.(index := RejectedUpdateIndexAsWritten(s.index, before)))
  {
    var before := Plain(Some(1), "a", "", NEW, TASK, None, 0);
    var x := Plain(Some(2), "b", "", NEW, TASK, Some(10), 5);
    var task := Plain(Some(1), "a", "", NEW, TASK, Some(12), 0);
    var s := Store({1, 2}, map[], map[1 := before, 2 := x], map[], [x]);
    assert Drop(s.index, {1}) == [x];
    assert Conflict(x, task);
    assert !HasStart([x], None) by {
      forall i | 0 <= i < 1 ensures [x][i].start != None {
      }
    }
    assert RejectedUpdateIndexAsWritten(s.index, before) == [before, x];
  }

  // ---------------------------------------------------------------------
  // The manager

  // ---------------------------------------------------------------------
  // Listing a map's values

  /** Every record of `m` is filed under its own id. */
  predicate FiledById(m: map<int, Task>)
  {
    forall k :: k in m ==> m[k].id == Some(k)
  }

  /** `map.values().stream().toList()`: the values of `m`, one per key, in an order the hash
      map chooses; `keys` says which key each value came from. Records filed under their own
      ids are therefore listed once each. */
  method Values(m: map<int, Task>) returns (keys: seq<int>, values: seq<Task>)
    ensures |values| == |keys| && forall k :: k in m <==> k in keys
    ensures forall i :: 0 <= i < |keys| ==> keys[i] in m && values[i] == m[keys[i]]
    ensures forall k :: k in m ==> m[k] in values
    ensures FiledById(m) ==> forall i, j :: 0 <= i < j < |values| ==> values[i] != values[j]
  {
    var todo := m.Items;
    keys, values := [], [];
    while todo != {}
      invariant todo <= m.Items && |values| == |keys|
      invariant forall k :: k in keys <==> k in m && (k, m[k]) !in todo
      invariant forall i :: 0 <= i < |keys| ==> keys[i] in m && values[i] == m[keys[i]]
      invariant forall i, j :: 0 <= i < j < |keys| ==> keys[i] != keys[j]
      decreases |todo|
    {
      var e :| e in todo;
      assert e.0 in m && m[e.0] == e.1;
      keys, values := keys + [e.0], values + [e.1];
      todo := todo - {e};
    }
    forall k | k in m ensures m[k] in values {
      var i :| 0 <= i < |keys| && keys[i] == k;
    }
  }

  class InMemoryTaskManager {
    /** What the history manager holds. The manager uses it only through the HistoryManager
        interface, whose `add` and `remove` the linked-list implementation is proved to perform
        as `Added` and `Removed`. */
    var history: seq<Task>
    var taskId: int
    var taskIds: set<int>
    var epics: map<int, Task>
    var tasks: map<int, Task>
    var subtasks: map<int, Task>
    var prioritized: seq<Task>

    function State(): Store
      reads this
    {
      Store(taskIds, epics, tasks, subtasks, prioritized)
    }

    ghost predicate Valid()
      reads this
    {
      Consistent(State()) && UniqueIds(history)
    }

    constructor (history: seq<Task>)
      requires UniqueIds(history)
      ensures Valid() && this.history == history && taskId == 1 && State() == EmptyStore()
    {
      this.history := history;
      taskId := 1;
      taskIds := {};
      epics := map[];
      tasks := map[];
      subtasks := map[];
      prioritized := [];
    }

    /** `generateId`: move the counter to the least id at or above it that is not taken. */
    method GenerateId() returns (id: int)
      modifies this`taskId
      ensures id == taskId && LeastFree(id, taskIds, old(taskId))
    {
      ghost var pending := set k | k in taskIds && k >= taskId;
      while taskId in taskIds
        invariant old(taskId) <= taskId
        invariant forall k :: old(taskId) <= k < taskId ==> k in taskIds
        invariant pending == set k | k in taskIds && k >= taskId
        decreases |pending|
      {
        ghost var before := pending;
        taskId := taskId + 1;
        pending := set k | k in taskIds && k >= taskId;
        assert taskId - 1 in before - pending;
        SubsetCardinality(pending, before);
      }
      id := taskId;
    }

    /** The id step of the adds: a record without an id gets a generated one. */
    method Stamp(t: Task) returns (s: Task)
      modifies this`taskId
      ensures s.id.Some? && s == SetId(t, s.id.value)
      ensures t.id.Some? ==> s == t && taskId == old(taskId)
      ensures t.id.None? ==> LeastFree(s.id.value, taskIds, old(taskId)) && taskId == s.id.value
    {
      s := t;
      if t.id.None? {
        var id := GenerateId();
        s := SetId(t, id);
      } else {
        assert SetId(t, t.id.value) == t;
      }
    }

    /** The filing step of `addTask`/`addSubtask`/`updateTask`/`updateSubtask`: the stored record
        under the id, if any, leaves the index; then `t` is filed and indexed when scheduled,
        unless the validator rejects it, in which case the old record goes back. */
    method File(t: Task) returns (rejected: bool)
      requires Consistent(State()) && Fileable(State(), t)
      modifies this`taskIds, this`tasks, this`subtasks, this`prioritized
      ensures Consistent(State()) && rejected == Rejected(old(State()), t)
      ensures State() == if rejected then old(State()) else PutRecord(old(State()), t.id.value, t)
    {
      ghost var s0 := State();
      var k := t.id.value;
      var before, isInPrioritizedList := Withdraw(k);
      if t.start.Some? && IsOverlapping(prioritized, t) {
        if isInPrioritizedList {
          prioritized := Add(prioritized, before.value);
        }
        return true;
      }
      Commit(t, s0);
      return false;
    }

    /** The `remove(before)` step of the filing: the record stored under `k`, if any, leaves the
        index; `add(before)` would bring it back. */
    method Withdraw(k: int) returns (before: Option<Task>, indexed: bool)
      requires Consistent(State())
      modifies this`prioritized
      ensures prioritized == Drop(old(prioritized), {k})
      ensures before.Some? <==> k in tasks || k in subtasks
      ensures before.Some? ==> before.value == Record(State(), k)
      ensures indexed ==> before.Some? && Add(prioritized, before.value) == old(prioritized)
      ensures !indexed ==> prioritized == old(prioritized)
    {
      ghost var s0 := State();
      before := None;
      indexed := false;
      if k in tasks || k in subtasks {
        var record := if k in tasks then tasks[k] else subtasks[k];
        before := Some(record);
        Unindexed(s0, k);
        indexed := HasStart(prioritized, record.start);
        if indexed {
          prioritized := Delete(prioritized, record.start);
        }
      } else {
        NotIndexed(s0, k);
      }
    }

    /** The filing step proper: `t` goes into its map and, when scheduled, into the index. */
    method Commit(t: Task, ghost s0: Store)
      requires Consistent(s0) && Fileable(s0, t) && !Rejected(s0, t)
      requires State() == s0.(index := Drop(s0.index, {t.id.value}))
      modifies this`taskIds, this`tasks, this`subtasks, this`prioritized
      ensures Consistent(State()) && State() == PutRecord(s0, t.id.value, t)
    {
      var k := t.id.value;
      if t.Plain? {
        tasks := tasks[k := t];
      } else {
        subtasks := subtasks[k := t];
      }
      taskIds := taskIds + {k};
      if t.start.Some? {
        prioritized := Add(prioritized, t);
      }
      PutKeeps(s0, k, t);
    }

    /** `checkEpicStatus` and `calculateTimeAndDurationOfEpic` on `epic`, filed under `e`: the
        status is set, then the span's cast may throw before the span is. */
    method Rederive(e: int, epic: Task) returns (failure: Option<Failure>)
      requires Consistent(State()) && e in epics && epic.Epic? && epic.id == Some(e)
      modifies this`epics
      ensures Consistent(State()) && (failure, State()) == Rederived(old(State()), e, epic)
    {
      ghost var s0 := State();
      ghost var r := Rederived(s0, e, epic);
      if CastFails(prioritized, epic.subtasksId) {
        epics := epics[e := epic.(status := EpicStatus(subtasks, epic.subtasksId), subtasksId := epic.subtasksId)];
        failure := Some(ClassCast);
      } else {
        epics := epics[e := DeriveEpic(epic, subtasks, prioritized)];
        failure := None;
      }
      assert State() == r.1;
    }

    /** The filing and epic steps of `updateSubtask`. */
    method RefileSubtask(t: Task) returns (failure: Option<Failure>)
      requires Consistent(State()) && Fileable(State(), t) && t.Subtask?
      modifies this`taskIds, this`epics, this`tasks, this`subtasks, this`prioritized
      ensures Consistent(State()) && (failure, State()) == SubtaskRefiled(old(State()), t)
    {
      var rejected := File(t);
      if rejected {
        return Some(TaskOverlapping);
      }
      if t.epicId.None? || t.epicId.value !in epics {
        return Some(NullPointer);
      }
      var e := t.epicId.value;
      failure := Rederive(e, epics[e]);
    }

    /** The filing step of `addTask`. */
    method FileTask(t: Task) returns (r: Result<int>)
      requires Consistent(State()) && Fileable(State(), t)
      modifies this`taskIds, this`tasks, this`subtasks, this`prioritized
      ensures Consistent(State()) && (r, State()) == TaskFiled(old(State()), t)
    {
      var rejected := File(t);
      r := if rejected then Err(TaskOverlapping) else Ok(t.id.value);
    }

    /** The filing and epic steps of `addSubtask`. */
    method FileSubtask(t: Task) returns (r: Result<int>)
      requires Consistent(State()) && Fileable(State(), t) && t.Subtask?
      modifies this`taskIds, this`epics, this`tasks, this`subtasks, this`prioritized
      ensures Consistent(State()) && (r, State()) == SubtaskFiled(old(State()), t)
    {
      var rejected := File(t);
      if rejected {
        return Err(TaskOverlapping);
      }
      r := Ok(t.id.value);
      if t.epicId.Some? {
        var e := t.epicId.value;
        if e !in epics {
          return Err(NullPointer);
        }
        var failure := Rederive(e, AddOrUpdateSubtask(epics[e], t));
        if failure.Some? {
          return Err(failure.value);
        }
      }
    }

    /** The index part of the removal loops: `prioritizedTasks.remove` of each record under `ids`. */
    method Unindex(ids: set<int>)
      requires Consistent(State()) && ids <= tasks.Keys + subtasks.Keys
      modifies this`prioritized
      ensures prioritized == Drop(old(prioritized), ids)
    {
      ghost var s0 := State();
      var todo := ids;
      ghost var done: set<int> := {};
      DropAbsent(s0.index, {});
      while todo != {}
        invariant todo <= ids && done == ids - todo
        invariant prioritized == Drop(s0.index, done)
        decreases |todo|
      {
        NonEmptyHasMember(todo);
        var k :| k in todo;
        var record := if k in tasks then tasks[k] else subtasks[k];
        UnindexStep(s0, done, k);
        prioritized := Delete(prioritized, record.start);
        todo := todo - {k};
        done := done + {k};
      }
      assert done == ids;
    }

    /** The store part of every removal: the records under `ids` leave the maps, `taskIds` and
        the index. */
    method Forget(ids: set<int>)
      requires Consistent(State())
      modifies this`taskIds, this`epics, this`tasks, this`subtasks, this`prioritized
      ensures Consistent(State()) && State() == Forgotten(old(State()), ids)
    {
      ghost var s0 := State();
      var records := ids * (tasks.Keys + subtasks.Keys);
      Unindex(records);
      forall x | x in s0.index && x.id.Some? ensures x.id.value in records <==> x.id.value in ids {
        IndexExact(s0, x);
      }
      DropSame(s0.index, records, ids);
      epics := epics - ids;
      tasks := tasks - ids;
      subtasks := subtasks - ids;
      taskIds := taskIds - ids;
      ForgetKeeps(s0, ids);
    }

    /** The history part of every removal: `historyManager.remove` of each id. */
    method Untrack(ids: set<int>)
      requires UniqueIds(history)
      modifies this`history
      ensures UniqueIds(history) && history == Without(old(history), SomeIds(ids))
    {
      ghost var h0 := history;
      var todo := ids;
      ghost var done: set<int> := {};
      assert SomeIds(done) == {};
      WithoutAbsent(h0, {});
      while todo != {}
        invariant todo <= ids && done == ids - todo
        invariant UniqueIds(history) && history == Without(h0, SomeIds(done))
        decreases |todo|
      {
        NonEmptyHasMember(todo);
        var k :| k in todo;
        RemovedSpec(history, k);
        history := Removed(history, k);
        UntrackStep(h0, done, k);
        todo := todo - {k};
        done := done + {k};
      }
      assert done == ids;
    }

    /** The history part of every get: `historyManager.add` of a stored record. */
    method Track(t: Task)
      requires UniqueIds(history)
      modifies this`history
      ensures UniqueIds(history) && history == Added(old(history), t)
    {
      AddedIds(history, t);
      history := Added(history, t);
    }

    /** `addEpic`: a null epic or one whose id is taken gives -1 and changes nothing; otherwise the
        epic gets an id if it has none and is filed. `after` is the caller's object afterwards. */
    method AddEpic(epic: Option<Task>) returns (r: int, after: Option<Task>)
      requires Valid() && (epic.Some? ==> epic.value.Epic?)
      modifies this`taskId, this`taskIds, this`epics
      ensures Valid() && history == old(history)
      ensures epic.None? || (epic.value.id.Some? && epic.value.id.value in old(taskIds)) ==>
        r == -1 && after == epic && taskId == old(taskId) && State() == old(State())
      ensures epic.Some? && !(epic.value.id.Some? && epic.value.id.value in old(taskIds)) ==>
        AssignedId(r, epic.value, old(taskIds), old(taskId)) && r !in old(taskIds) &&
        after == Some(SetId(epic.value, r)) &&
        State() == old(State()).(taskIds := old(taskIds) + {r}, epics := old(epics)[r := after.value])
    {
      if epic.None? || (epic.value.id.Some? && epic.value.id.value in taskIds) {
        return -1, epic;
      }
      var e := Stamp(epic.value);
      r := e.id.value;
      PutEpicKeeps(State(), r, e);
      epics := epics[r := e];
      taskIds := taskIds + {r};
      return r, Some(e);
    }

    /** `addTask`: a null task or one whose id is taken gives -1 and changes nothing. Otherwise the
        task gets an id if it has none (the caller's object keeps it even when the add is then
        rejected) and is filed, unless the validator rejects it. */
    method AddTask(task: Option<Task>) returns (r: Result<int>, after: Option<Task>)
      requires Valid() && (task.Some? ==> task.value.Plain?)
      modifies this`taskId, this`taskIds, this`tasks, this`subtasks, this`prioritized
      ensures Valid() && history == old(history)
      ensures task.None? || (task.value.id.Some? && task.value.id.value in old(taskIds)) ==>
        r == Ok(-1) && after == task && taskId == old(taskId) && State() == old(State())
      ensures task.Some? && !(task.value.id.Some? && task.value.id.value in old(taskIds)) ==>
        after.Some? && after.value.id.Some? && after.value == SetId(task.value, after.value.id.value) &&
        AssignedId(after.value.id.value, task.value, old(taskIds), old(taskId)) &&
        after.value.id.value !in old(taskIds) &&
        (r, State()) == TaskFiled(old(State()), after.value)
    {
      if task.None? || (task.value.id.Some? && task.value.id.value in taskIds) {
        return Ok(-1), task;
      }
      var t := Stamp(task.value);
      after := Some(t);
      r := FileTask(t);
    }

    /** `addSubtask`: as `addTask`; a filed subtask that names an epic is then added to that
        epic's set and the epic re-derived. A named epic that is not stored makes the call throw
        after the subtask was filed. */
    method AddSubtask(subtask: Option<Task>) returns (r: Result<int>, after: Option<Task>)
      requires Valid() && (subtask.Some? ==> subtask.value.Subtask?)
      modifies this`taskId, this`taskIds, this`epics, this`tasks, this`subtasks, this`prioritized
      ensures Valid() && history == old(history)
      ensures subtask.None? || (subtask.value.id.Some? && subtask.value.id.value in old(taskIds)) ==>
        r == Ok(-1) && after == subtask && taskId == old(taskId) && State() == old(State())
      ensures subtask.Some? && !(subtask.value.id.Some? && subtask.value.id.value in old(taskIds)) ==>
        after.Some? && after.value.id.Some? && after.value == SetId(subtask.value, after.value.id.value) &&
        AssignedId(after.value.id.value, subtask.value, old(taskIds), old(taskId)) &&
        after.value.id.value !in old(taskIds) &&
        (r, State()) == SubtaskFiled(old(State()), after.value)
    {
      if subtask.None? || (subtask.value.id.Some? && subtask.value.id.value in taskIds) {
        return Ok(-1), subtask;
      }
      var t := Stamp(subtask.value);
      after := Some(t);
      r := FileSubtask(t);
    }

    /** `removeEpic`: the epic and every stored subtask it lists leave the maps, `taskIds`, the
        index and the history. An id that is not an epic's changes nothing. */
    method RemoveEpic(id: int) returns (r: Option<Task>)
      requires Valid()
      modifies this
      ensures Valid() && taskId == old(taskId)
      ensures id !in old(epics) ==>
        r.None? && State() == old(State()) && history == old(history)
      ensures id in old(epics) ==>
        var gone := {id} + old(epics)[id].subtasksId * old(subtasks).Keys;
        r == Some(old(epics)[id]) && State() == Forgotten(old(State()), gone) &&
        history == Without(old(history), SomeIds(gone))
    {
      if id !in epics {
        return None;
      }
      var epic := epics[id];
      var gone := {id} + epic.subtasksId * subtasks.Keys;
      Discard(gone);
      return Some(epic);
    }

    /** `removeTask`: the task leaves `tasks`, `taskIds`, the index and the history. An id that is
        not a task's changes nothing. */
    method RemoveTask(id: int) returns (r: Option<Task>)
      requires Valid()
      modifies this
      ensures Valid() && taskId == old(taskId)
      ensures id !in old(tasks) ==>
        r.None? && State() == old(State()) && history == old(history)
      ensures id in old(tasks) ==>
        r == Some(old(tasks)[id]) && State() == Forgotten(old(State()), {id}) &&
        history == Removed(old(history), id)
    {
      if id !in tasks {
        return None;
      }
      var task := tasks[id];
      Discard({id});
      assert SomeIds({id}) == {Some(id)};
      return Some(task);
    }

    /** `removeSubtask`: the subtask leaves `subtasks`, `taskIds`, the index and the history, and
        its epic drops it from its set and is re-derived. A subtask naming no stored epic makes
        the call throw after the removal. An id that is not a subtask's changes nothing. */
    method RemoveSubtask(id: int) returns (r: Result<Option<Task>>)
      requires Valid()
      modifies this
      ensures Valid() && taskId == old(taskId)
      ensures id !in old(subtasks) ==>
        r == Ok(None) && State() == old(State()) && history == old(history)
      ensures id in old(subtasks) ==>
        history == Removed(old(history), id) && (r, State()) == SubtaskDropped(old(State()), id)
    {
      if id !in subtasks {
        return Ok(None);
      }
      var sub := subtasks[id];
      Discard({id});
      assert SomeIds({id}) == {Some(id)};
      var failure := Detach(sub);
      r := if failure.None? then Ok(Some(sub)) else Err(failure.value);
    }

    /** The epic step of `removeSubtask`: the subtask's epic drops it and is re-derived. */
    method Detach(sub: Task) returns (failure: Option<Failure>)
      requires Consistent(State()) && sub.Subtask?
      modifies this`epics
      ensures Consistent(State()) && (failure, State()) == SubtaskRemoved(old(State()), sub)
      ensures taskId == old(taskId) && history == old(history)
    {
      if sub.epicId.None? || sub.epicId.value !in epics {
        return Some(NullPointer);
      }
      var e := sub.epicId.value;
      failure := Rederive(e, Model.RemoveSubtask(epics[e], sub));
    }

    /** `clearTasks`: every task leaves `tasks`, `taskIds`, the index and the history; epics and
        subtasks are untouched. */
    method ClearTasks()
      requires Valid()
      modifies this
      ensures Valid() && taskId == old(taskId)
      ensures State() == Forgotten(old(State()), old(tasks).Keys) && tasks == map[]
      ensures history == Without(old(history), SomeIds(old(tasks).Keys))
    {
      var gone := tasks.Keys;
      Discard(gone);
    }

    /** `clearEpics`: every epic and every subtask leaves the maps, `taskIds`, the index and the
        history; tasks are untouched. */
    method ClearEpics()
      requires Valid()
      modifies this
      ensures Valid() && taskId == old(taskId)
      ensures State() == Forgotten(old(State()), old(epics).Keys + old(subtasks).Keys)
      ensures epics == map[] && subtasks == map[]
      ensures history ==
        Without(old(history), SomeIds(old(epics).Keys + old(subtasks).Keys))
    {
      var gone := epics.Keys + subtasks.Keys;
      Discard(gone);
    }

    /** Every removal: the records under `ids` leave the store and the history. */
    method Discard(ids: set<int>)
      requires Valid()
      modifies this`history, this`taskIds, this`epics, this`tasks, this`subtasks, this`prioritized
      ensures Valid() && State() == Forgotten(old(State()), ids)
      ensures history == Without(old(history), SomeIds(ids))
    {
      Forget(ids);
      Untrack(ids);
    }

    /** The epic loop of `clearSubtasks`: every epic's set is cleared and the epic re-derived. */
    method EmptyEpics()
      requires forall k :: k in epics ==> epics[k].Epic?
      requires forall x :: x in prioritized ==> x.start.Some?
      modifies this`epics
      ensures epics == EmptiedAll(old(epics))
    {
      var todo := epics.Keys;
      while todo != {}
        invariant todo <= old(epics).Keys && epics.Keys == old(epics).Keys
        invariant forall k :: k in epics ==>
          epics[k] == if k in todo then old(epics)[k] else EmptiedAll(old(epics))[k]
        decreases |todo|
      {
        NonEmptyHasMember(todo);
        var k :| k in todo;
        DeriveEmptied(epics[k], subtasks, prioritized);
        epics := epics[k := DeriveEpic(ClearSubtasksId(epics[k]), subtasks, prioritized)];
        todo := todo - {k};
      }
      var emptied := EmptiedAll(old(epics));
      assert forall k :: k in emptied ==> k in epics && epics[k] == emptied[k];
    }

    /** `clearSubtasks`: every epic's set is emptied and the epic re-derived (NEW, unscheduled,
        zero duration), and every subtask leaves `subtasks`, `taskIds`, the index and the
        history. */
    method ClearSubtasks()
      requires Valid()
      modifies this
      ensures Valid() && taskId == old(taskId)
      ensures State() == Forgotten(old(State()).(epics := EmptiedAll(old(epics))), old(subtasks).Keys)
      ensures history == Without(old(history), SomeIds(old(subtasks).Keys))
    {
      ghost var s0 := State();
      EmptyEpics();
      EpicsKeep(s0, epics);
      assert State() == s0.(epics := epics);
      var gone := subtasks.Keys;
      Discard(gone);
    }

    /** `updateEpic` for a stored epic: the given epic, with its status and span re-derived from
        its own set, replaces the stored one; a caller-set status is overridden. When the set
        lists an indexed record that is not a subtask, the span's cast throws before the epic is
        filed, and the store is unchanged. */
    method UpdateEpic(epic: Task) returns (failure: Option<Failure>)
      requires Valid() && epic.Epic? && epic.id.Some? && epic.id.value in epics
      modifies this`epics
      ensures Valid() && taskId == old(taskId) && history == old(history)
      ensures failure.None? || failure == Some(ClassCast)
      ensures failure.Some? <==> CastFails(old(prioritized), epic.subtasksId)
      ensures failure.Some? ==> State() == old(State())
      ensures failure.None? ==> State() == Relinked(old(State()), epic.id.value, epic)
    {
      if CastFails(prioritized, epic.subtasksId) {
        return Some(ClassCast);
      }
      failure := Rederive(epic.id.value, epic);
    }

    /** `updateTask` for a stored task: the new record replaces the old one unless the validator
        rejects it, which leaves the store as it was. */
    method UpdateTask(task: Task) returns (failure: Option<Failure>)
      requires Valid() && task.Plain? && task.id.Some? && task.id.value in tasks
      modifies this`taskIds, this`tasks, this`subtasks, this`prioritized
      ensures Valid() && taskId == old(taskId) && history == old(history)
      ensures failure.Some? <==> Rejected(old(State()), task)
      ensures failure.Some? ==> failure.value == TaskOverlapping && State() == old(State())
      ensures failure.None? ==> State() == PutRecord(old(State()), task.id.value, task)
    {
      var rejected := File(task);
      failure := if rejected then Some(TaskOverlapping) else None;
    }

    /** `updateSubtask` for a stored subtask: filed as `updateTask` files a task; then the epic
        the new record names is re-derived from its own set. A missing or unstored epic makes the
        call throw after the update. */
    method UpdateSubtask(subtask: Task) returns (failure: Option<Failure>)
      requires Valid() && subtask.Subtask? && subtask.id.Some? && subtask.id.value in subtasks
      modifies this`taskIds, this`epics, this`tasks, this`subtasks, this`prioritized
      ensures Valid() && taskId == old(taskId) && history == old(history)
      ensures (failure, State()) == SubtaskRefiled(old(State()), subtask)
    {
      failure := RefileSubtask(subtask);
    }

    /** `getTask`: a copy of the stored task, which the history then records. */
    method GetTask(id: int) returns (r: Option<Task>)
      requires Valid()
      modifies this
      ensures Valid() && taskId == old(taskId) && State() == old(State())
      ensures r == if id in tasks then Some(tasks[id]) else None
      ensures history ==
        if r.Some? then Added(old(history), r.value) else old(history)
    {
      if id !in tasks {
        return None;
      }
      r := Some(tasks[id]);
      Track(r.value);
    }

    /** `getEpic`: a copy of the stored epic, which the history then records. */
    method GetEpic(id: int) returns (r: Option<Task>)
      requires Valid()
      modifies this
      ensures Valid() && taskId == old(taskId) && State() == old(State())
      ensures r == if id in epics then Some(epics[id]) else None
      ensures history ==
        if r.Some? then Added(old(history), r.value) else old(history)
    {
      if id !in epics {
        return None;
      }
      r := Some(epics[id]);
      Track(r.value);
    }

    /** `getSubtask`: a copy of the stored subtask, which the history then records. */
    method GetSubtask(id: int) returns (r: Option<Task>)
      requires Valid()
      modifies this
      ensures Valid() && taskId == old(taskId) && State() == old(State())
      ensures r == if id in subtasks then Some(subtasks[id]) else None
      ensures history ==
        if r.Some? then Added(old(history), r.value) else old(history)
    {
      if id !in subtasks {
        return None;
      }
      r := Some(subtasks[id]);
      Track(r.value);
    }

    /** `getEpics`: a copy of every stored epic, each once. */
    method GetEpics() returns (r: seq<Task>)
      requires Valid()
      ensures forall k :: k in epics ==> epics[k] in r
      ensures forall i :: 0 <= i < |r| ==> r[i].Epic? && r[i].id.Some? && r[i].id.value in epics && epics[r[i].id.value] == r[i]
      ensures forall i, j :: 0 <= i < j < |r| ==> r[i] != r[j]
    {
      var keys;
      keys, r := Values(epics);
      forall i | 0 <= i < |r| ensures r[i].Epic? && r[i].id.Some? && r[i].id.value in epics && epics[r[i].id.value] == r[i] {
        var k := keys[i];
        assert k in State().epics && State().epics[k] == r[i];
      }
    }

    /** `getTasks`: a copy of every stored task, each once. */
    method GetTasks() returns (r: seq<Task>)
      requires Valid()
      ensures forall k :: k in tasks ==> tasks[k] in r
      ensures forall i :: 0 <= i < |r| ==> r[i].Plain? && r[i].id.Some? && r[i].id.value in tasks && tasks[r[i].id.value] == r[i]
      ensures forall i, j :: 0 <= i < j < |r| ==> r[i] != r[j]
    {
      var keys;
      keys, r := Values(tasks);
      forall i | 0 <= i < |r| ensures r[i].Plain? && r[i].id.Some? && r[i].id.value in tasks && tasks[r[i].id.value] == r[i] {
        var k := keys[i];
        assert k in State().tasks && State().tasks[k] == r[i];
      }
    }

    /** `getSubtasks`: a copy of every stored subtask, each once. */
    method GetSubtasks() returns (r: seq<Task>)
      requires Valid()
      ensures forall k :: k in subtasks ==> subtasks[k] in r
      ensures forall i :: 0 <= i < |r| ==> r[i].Subtask? && r[i].id.Some? && r[i].id.value in subtasks && subtasks[r[i].id.value] == r[i]
      ensures forall i, j :: 0 <= i < j < |r| ==> r[i] != r[j]
    {
      var keys;
      keys, r := Values(subtasks);
      forall i | 0 <= i < |r| ensures r[i].Subtask? && r[i].id.Some? && r[i].id.value in subtasks && subtasks[r[i].id.value] == r[i] {
        var k := keys[i];
        assert k in State().subtasks && State().subtasks[k] == r[i];
      }
    }

    /** `getAllSubtasksByEpic`: nothing when the given epic's id is not a stored epic's;
        otherwise the stored subtasks whose id the given epic's own set lists, each once. */
    method GetAllSubtasksByEpic(epic: Task) returns (r: seq<Task>)
      requires Valid() && epic.Epic?
      ensures forall x :: x in r <==> x in SubtasksOf(State(), epic)
      ensures forall i, j :: 0 <= i < j < |r| ==> r[i] != r[j]
    {
      if epic.id.None? || epic.id.value !in epics {
        return [];
      }
      var keys, all := Values(subtasks);
      r := [];
      for i := 0 to |all|
        invariant forall x :: x in r <==> x in all[..i] && x.id.Some? && x.id.value in epic.subtasksId
        invariant forall a, b :: 0 <= a < b < |r| ==> r[a] != r[b]
      {
        if all[i].id.Some? && all[i].id.value in epic.subtasksId {
          assert all[i] !in all[..i];
          r := r + [all[i]];
        }
      }
      assert all[..|all|] == all;
      forall x | x in r ensures x in SubtasksOf(State(), epic) {
        assert x in all[..|all|] && x.id.Some? && x.id.value in epic.subtasksId;
        var j :| 0 <= j < |all| && all[j] == x;
        var k := keys[j];
        assert k in State().subtasks && State().subtasks[k] == x;
        assert epic.id.value in State().epics;
      }
    }

    /** `getHistory`: the tracked records, oldest view first, each id once. */
    method GetHistory() returns (r: seq<Task>)
      requires Valid()
      ensures r == history && UniqueIds(r)
    {
      r := history;
    }

    /** `getPrioritizedTasks`: the stored scheduled tasks and subtasks in ascending start order,
        each once, and no epic. */
    method GetPrioritizedTasks() returns (r: seq<Task>)
      requires Valid()
      ensures Sorted(r) && Disjoint(r)
      ensures forall x :: x in r <==> x.start.Some? && Stored(State(), x)
      ensures forall x :: x in r ==> !x.Epic?
    {
      r := prioritized;
      forall x {
        IndexExact(State(), x);
      }
    }
  }
}
