/**
 * The tracker's three record kinds (model/Task.java, model/Epic.java,
 * model/Subtask.java) as one value type.
 *
 * A Java object of class Task, Epic or Subtask becomes a value of the
 * datatype Task whose constructor is the object's runtime class; the field
 * `taskType` is the separate `type` field that the Java constructors set.
 * An instant is a count of milliseconds; `None` stands for an unscheduled
 * record (a null start or the LocalDateTime.MIN sentinel). Setters are
 * datatype updates: `t.(title := x)` is `t.setTitle(x)`.
 */
module Model {
  import opened Wrappers

  datatype Status = NEW | IN_PROGRESS | DONE

  datatype TaskType = TASK | EPIC | SUBTASK

  datatype Task =
    | Plain(id: Option<int>, title: string, description: string, status: Status,
            taskType: TaskType, start: Option<int>, duration: nat)
    | Epic(id: Option<int>, title: string, description: string, status: Status,
           taskType: TaskType, start: Option<int>, duration: nat,
           subtasksId: set<int>, endTime: Option<int>)
    | Subtask(id: Option<int>, title: string, description: string, status: Status,
              taskType: TaskType, start: Option<int>, duration: nat,
              epicId: Option<int>)

  // ---------------------------------------------------------------------
  // Constructors

  /** `new Task(title, description)`: no id, NEW, type TASK, unscheduled. */
  function NewTask(title: string, description: string): Task
  {
    Plain(None, title, description, NEW, TASK, None, 0)
  }

  /** `new Task(title, description, startTime, duration)`. */
  function NewScheduledTask(title: string, description: string, start: Option<int>, duration: nat): Task
  {
    Plain(None, title, description, NEW, TASK, start, duration)
  }

  /** The seven-argument Task constructor the file loader uses. */
  function FullTask(id: int, title: string, description: string, status: Status,
                    taskType: TaskType, start: Option<int>, duration: nat): Task
  {
    Plain(Some(id), title, description, status, taskType, start, duration)
  }

  /** `new Epic(title, description)`: an empty id set, type EPIC, no start, zero duration. */
  function NewEpic(title: string, description: string): Task
  {
    Epic(None, title, description, NEW, EPIC, None, 0, {}, None)
  }

  /** The full Epic constructor; it leaves the stored end time null. */
  function FullEpic(id: int, title: string, description: string, status: Status, taskType: TaskType,
                    subtasks: set<int>, start: Option<int>, duration: nat): Task
  {
    Epic(Some(id), title, description, status, taskType, start, duration, subtasks, None)
  }

  /** `new Subtask(title, description, epic, startTime, duration)`: the epic's id is captured now. */
  function NewSubtask(title: string, description: string, epic: Task, start: Option<int>, duration: nat): Task
  {
    Subtask(None, title, description, NEW, SUBTASK, start, duration, epic.id)
  }

  /** The full Subtask constructor; the epic link is the given epic's id at this moment. */
  function FullSubtask(id: int, title: string, description: string, status: Status, taskType: TaskType,
                       epic: Task, start: Option<int>, duration: nat): Task
  {
    Subtask(Some(id), title, description, status, taskType, start, duration, epic.id)
  }

  lemma NewRecordDefaults(title: string, description: string, epic: Task, start: Option<int>, duration: nat)
    ensures var t := NewTask(title, description);
      t.id == None && t.status == NEW && t.taskType == TASK && t.Plain?
    ensures var e := NewEpic(title, description);
      e.Epic? && e.subtasksId == {} && e.taskType == EPIC && e.start == None && e.duration == 0
      && EndTime(e) == None
    ensures var s := NewSubtask(title, description, epic, start, duration);
      s.Subtask? && s.taskType == SUBTASK && s.epicId == epic.id && s.status == NEW
    ensures FullSubtask(1, title, description, NEW, SUBTASK, NewEpic("", ""), start, duration).epicId == None
  {
  }

  /** `setId`: the record with the given id and every other field as it was. */
  function SetId(t: Task, id: int): (r: Task)
    ensures r.id == Some(id) && r.(id := t.id) == t
  {
    t.(id := Some(id))
  }

  // ---------------------------------------------------------------------
  // Equality and hashing

  predicate SameClass(a: Task, b: Task)
  {
    (a.Plain? && b.Plain?) || (a.Epic? && b.Epic?) || (a.Subtask? && b.Subtask?)
  }

  /** `Objects.hashCode(id)`: the id itself, or 0 for a missing id. */
  function HashCode(t: Task): int
  {
    if t.id.Some? then t.id.value else 0
  }

  /** `Task.equals`: the same runtime class and the same (possibly missing) id. */
  function Equals(a: Task, b: Task): (r: bool)
    ensures r ==> HashCode(a) == HashCode(b)
    ensures a.id.None? && b.id.None? && SameClass(a, b) ==> r
    ensures a.Plain? && !b.Plain? ==> !r
  {
    SameClass(a, b) && a.id == b.id
  }

  lemma EqualsIsEquivalence(a: Task, b: Task, c: Task)
    ensures Equals(a, a)
    ensures Equals(a, b) ==> Equals(b, a)
    ensures Equals(a, b) && Equals(b, c) ==> Equals(a, c)
    ensures a.id == b.id && SameClass(a, b) ==> Equals(a, b)
  {
  }

  // ---------------------------------------------------------------------
  // Times

  /** `getEndTime`: start + duration for a Task or Subtask; the stored end time for an Epic. */
  function EndTime(t: Task): Option<int>
  {
    if t.Epic? then t.endTime
    else if t.start.Some? then Some(t.start.value + t.duration)
    else None
  }

  lemma EndTimeFacts(t: Task)
    ensures !t.Epic? ==> (EndTime(t).Some? <==> t.start.Some?)
    ensures !t.Epic? && t.start.Some? ==> EndTime(t).value == t.start.value + t.duration >= t.start.value
    ensures t.Epic? ==> EndTime(t) == t.endTime
  {
  }

  // ---------------------------------------------------------------------
  // Epic's subtask-id set and Subtask's epic link

  /** `Epic.addOrUpdateSubtask`: insert the subtask's id; nothing else changes. */
  function AddOrUpdateSubtask(epic: Task, subtask: Task): (e: Task)
    requires epic.Epic? && subtask.id.Some?
    ensures e.Epic? && subtask.id.value in e.subtasksId && epic.subtasksId <= e.subtasksId
    ensures |e.subtasksId| <= |epic.subtasksId| + 1
    ensures e.(subtasksId := epic.subtasksId) == epic
  {
    epic.(subtasksId := epic.subtasksId + {subtask.id.value})
  }

  /** `Epic.removeSubtask`: delete the subtask's id, a no-op when it is absent or null. */
  function RemoveSubtask(epic: Task, subtask: Task): (e: Task)
    requires epic.Epic?
    ensures e.Epic? && e.subtasksId <= epic.subtasksId
    ensures subtask.id.Some? ==> subtask.id.value !in e.subtasksId
    ensures e.(subtasksId := epic.subtasksId) == epic
  {
    if subtask.id.Some? then epic.(subtasksId := epic.subtasksId - {subtask.id.value}) else epic
  }

  /** `getSubtasksId().clear()` on an epic: the set is emptied in place. */
  function ClearSubtasksId(epic: Task): (e: Task)
    requires epic.Epic?
    ensures e.Epic? && e.subtasksId == {} && e.(subtasksId := epic.subtasksId) == epic
  {
    epic.(subtasksId := {})
  }

  lemma AddOrUpdateSubtaskIdempotent(epic: Task, subtask: Task)
    requires epic.Epic? && subtask.id.Some?
    ensures AddOrUpdateSubtask(AddOrUpdateSubtask(epic, subtask), subtask) == AddOrUpdateSubtask(epic, subtask)
    ensures subtask.id.value in epic.subtasksId ==> AddOrUpdateSubtask(epic, subtask) == epic
  {
  }

  /** Removing undoes adding an id that was not there; removing an absent id changes nothing. */
  lemma RemoveUndoesAdd(epic: Task, subtask: Task)
    requires epic.Epic? && subtask.id.Some?
    ensures subtask.id.value !in epic.subtasksId ==>
      RemoveSubtask(AddOrUpdateSubtask(epic, subtask), subtask) == epic
    ensures subtask.id.value !in epic.subtasksId ==> RemoveSubtask(epic, subtask) == epic
  {
    if subtask.id.value !in epic.subtasksId {
      assert epic.subtasksId + {subtask.id.value} - {subtask.id.value} == epic.subtasksId;
      assert epic.subtasksId - {subtask.id.value} == epic.subtasksId;
    }
  }

  /** `Subtask.setEpic`: the link becomes the given epic's current id. */
  function SetEpic(subtask: Task, epic: Task): (s: Task)
    requires subtask.Subtask?
    ensures s.Subtask? && s.epicId == epic.id
    ensures s.(epicId := subtask.epicId) == subtask
  {
    subtask.(epicId := epic.id)
  }

  // ---------------------------------------------------------------------
  // The epic status rule (checkEpicStatus in both store revisions)

  /** The counting rule: none -> NEW, all DONE -> DONE, all NEW -> NEW, otherwise IN_PROGRESS. */
  function StatusRule(count: nat, doneCount: nat, newCount: nat): Status
  {
    if count == 0 then NEW
    else if doneCount == count then DONE
    else if newCount == count then NEW
    else IN_PROGRESS
  }

  /** The owned subtasks that are present in `m`. */
  function Owned(m: map<int, Task>, ids: set<int>): set<int>
  {
    m.Keys * ids
  }

  /** The owned subtasks of `m` whose status is `s`. */
  function WithStatus(m: map<int, Task>, ids: set<int>, s: Status): (r: set<int>)
    ensures r <= Owned(m, ids)
  {
    set k | k in Owned(m, ids) && m[k].status == s
  }

  /** The status of an epic owning the subtasks of `m` whose ids are in `ids`. */
  function EpicStatus(m: map<int, Task>, ids: set<int>): Status
  {
    StatusRule(|Owned(m, ids)|, |WithStatus(m, ids, DONE)|, |WithStatus(m, ids, NEW)|)
  }

  /** A non-empty set has a member. */
  lemma NonEmptyHasMember(s: set<int>)
    requires s != {}
    ensures exists x :: x in s
  {
    if forall x :: x !in s {
      assert false;
    }
  }

  /** A subset is no larger than its superset, and of equal size only when the two are equal. */
  lemma SubsetCardinality<T>(small: set<T>, big: set<T>)
    requires small <= big
    ensures |small| <= |big|
    ensures |small| == |big| ==> small == big
  {
    var rest := big - small;
    assert big == small + rest && small * rest == {};
    if |small| == |big| {
      assert rest == {};
    }
  }

  /** Every owned subtask has status `s`. */
  predicate AllHave(m: map<int, Task>, ids: set<int>, s: Status)
  {
    forall k :: k in Owned(m, ids) ==> m[k].status == s
  }

  /** Counting a status gives the owned count exactly when every owned subtask has it. */
  lemma CountIsAll(m: map<int, Task>, ids: set<int>, s: Status)
    ensures |WithStatus(m, ids, s)| == |Owned(m, ids)| <==> AllHave(m, ids, s)
  {
    var owned, matching := Owned(m, ids), WithStatus(m, ids, s);
    SubsetCardinality(matching, owned);
    if AllHave(m, ids, s) {
      forall k | k in owned ensures k in matching {
      }
      assert matching == owned;
    }
  }

  /** What the counting rule means, case by case. */
  lemma EpicStatusMeaning(m: map<int, Task>, ids: set<int>)
    ensures EpicStatus(m, ids) == DONE <==> Owned(m, ids) != {} && AllHave(m, ids, DONE)
    ensures EpicStatus(m, ids) == NEW <==> AllHave(m, ids, NEW)
    ensures EpicStatus(m, ids) == IN_PROGRESS <==>
      !AllHave(m, ids, DONE) && !AllHave(m, ids, NEW)
  {
    CountIsAll(m, ids, DONE);
    CountIsAll(m, ids, NEW);
    var owned := Owned(m, ids);
    if owned != {} {
      NonEmptyHasMember(owned);
      var w :| w in owned;
      assert !(AllHave(m, ids, DONE) && AllHave(m, ids, NEW));
    }
  }

  /** The table of the design, for two listed subtasks `a` and `b`: {NEW,NEW} -> NEW,
      {DONE,DONE} -> DONE, {NEW,DONE} -> IN_PROGRESS. */
  lemma EpicStatusPairs(a: Task, b: Task)
    ensures a.status == b.status == NEW ==> EpicStatus(map[1 := a, 2 := b], {1, 2}) == NEW
    ensures a.status == b.status == DONE ==> EpicStatus(map[1 := a, 2 := b], {1, 2}) == DONE
    ensures a.status == NEW && b.status == DONE ==>
      EpicStatus(map[1 := a, 2 := b], {1, 2}) == IN_PROGRESS
  {
    var m := map[1 := a, 2 := b];
    EpicStatusMeaning(m, {1, 2});
    assert 1 in Owned(m, {1, 2}) && 2 in Owned(m, {1, 2});
  }

  /** The rest of the table: no stored subtask -> NEW, {IN_PROGRESS} -> IN_PROGRESS. */
  lemma EpicStatusEdges(a: Task)
    ensures EpicStatus(map[], {1, 2}) == NEW
    ensures a.status == IN_PROGRESS ==> EpicStatus(map[1 := a], {1}) == IN_PROGRESS
  {
    EpicStatusMeaning(map[], {1, 2});
    EpicStatusMeaning(map[1 := a], {1});
    assert 1 in Owned(map[1 := a], {1});
  }
}
