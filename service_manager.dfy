/**
 * The older in-memory store (service/InMemoryTaskManager.java): three hash
 * maps of shared record objects, one id counter per kind, and an injected
 * history (the bounded list of ServiceHistory) that every getter feeds.
 *
 * Ids are per kind: a task, an epic and a subtask may all have id 1. An
 * epic's status is re-derived from the subtasks its own collection holds.
 */
module ServiceManager {
  import opened Wrappers
  import Model
  import opened ServiceModel
  import ServiceHistory

  /** `id` is the least value at or above `from` that is not taken. */
  predicate FirstFree(id: int, taken: set<Key>, from: int)
  {
    from <= id && Some(id) !in taken && forall k :: from <= k < id ==> Some(k) in taken
  }

  /** The loop of `generateTaskId`, `generateEpicId` and `generateSubtaskId`:
      bump the counter while the map holds it as a key. */
  method NextFree(from: int, taken: set<Key>) returns (id: int)
    ensures FirstFree(id, taken, from)
  {
    id := from;
    ghost var pending := set k | k in taken && k.Some? && k.value >= id;
    while Some(id) in taken
      invariant from <= id && forall k :: from <= k < id ==> Some(k) in taken
      invariant pending == set k | k in taken && k.Some? && k.value >= id
      decreases |pending|
    {
      var next := set k | k in taken && k.Some? && k.value >= id + 1;
      assert next == pending - {Some(id)};
      id, pending := id + 1, next;
    }
  }

  class InMemoryTaskManager {
    const historyManager: ServiceHistory.InMemoryHistoryManager
    var taskId: int
    var epicId: int
    var subtaskId: int
    var epics: map<Key, Epic>
    var tasks: map<Key, Task>
    var subtasks: map<Key, Subtask>

    /** The counters start at 1 and only grow; the history keeps its bound. */
    predicate Valid()
      reads this, historyManager
    {
      1 <= taskId && 1 <= epicId && 1 <= subtaskId && historyManager.Valid()
    }

    constructor (historyManager: ServiceHistory.InMemoryHistoryManager)
      requires historyManager.Valid()
      ensures Valid() && this.historyManager == historyManager
      ensures taskId == 1 && epicId == 1 && subtaskId == 1
      ensures epics == map[] && tasks == map[] && subtasks == map[]
    {
      this.historyManager := historyManager;
      taskId, epicId, subtaskId := 1, 1, 1;
      epics, tasks, subtasks := map[], map[], map[];
    }

    // -------------------------------------------------------------------
    // Id generators

    method GenerateTaskId() returns (id: int)
      modifies this`taskId
      ensures FirstFree(id, tasks.Keys, old(taskId)) && taskId == id
    {
      taskId := NextFree(taskId, tasks.Keys);
      id := taskId;
    }

    method GenerateEpicId() returns (id: int)
      modifies this`epicId
      ensures FirstFree(id, epics.Keys, old(epicId)) && epicId == id
    {
      epicId := NextFree(epicId, epics.Keys);
      id := epicId;
    }

    method GenerateSubtaskId() returns (id: int)
      modifies this`subtaskId
      ensures FirstFree(id, subtasks.Keys, old(subtaskId)) && subtaskId == id
    {
      subtaskId := NextFree(subtaskId, subtasks.Keys);
      id := subtaskId;
    }

    // -------------------------------------------------------------------
    // Listing

    method GetEpics() returns (r: seq<Epic>, ghost keys: seq<Key>)
      ensures Lists(keys, epics) && |r| == |keys|
      ensures forall i :: 0 <= i < |r| ==> r[i] == epics[keys[i]]
      ensures forall k :: k in epics ==> epics[k] in r
      ensures forall i :: 0 <= i < |r| ==> r[i] in epics.Values
    {
      keys, r := Listing(epics);
      ListedValues(keys, r, epics);
    }

    method GetTasks() returns (r: seq<Task>, ghost keys: seq<Key>)
      ensures Lists(keys, tasks) && |r| == |keys|
      ensures forall i :: 0 <= i < |r| ==> r[i] == tasks[keys[i]]
      ensures forall k :: k in tasks ==> tasks[k] in r
      ensures forall i :: 0 <= i < |r| ==> r[i] in tasks.Values
    {
      keys, r := Listing(tasks);
      ListedValues(keys, r, tasks);
    }

    method GetSubtasks() returns (r: seq<Subtask>, ghost keys: seq<Key>)
      ensures Lists(keys, subtasks) && |r| == |keys|
      ensures forall i :: 0 <= i < |r| ==> r[i] == subtasks[keys[i]]
      ensures forall k :: k in subtasks ==> subtasks[k] in r
      ensures forall i :: 0 <= i < |r| ==> r[i] in subtasks.Values
    {
      keys, r := Listing(subtasks);
      ListedValues(keys, r, subtasks);
    }

    // -------------------------------------------------------------------
    // Adding

    /** `addEpic`: a null epic, or one whose id is already a key, is refused with -1;
        otherwise a missing id is generated and set on the caller's object. */
    method AddEpic(epic: Epic?) returns (r: int)
      requires Valid()
      modifies this`epics, this`epicId, (if epic == null then {} else {epic})`id
      ensures Valid()
      ensures epic == null || old(epic.id) in old(epics) ==>
        r == -1 && epics == old(epics) && epicId == old(epicId) && (epic != null ==> epic.id == old(epic.id))
      ensures epic != null && old(epic.id) !in old(epics) ==>
        epic.id.Some? && r == epic.id.value && epics == old(epics)[epic.id := epic]
      ensures epic != null && old(epic.id) !in old(epics) && old(epic.id).Some? ==>
        epic.id == old(epic.id) && epicId == old(epicId)
      ensures epic != null && old(epic.id) !in old(epics) && old(epic.id) == None ==>
        FirstFree(r, old(epics).Keys, old(epicId)) && epicId == r
    {
      if epic != null && epic.id !in epics {
        if epic.id == None {
          var id := GenerateEpicId();
          epic.id := Some(id);
        }
        epics := epics[epic.id := epic];
        return epic.id.value;
      }
      return -1;
    }

    /** `addTask`: as `addEpic`, over the task map and the task counter. */
    method AddTask(task: Task?) returns (r: int)
      requires Valid()
      modifies this`tasks, this`taskId, (if task == null then {} else {task})`id
      ensures Valid()
      ensures task == null || old(task.id) in old(tasks) ==>
        r == -1 && tasks == old(tasks) && taskId == old(taskId) && (task != null ==> task.id == old(task.id))
      ensures task != null && old(task.id) !in old(tasks) ==>
        task.id.Some? && r == task.id.value && tasks == old(tasks)[task.id := task]
      ensures task != null && old(task.id) !in old(tasks) && old(task.id).Some? ==>
        task.id == old(task.id) && taskId == old(taskId)
      ensures task != null && old(task.id) !in old(tasks) && old(task.id) == None ==>
        FirstFree(r, old(tasks).Keys, old(taskId)) && taskId == r
    {
      if task != null && task.id !in tasks {
        if task.id == None {
          var id := GenerateTaskId();
          task.id := Some(id);
        }
        tasks := tasks[task.id := task];
        return task.id.value;
      }
      return -1;
    }

    /** `addSubtask`: as `addEpic`; in addition the subtask's epic, when it has one,
        takes the subtask into its collection and re-derives its status. */
    method AddSubtask(subtask: Subtask?) returns (r: int)
      requires Valid()
      modifies this`subtasks, this`subtaskId, (if subtask == null then {} else {subtask})`id
      modifies EpicOf(subtask)`subtasks, EpicOf(subtask)`status
      ensures Valid()
      ensures subtask == null || old(subtask.id) in old(subtasks) ==>
        r == -1 && subtasks == old(subtasks) && subtaskId == old(subtaskId)
      ensures subtask != null && old(subtask.id) in old(subtasks) ==>
        subtask.id == old(subtask.id) && (subtask.epic != null ==> unchanged(subtask.epic))
      ensures subtask != null && old(subtask.id) !in old(subtasks) ==>
        subtask.id.Some? && r == subtask.id.value && subtasks == old(subtasks)[subtask.id := subtask]
      ensures subtask != null && old(subtask.id) !in old(subtasks) && old(subtask.id).Some? ==>
        subtask.id == old(subtask.id) && subtaskId == old(subtaskId)
      ensures subtask != null && old(subtask.id) !in old(subtasks) && old(subtask.id) == None ==>
        FirstFree(r, old(subtasks).Keys, old(subtaskId)) && subtaskId == r
      ensures subtask != null && old(subtask.id) !in old(subtasks) && subtask.epic != null ==>
        subtask.epic.subtasks == old(subtask.epic.subtasks)[subtask.id := subtask] &&
        subtask.epic.status == Derived(Statuses(subtask.epic))
    {
      if subtask != null && subtask.id !in subtasks {
        if subtask.id == None {
          var id := GenerateSubtaskId();
          subtask.id := Some(id);
        }
        var epic := subtask.epic;
        if epic != null {
          epic.AddOrUpdateSubtask(subtask);
          CheckEpicStatus(epic);
        }
        subtasks := subtasks[subtask.id := subtask];
        return subtask.id.value;
      }
      return -1;
    }

    // -------------------------------------------------------------------
    // Removing

    /** `removeEpic`: the epic leaves the map, then so does the id of every subtask its
        collection holds. An absent id throws when the null epic is dereferenced. */
    method RemoveEpic(id: int) returns (r: Result<Epic>)
      modifies this`epics, this`subtasks
      ensures epics == old(epics) - {Some(id)}
      ensures Some(id) !in old(epics) ==> r == Err(NullPointer) && subtasks == old(subtasks)
      ensures Some(id) in old(epics) && None !in HeldIds(old(epics)[Some(id)]) ==>
        r == Ok(old(epics)[Some(id)]) && subtasks == old(subtasks) - HeldIds(old(epics)[Some(id)])
      ensures Some(id) in old(epics) && None in HeldIds(old(epics)[Some(id)]) ==>
        r == Err(NullPointer) && subtasks.Keys <= old(subtasks).Keys
      ensures Some(id) in old(epics) ==> old(subtasks).Keys - subtasks.Keys <= HeldIds(old(epics)[Some(id)])
      ensures forall k :: k in subtasks ==> k in old(subtasks) && subtasks[k] == old(subtasks)[k]
    {
      var epic := if Some(id) in epics then Some(epics[Some(id)]) else None;
      epics := epics - {Some(id)};
      if epic.None? {
        return Err(NullPointer);
      }
      var failure;
      subtasks, failure := RemoveHeld(subtasks, epic.value);
      if failure.Some? {
        return Err(failure.value);
      }
      return Ok(epic.value);
    }

    /** `removeTask`: the task leaves the map; the removed task, or null, is returned. */
    method RemoveTask(id: int) returns (r: Option<Task>)
      modifies this`tasks
      ensures tasks == old(tasks) - {Some(id)}
      ensures r == (if Some(id) in old(tasks) then Some(old(tasks)[Some(id)]) else None)
    {
      r := if Some(id) in tasks then Some(tasks[Some(id)]) else None;
      tasks := tasks - {Some(id)};
    }

    /** The epic the subtask stored under `id` refers to, which `removeSubtask` changes. */
    function OwnerOf(id: int): (e: set<Epic>)
      reads this, if Some(id) in subtasks then {subtasks[Some(id)]} else {}
    {
      if Some(id) in subtasks then EpicOf(subtasks[Some(id)]) else {}
    }

    /** `removeSubtask`: the subtask leaves the map; then its epic drops it and re-derives
        its status. An absent id, or a subtask without an epic, throws after the removal. */
    method RemoveSubtask(id: int) returns (r: Result<Subtask>)
      modifies this`subtasks, OwnerOf(id)`subtasks, OwnerOf(id)`status
      ensures subtasks == old(subtasks) - {Some(id)}
      ensures old(OwnerOf(id)) == {} ==> r == Err(NullPointer)
      ensures forall e :: e in old(OwnerOf(id)) ==>
        var s := old(subtasks)[Some(id)];
        r == Ok(s) && e == s.epic && e.subtasks == old(e.subtasks) - {s.id} && e.status == Derived(Statuses(e))
    {
      var subtask := if Some(id) in subtasks then Some(subtasks[Some(id)]) else None;
      subtasks := subtasks - {Some(id)};
      if subtask.None? || subtask.value.epic == null {
        return Err(NullPointer);
      }
      var epic := subtask.value.epic;
      epic.RemoveSubtask(subtask.value);
      CheckEpicStatus(epic);
      return Ok(subtask.value);
    }

    /** `getAllSubtasksByEpic`: the subtasks the passed epic's own collection holds, or an
        empty list when no stored epic has its id. */
    method GetAllSubtasksByEpic(epic: Epic) returns (r: seq<Subtask>, ghost keys: seq<Key>)
      ensures epic.id !in epics ==> r == [] && keys == []
      ensures epic.id in epics ==> Lists(keys, epic.subtasks) && |r| == |keys|
      ensures forall i :: 0 <= i < |r| ==> r[i] == epic.subtasks[keys[i]]
      ensures epic.id in epics ==> forall k :: k in epic.subtasks ==> epic.subtasks[k] in r
      ensures forall i :: 0 <= i < |r| ==> r[i] in epic.subtasks.Values
    {
      if epic.id !in epics {
        return [], [];
      }
      keys, r := Listing(epic.subtasks);
      ListedValues(keys, r, epic.subtasks);
    }

    // -------------------------------------------------------------------
    // Clearing

    /** `clearEpics`: no epic and no subtask is left; tasks stay. */
    method ClearEpics()
      modifies this`epics, this`subtasks
      ensures epics == map[] && subtasks == map[]
    {
      epics, subtasks := map[], map[];
    }

    /** `clearTasks`: no task is left; epics and subtasks stay. */
    method ClearTasks()
      modifies this`tasks
      ensures tasks == map[]
    {
      tasks := map[];
    }

    /** `clearSubtasks`: every stored epic's collection is emptied and its status re-derived,
        which makes it NEW; then the subtask map is emptied. */
    method ClearSubtasks()
      modifies this`subtasks, epics.Values`subtasks, epics.Values`status
      ensures subtasks == map[]
      ensures forall e :: e in epics.Values ==> e.subtasks == map[] && e.status == Model.NEW
    {
      var keys, list := Listing(epics);
      for i := 0 to |list|
        invariant forall j :: 0 <= j < i ==> list[j].subtasks == map[] && list[j].status == Model.NEW
      {
        assert list[i] in epics.Values;
        EmptyEpic(list[i]);
      }
      forall e | e in epics.Values ensures e.subtasks == map[] && e.status == Model.NEW {
        var k :| k in epics && epics[k] == e;
        var j :| 0 <= j < |keys| && keys[j] == k;
      }
      subtasks := map[];
    }

    /** One step of `clearSubtasks`: the epic's collection is cleared in place and
        its status re-derived. */
    method EmptyEpic(epic: Epic)
      modifies epic`subtasks, epic`status
      ensures epic.subtasks == map[] && epic.status == Model.NEW
    {
      epic.subtasks := map[];
      CheckEpicStatus(epic);
    }

    // -------------------------------------------------------------------
    // Updating

    /** `updateEpic`: the status is re-derived from the epic's collection, overriding
        whatever the caller set, and the epic is stored under its id. */
    method UpdateEpic(epic: Epic)
      modifies this`epics, epic`status
      ensures epics == old(epics)[epic.id := epic]
      ensures epic.status == Derived(Statuses(epic))
    {
      CheckEpicStatus(epic);
      epics := epics[epic.id := epic];
    }

    /** `updateTask`: the task is stored under its id. */
    method UpdateTask(task: Task)
      modifies this`tasks
      ensures tasks == old(tasks)[task.id := task]
    {
      tasks := tasks[task.id := task];
    }

    /** `updateSubtask`: the subtask is stored under its id and its epic, if any,
        re-derives its status. */
    method UpdateSubtask(subtask: Subtask)
      modifies this`subtasks, EpicOf(subtask)`status
      ensures subtasks == old(subtasks)[subtask.id := subtask]
      ensures subtask.epic != null ==> subtask.epic.status == Derived(Statuses(subtask.epic))
    {
      subtasks := subtasks[subtask.id := subtask];
      CheckEpicStatus(subtask.epic);
    }

    // -------------------------------------------------------------------
    // Getters, which feed the history

    /** `getTask`: the stored task, recorded in the history. For an absent id the history
        receives null and throws from its copy constructor, after evicting when full. */
    method GetTask(id: int) returns (r: Result<Task>)
      requires Valid()
      modifies historyManager
      ensures Valid()
      ensures Some(id) in tasks ==> r == Ok(tasks[Some(id)])
      ensures Some(id) in tasks ==>
        historyManager.history == ServiceHistory.Window(old(historyManager.history) + [TaskRecord(tasks[Some(id)])])
      ensures Some(id) !in tasks ==> r == Err(NullPointer)
      ensures Some(id) !in tasks ==>
        historyManager.history == Evicted(old(historyManager.history))
    {
      var task := if Some(id) in tasks then Some(tasks[Some(id)]) else None;
      var failure := historyManager.Add(if task.Some? then Some(TaskRecord(task.value)) else None);
      r := if failure.Some? then Err(failure.value) else Ok(task.value);
    }

    /** `getEpic`: as `getTask`, over the epic map. */
    method GetEpic(id: int) returns (r: Result<Epic>)
      requires Valid()
      modifies historyManager
      ensures Valid()
      ensures Some(id) in epics ==> r == Ok(epics[Some(id)])
      ensures Some(id) in epics ==>
        historyManager.history == ServiceHistory.Window(old(historyManager.history) + [EpicRecord(epics[Some(id)])])
      ensures Some(id) !in epics ==> r == Err(NullPointer)
      ensures Some(id) !in epics ==>
        historyManager.history == Evicted(old(historyManager.history))
    {
      var epic := if Some(id) in epics then Some(epics[Some(id)]) else None;
      var failure := historyManager.Add(if epic.Some? then Some(EpicRecord(epic.value)) else None);
      r := if failure.Some? then Err(failure.value) else Ok(epic.value);
    }

    /** `getSubtask`: as `getTask`, over the subtask map. */
    method GetSubtask(id: int) returns (r: Result<Subtask>)
      requires Valid()
      modifies historyManager
      ensures Valid()
      ensures Some(id) in subtasks ==> r == Ok(subtasks[Some(id)])
      ensures Some(id) in subtasks ==>
        historyManager.history == ServiceHistory.Window(old(historyManager.history) + [SubtaskRecord(subtasks[Some(id)])])
      ensures Some(id) !in subtasks ==> r == Err(NullPointer)
      ensures Some(id) !in subtasks ==>
        historyManager.history == Evicted(old(historyManager.history))
    {
      var subtask := if Some(id) in subtasks then Some(subtasks[Some(id)]) else None;
      var failure := historyManager.Add(if subtask.Some? then Some(SubtaskRecord(subtask.value)) else None);
      r := if failure.Some? then Err(failure.value) else Ok(subtask.value);
    }

    /** `getHistory`: the history's list. */
    method GetHistory() returns (r: seq<Model.Task>)
      ensures r == historyManager.history
    {
      r := historyManager.GetHistory();
    }

    /** `checkEpicStatus`: nothing for a null epic; otherwise NEW with no held subtask,
        DONE when all are DONE, NEW when all are NEW, else IN_PROGRESS. */
    method CheckEpicStatus(epic: Epic?)
      modifies (if epic == null then {} else {epic})`status
      ensures epic != null ==> epic.status == Derived(Statuses(epic))
    {
      if epic == null {
        return;
      }
      epic.status := Derived(Statuses(epic));
    }
  }

  /** The epic a subtask refers to, if any. */
  function EpicOf(s: Subtask?): set<Epic>
    reads s
  {
    if s == null || s.epic == null then {} else {s.epic}
  }

  /** The list after a full history drops its oldest entry. */
  function Evicted(h: seq<Model.Task>): seq<Model.Task>
  {
    if |h| == ServiceHistory.HISTORY_SIZE then h[1..] else h
  }
}
