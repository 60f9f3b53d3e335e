/**
 * The first store revision (service/TaskManager.java): three hash maps of
 * shared record objects with no id generation of its own, varargs adds that
 * overwrite by id, the epic cascade on removal, and a process-wide counter
 * callers use to number their records.
 */
module ServiceStore {
  import opened Wrappers
  import opened ServiceModel

  /** `map.put(k, v)` for each pair in turn; a later pair overwrites an earlier one. */
  function PutAll<V>(m: map<Key, V>, keys: seq<Key>, values: seq<V>): (r: map<Key, V>)
    requires |keys| == |values|
  {
    if keys == [] then m
    else PutAll(m, keys[..|keys| - 1], values[..|values| - 1])[keys[|keys| - 1] := values[|values| - 1]]
  }

  /** After the puts, a key is present iff it was present or was put; a key's value is
      the last value put under it, or the old value when none was. */
  lemma {:induction false} PutAllMeaning<V>(m: map<Key, V>, keys: seq<Key>, values: seq<V>)
    requires |keys| == |values|
    ensures forall k :: k in PutAll(m, keys, values) <==> k in m || k in keys
    ensures forall k :: k in m && k !in keys ==> PutAll(m, keys, values)[k] == m[k]
    ensures forall i :: 0 <= i < |keys| && keys[i] !in keys[i + 1..] ==>
      PutAll(m, keys, values)[keys[i]] == values[i]
  {
    if keys != [] {
      var n := |keys| - 1;
      PutAllMeaning(m, keys[..n], values[..n]);
      assert keys == keys[..n] + [keys[n]];
      forall i | 0 <= i < n && keys[i] !in keys[i + 1..]
        ensures PutAll(m, keys, values)[keys[i]] == values[i]
      {
        assert keys[n] in keys[i + 1..] by {
          assert keys[i + 1..][n - i - 1] == keys[n];
        }
        assert keys[..n][i + 1..] == keys[i + 1..n];
        assert keys[i] !in keys[..n][i + 1..];
        assert values[..n][i] == values[i];
      }
    }
  }

  /** The ids of the given records, read now. */
  function EpicIds(es: seq<Epic>): (r: seq<Key>)
    reads set e | e in es
    ensures |r| == |es| && forall i :: 0 <= i < |es| ==> r[i] == es[i].id
  {
    seq(|es|, i requires 0 <= i < |es| reads set e | e in es => es[i].id)
  }

  function TaskIds(ts: seq<Task>): (r: seq<Key>)
    reads set t | t in ts
    ensures |r| == |ts| && forall i :: 0 <= i < |ts| ==> r[i] == ts[i].id
  {
    seq(|ts|, i requires 0 <= i < |ts| reads set t | t in ts => ts[i].id)
  }

  function SubtaskIds(ss: seq<Subtask>): (r: seq<Key>)
    reads set s | s in ss
    ensures |r| == |ss| && forall i :: 0 <= i < |ss| ==> r[i] == ss[i].id
  {
    seq(|ss|, i requires 0 <= i < |ss| reads set s | s in ss => ss[i].id)
  }

  /** The static `taskCounter`, shared by every store in the process. */
  class TaskCounter {
    var taskCounter: int

    constructor ()
      ensures taskCounter == 0
    {
      taskCounter := 0;
    }

    /** `incrementAndGetTaskCounter`: pre-increment and return, so the first call from
        the initial state gives 1 and each call gives one more than the last. */
    method IncrementAndGet() returns (r: int)
      modifies this
      ensures taskCounter == old(taskCounter) + 1 && r == taskCounter
      ensures r > old(taskCounter)
    {
      taskCounter := taskCounter + 1;
      r := taskCounter;
    }
  }

  class TaskManager {
    var epics: map<Key, Epic>
    var tasks: map<Key, Task>
    var subtasks: map<Key, Subtask>

    constructor ()
      ensures epics == map[] && tasks == map[] && subtasks == map[]
    {
      epics, tasks, subtasks := map[], map[], map[];
    }

    /** `addEpic(Epic...)`: each epic is put under its id, in argument order. */
    method AddEpic(es: seq<Epic>)
      modifies this`epics
      ensures epics == PutAll(old(epics), EpicIds(es), es)
    {
      for i := 0 to |es|
        invariant epics == PutAll(old(epics), EpicIds(es[..i]), es[..i])
      {
        assert EpicIds(es[..i + 1])[..i] == EpicIds(es[..i]) && es[..i + 1][..i] == es[..i];
        epics := epics[es[i].id := es[i]];
      }
      assert es[..|es|] == es;
    }

    /** `addTask(Task...)`: each task is put under its id, in argument order. */
    method AddTask(ts: seq<Task>)
      modifies this`tasks
      ensures tasks == PutAll(old(tasks), TaskIds(ts), ts)
    {
      for i := 0 to |ts|
        invariant tasks == PutAll(old(tasks), TaskIds(ts[..i]), ts[..i])
      {
        assert TaskIds(ts[..i + 1])[..i] == TaskIds(ts[..i]) && ts[..i + 1][..i] == ts[..i];
        tasks := tasks[ts[i].id := ts[i]];
      }
      assert ts[..|ts|] == ts;
    }

    /** `addSubtask(Subtask...)`: each subtask is put under its id, in argument order. */
    method AddSubtask(ss: seq<Subtask>)
      modifies this`subtasks
      ensures subtasks == PutAll(old(subtasks), SubtaskIds(ss), ss)
    {
      for i := 0 to |ss|
        invariant subtasks == PutAll(old(subtasks), SubtaskIds(ss[..i]), ss[..i])
      {
        assert SubtaskIds(ss[..i + 1])[..i] == SubtaskIds(ss[..i]) && ss[..i + 1][..i] == ss[..i];
        subtasks := subtasks[ss[i].id := ss[i]];
      }
      assert ss[..|ss|] == ss;
    }

    /** `removeEpic`: the epic leaves the map, then so does the id of every subtask its
        collection holds. An absent id throws when the null epic is dereferenced. */
    method RemoveEpic(id: int) returns (r: Result<Epic>)
      modifies this`epics, this`subtasks
      ensures epics == old(epics) - {Some(id)}
      ensures Some(id) !in old(epics) ==> r == Err(NullPointer) && subtasks == old(subtasks)
      ensures Some(id) in old(epics) && None !in HeldIds(old(epics)[Some(id)]) ==>
        r == Ok(old(epics)[Some(id)]) && subtasks == old(subtasks) - HeldIds(old(epics)[Some(id)])
      ensures Some(id) in old(epics) && None in HeldIds(old(epics)[Some(id)]) ==>
        r == Err(NullPointer) && subtasks.Keys <= old(subtasks).Keys
      ensures Some(id) in old(epics) ==> old(subtasks).Keys - subtasks.Keys <= HeldIds(old(epics)[Some(id)])
      ensures forall k :: k in subtasks ==> k in old(subtasks) && subtasks[k] == old(subtasks)[k]
    {
      var epic := if Some(id) in epics then Some(epics[Some(id)]) else None;
      epics := epics - {Some(id)};
      if epic.None? {
        return Err(NullPointer);
      }
      var failure;
      subtasks, failure := RemoveHeld(subtasks, epic.value);
      if failure.Some? {
        return Err(failure.value);
      }
      return Ok(epic.value);
    }

    /** `removeTask`: the task leaves the map; the removed task, or null, is returned. */
    method RemoveTask(id: int) returns (r: Option<Task>)
      modifies this`tasks
      ensures tasks == old(tasks) - {Some(id)}
      ensures r == (if Some(id) in old(tasks) then Some(old(tasks)[Some(id)]) else None)
    {
      r := if Some(id) in tasks then Some(tasks[Some(id)]) else None;
      tasks := tasks - {Some(id)};
    }

    /** The epic the subtask stored under `id` refers to, which `removeSubtask` changes. */
    function OwnerOf(id: int): (e: set<Epic>)
      reads this, if Some(id) in subtasks then {subtasks[Some(id)]} else {}
    {
      if Some(id) in subtasks && subtasks[Some(id)].epic != null then {subtasks[Some(id)].epic} else {}
    }

    /** `removeSubtask`: the subtask leaves the map, then its epic's collection drops it.
        An absent id, or a subtask without an epic, throws after the removal. */
    method RemoveSubtask(id: int) returns (r: Result<Subtask>)
      modifies this`subtasks, OwnerOf(id)`subtasks
      ensures subtasks == old(subtasks) - {Some(id)}
      ensures old(OwnerOf(id)) == {} ==> r == Err(NullPointer)
      ensures forall e :: e in old(OwnerOf(id)) ==>
        var s := old(subtasks)[Some(id)];
        r == Ok(s) && e == s.epic && e.subtasks == old(e.subtasks) - {s.id}
    {
      var subtask := if Some(id) in subtasks then Some(subtasks[Some(id)]) else None;
      subtasks := subtasks - {Some(id)};
      if subtask.None? || subtask.value.epic == null {
        return Err(NullPointer);
      }
      subtask.value.epic.RemoveSubtask(subtask.value);
      return Ok(subtask.value);
    }

    /** `getAllSubtasksByEpic`: the passed epic's own collection, shared, not copied. */
    method GetAllSubtasksByEpic(epic: Epic) returns (r: map<Key, Subtask>)
      ensures r == epic.subtasks
    {
      r := epic.subtasks;
    }

    /** `clearEpics`: no epic and no subtask is left; tasks stay. */
    method ClearEpics()
      modifies this`epics, this`subtasks
      ensures epics == map[] && subtasks == map[]
    {
      epics, subtasks := map[], map[];
    }

    /** `clearTasks`: no task is left; epics and subtasks stay. */
    method ClearTasks()
      modifies this`tasks
      ensures tasks == map[]
    {
      tasks := map[];
    }

    /** `clearSubtasks`: every stored epic's collection is emptied in place, with no
        status change; then the subtask map is emptied. */
    method ClearSubtasks()
      modifies this`subtasks, epics.Values`subtasks
      ensures subtasks == map[]
      ensures forall e :: e in epics.Values ==> e.subtasks == map[]
    {
      var keys, list := Listing(epics);
      for i := 0 to |list|
        invariant forall j :: 0 <= j < i ==> list[j].subtasks == map[]
      {
        assert list[i] in epics.Values;
        list[i].subtasks := map[];
      }
      forall e | e in epics.Values ensures e.subtasks == map[] {
        var k :| k in epics && epics[k] == e;
        var j :| 0 <= j < |keys| && keys[j] == k;
      }
      subtasks := map[];
    }

    /** `updateEpic`: the epic is stored under its id. */
    method UpdateEpic(epic: Epic)
      modifies this`epics
      ensures epics == old(epics)[epic.id := epic]
    {
      epics := epics[epic.id := epic];
    }

    /** `updateTask`: the task is stored under its id. */
    method UpdateTask(task: Task)
      modifies this`tasks
      ensures tasks == old(tasks)[task.id := task]
    {
      tasks := tasks[task.id := task];
    }

    /** `updateSubtask`: the subtask is stored under its id, then its epic re-derives its
        status; a subtask without an epic throws after the put. */
    method UpdateSubtask(subtask: Subtask) returns (failure: Option<Failure>)
      modifies this`subtasks, (if subtask.epic == null then {} else {subtask.epic})`status
      ensures subtasks == old(subtasks)[subtask.id := subtask]
      ensures failure.Some? <==> subtask.epic == null
      ensures failure.Some? ==> failure == Some(NullPointer)
      ensures subtask.epic != null ==> subtask.epic.status == Derived(Statuses(subtask.epic))
    {
      subtasks := subtasks[subtask.id := subtask];
      if subtask.epic == null {
        return Some(NullPointer);
      }
      subtask.epic.CheckStatus();
      failure := None;
    }

    /** `getTask`: a plain lookup; null for an absent id. */
    method GetTask(id: int) returns (r: Option<Task>)
      ensures r.Some? <==> Some(id) in tasks
      ensures r.Some? ==> r.value == tasks[Some(id)]
    {
      r := if Some(id) in tasks then Some(tasks[Some(id)]) else None;
    }

    /** `getEpic`: a plain lookup; null for an absent id. */
    method GetEpic(id: int) returns (r: Option<Epic>)
      ensures r.Some? <==> Some(id) in epics
      ensures r.Some? ==> r.value == epics[Some(id)]
    {
      r := if Some(id) in epics then Some(epics[Some(id)]) else None;
    }

    /** `getSubtask`: a plain lookup; null for an absent id. */
    method GetSubtask(id: int) returns (r: Option<Subtask>)
      ensures r.Some? <==> Some(id) in subtasks
      ensures r.Some? ==> r.value == subtasks[Some(id)]
    {
      r := if Some(id) in subtasks then Some(subtasks[Some(id)]) else None;
    }
  }
}
