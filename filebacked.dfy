/**
 * The persistent manager of manager/FileBackedTaskManager.java: an in-memory
 * manager whose every mutating operation, once it has not thrown, rewrites a
 * snapshot file, and the two-pass loader that rebuilds a manager from such a
 * file.
 *
 * The file is the field `disk`: the lines at the manager's path, or None
 * while no file exists there. `Save` writes the header and one line per
 * stored record, in the order the record set yields them; the ghost field
 * `saved` remembers that order. The loader is specified by `FirstPass` (read
 * the lines and add the records, remembering each subtask's epic column) and
 * `SecondPass` (link each remembered subtask to its epic).
 */
module FileBacked {
  import opened Wrappers
  import opened Model
  import opened History
  import opened Codec
  import opened Manager
  import opened Schedule

  // ---------------------------------------------------------------------
  // What `save` writes

  /** The records `save` collects: every stored task, subtask and epic. Ids are unique across
      the kinds, so the HashSet keeps each of them. */
  function Records(s: Store): set<Task>
  {
    StoredIn(s.tasks) + StoredIn(s.subtasks) + StoredIn(s.epics)
  }

  /** The records a map holds. */
  function StoredIn(m: map<int, Task>): set<Task>
  {
    set k | k in m :: m[k]
  }

  /** `saved` lists each record of the set once, in some order. */
  ghost predicate Enumerates(saved: seq<Task>, records: set<Task>)
  {
    (forall x :: x in saved <==> x in records) &&
    (forall i, j :: 0 <= i < j < |saved| ==> saved[i] != saved[j])
  }

  /** A snapshot of store `s`: the header, then one line per record, in the order `saved`. */
  ghost predicate SnapshotOf(disk: Option<seq<string>>, saved: seq<Task>, s: Store)
  {
    disk == Some(SnapshotLines(saved)) && Enumerates(saved, Records(s))
  }

  /** The snapshot of one more record has one more line. */
  lemma SnapshotGrows(saved: seq<Task>, t: Task)
    ensures SnapshotLines(saved + [t]) == SnapshotLines(saved) + [EncodeLine(t)]
  {
    assert (saved + [t])[..|saved|] == saved;
  }

  // ---------------------------------------------------------------------
  // The first loop of `loadFromFile`

  /** What the first loop has built so far: the store, the epic column of each subtask line by
      subtask id (`epicIdBySubtaskId`), and whether any record line was added, hence saved. */
  datatype Pass = Pass(store: Store, links: map<int, Option<int>>, wrote: bool)

  /** The add a line's record goes through: an id already taken gives -1 and changes nothing;
      otherwise an epic is filed as it is, and a task or subtask as `addTask`/`addSubtask` file
      it (the subtask has no epic link yet). */
  function Filed(s: Store, t: Task): (r: (Result<int>, Store))
    requires Consistent(s) && t.id.Some?
    ensures Consistent(r.1)
    ensures t.id.value in s.taskIds ==> r == (Ok(-1), s)
    ensures r.0 == Err(TaskOverlapping) ==> r.1 == s
  {
    var k := t.id.value;
    if k in s.taskIds then (Ok(-1), s)
    else if t.Epic? then
      PutEpicKeeps(s, k, t);
      (Ok(k), s.(taskIds := s.taskIds + {k}, epics := s.epics[k := t]))
    else if t.Plain? then TaskFiled(s, t)
    else SubtaskFiled(s, t)
  }

  /** One record line: its record is added, and a subtask's epic column is remembered under its
      id, even when the add gave -1. */
  function LoadStep(p: Pass, l: Line): (r: Result<Pass>)
    requires Consistent(p.store) && l.record.id.Some?
    ensures r.Ok? ==> Consistent(r.value.store) && r.value.wrote
  {
    var a := Filed(p.store, l.record);
    if a.0.Err? then Err(a.0.error)
    else
      var links := if l.record.Subtask? then p.links[l.record.id.value := l.epicId] else p.links;
      Ok(Pass(a.1, links, true))
  }

  /** One non-blank line of the first loop: a line starting with "id" is skipped; any other
      line is read and its record added. */
  function LineStep(p: Pass, line: string): (r: Result<Pass>)
    requires Consistent(p.store)
    ensures r.Ok? ==> Consistent(r.value.store)
  {
    if StartsWithId(line) then Ok(p)
    else
      var l := DecodeLine(line);
      if l.Err? then Err(l.error) else LoadStep(p, l.value)
  }

  /** The first loop over the file's lines: a blank line ends it, and every other line goes
      through `LineStep`; the first line that fails to read, or whose add throws, ends the load
      with that exception. */
  function FirstPass(p: Pass, lines: seq<string>): (r: Result<Pass>)
    requires Consistent(p.store)
    ensures r.Ok? ==> Consistent(r.value.store)
    decreases |lines|
  {
    if lines == [] || IsBlank(lines[0]) then Ok(p)
    else
      var q := LineStep(p, lines[0]);
      if q.Err? then q else FirstPass(q.value, lines[1..])
  }

  /** The first loop from line `i` on, one line unfolded. */
  lemma FirstPassAt(p: Pass, lines: seq<string>, i: int)
    requires Consistent(p.store) && 0 <= i < |lines|
    ensures FirstPass(p, lines[i..]) ==
      if IsBlank(lines[i]) then Ok(p)
      else
        var q := LineStep(p, lines[i]);
        if q.Err? then q else FirstPass(q.value, lines[i + 1..])
  {
    assert lines[i..][0] == lines[i] && lines[i..][1..] == lines[i + 1..];
  }

  // ---------------------------------------------------------------------
  // The second loop of `loadFromFile`

  /** One entry of `epicIdBySubtaskId`: `getSubtask(k)` (recorded in the history when stored),
      then `getEpic(e)` (likewise); a null epic column, a missing subtask or a missing epic throws
      NullPointerException. Otherwise the subtask copy is linked to the epic copy, the epic copy
      lists it, and `updateEpic` then `updateSubtask` store them; either may throw. */
  function Relink(s: Store, h: seq<Task>, k: int, e: Option<int>): (r: (Option<Failure>, Store, seq<Task>))
    requires Consistent(s)
    ensures Consistent(r.1)
  {
    var h1 := if k in s.subtasks then Added(h, s.subtasks[k]) else h;
    if e.None? then (Some(NullPointer), s, h1)
    else
      var j := e.value;
      var h2 := if j in s.epics then Added(h1, s.epics[j]) else h1;
      if k !in s.subtasks || j !in s.epics then (Some(NullPointer), s, h2)
      else
        assert RecordsValid(s);
        var sub := SetEpic(s.subtasks[k], s.epics[j]);
        assert sub.id == Some(k);
        var epic := AddOrUpdateSubtask(s.epics[j], sub);
        assert epic.id == Some(j);
        if CastFails(s.index, epic.subtasksId) then (Some(ClassCast), s, h2)
        else
          RelinkedKeeps(s, j, epic);
          var a := SubtaskRefiled(Relinked(s, j, epic), sub);
          (a.0, a.1, h2)
  }

  /** The second loop, over the subtask ids in the order the map yields them; the first entry
      that throws ends the load with that exception. The result is the store and the history. */
  function SecondPass(s: Store, h: seq<Task>, order: seq<int>, links: map<int, Option<int>>)
    : (r: Result<(Store, seq<Task>)>)
    requires Consistent(s) && forall i :: 0 <= i < |order| ==> order[i] in links
    ensures r.Ok? ==> Consistent(r.value.0)
    decreases |order|
  {
    if order == [] then Ok((s, h))
    else
      var before := SecondPass(s, h, order[..|order| - 1], links);
      if before.Err? then before
      else
        var k := order[|order| - 1];
        var a := Relink(before.value.0, before.value.1, k, links[k]);
        if a.0.Some? then Err(a.0.value) else Ok((a.1, a.2))
  }

  /** One more entry of the second loop: the entry at `i` follows the first `i`. */
  lemma SecondPassStep(s: Store, h: seq<Task>, keys: seq<int>, i: int, links: map<int, Option<int>>)
    requires Consistent(s) && (forall j :: 0 <= j < |keys| ==> keys[j] in links) && 0 <= i < |keys|
    requires SecondPass(s, h, keys[..i], links).Ok?
    ensures var c := SecondPass(s, h, keys[..i], links).value;
      var a := Relink(c.0, c.1, keys[i], links[keys[i]]);
      SecondPass(s, h, keys[..i + 1], links) == if a.0.Some? then Err(a.0.value) else Ok((a.1, a.2))
  {
    var o := keys[..i + 1];
    assert o[..|o| - 1] == keys[..i] && o[|o| - 1] == keys[i];
  }

  /** `order` lists each key of the map once. */
  ghost predicate Orders(order: seq<int>, keys: set<int>)
  {
    (forall k :: k in order <==> k in keys) &&
    (forall i, j :: 0 <= i < j < |order| ==> order[i] != order[j])
  }

  // ---------------------------------------------------------------------
  // The manager

  class FileBackedTaskManager {
    /** The in-memory manager this one extends. */
    const base: InMemoryTaskManager
    /** The lines of the file at the manager's path; None while there is no file. */
    var disk: Option<seq<string>>
    /** The order of the records in the last snapshot written. */
    ghost var saved: seq<Task>

    ghost predicate Valid()
      reads this, base
    {
      base.Valid()
    }

    /** The file holds a snapshot of the current store. */
    ghost predicate Saved()
      reads this, base
    {
      SnapshotOf(disk, saved, base.State())
    }

    /** A manager over an empty store; the file is neither read nor written. */
    constructor (history: seq<Task>, disk: Option<seq<string>>)
      requires UniqueIds(history)
      ensures Valid() && fresh(base) && this.disk == disk
      ensures base.State() == EmptyStore() && base.history == history && base.taskId == 1
    {
      base := new InMemoryTaskManager(history);
      this.disk := disk;
      saved := [];
    }

    /** `save`: the header, then one line per stored task, subtask and epic. */
    method Save()
      modifies this`disk, this`saved
      ensures Saved()
    {
      var todo := Records(base.State());
      ghost var all := todo;
      var lines := [Header];
      ghost var written: seq<Task> := [];
      while todo != {}
        invariant lines == SnapshotLines(written)
        invariant forall x :: x in written <==> x in all && x !in todo
        invariant todo <= all
        invariant forall i, j :: 0 <= i < j < |written| ==> written[i] != written[j]
        decreases |todo|
      {
        var t :| t in todo;
        SnapshotGrows(written, t);
        lines := lines + [EncodeLine(t)];
        written := written + [t];
        todo := todo - {t};
      }
      disk := Some(lines);
      saved := written;
    }

    // -------------------------------------------------------------------
    // The overrides: the in-memory operation, then `save` unless it threw

    /** `addEpic`, then `save`. */
    method AddEpic(epic: Option<Task>) returns (r: int, after: Option<Task>)
      requires Valid() && (epic.Some? ==> epic.value.Epic?)
      modifies base, this`disk, this`saved
      ensures Valid() && Saved() && base.history == old(base.history)
      ensures epic.None? || (epic.value.id.Some? && epic.value.id.value in old(base.taskIds)) ==>
        r == -1 && after == epic && base.State() == old(base.State())
      ensures epic.Some? && !(epic.value.id.Some? && epic.value.id.value in old(base.taskIds)) ==>
        AssignedId(r, epic.value, old(base.taskIds), old(base.taskId)) && after == Some(SetId(epic.value, r)) &&
        base.State() == old(base.State()).(taskIds := old(base.taskIds) + {r}, epics := old(base.epics)[r := after.value])
    {
      r, after := base.AddEpic(epic);
      Save();
    }

    /** `addTask`, then `save` unless the validator threw. */
    method AddTask(task: Option<Task>) returns (r: Result<int>, after: Option<Task>)
      requires Valid() && (task.Some? ==> task.value.Plain?)
      modifies base, this`disk, this`saved
      ensures Valid() && base.history == old(base.history)
      ensures task.None? || (task.value.id.Some? && task.value.id.value in old(base.taskIds)) ==>
        r == Ok(-1) && after == task && base.State() == old(base.State())
      ensures task.Some? && !(task.value.id.Some? && task.value.id.value in old(base.taskIds)) ==>
        after.Some? && after.value.id.Some? && after.value == SetId(task.value, after.value.id.value) &&
        AssignedId(after.value.id.value, task.value, old(base.taskIds), old(base.taskId)) &&
        (r, base.State()) == TaskFiled(old(base.State()), after.value)
      ensures r.Ok? ==> Saved()
      ensures r.Err? ==> disk == old(disk) && saved == old(saved)
    {
      r, after := base.AddTask(task);
      if r.Ok? {
        Save();
      }
    }

    /** `addSubtask`, then `save` unless it threw. */
    method AddSubtask(subtask: Option<Task>) returns (r: Result<int>, after: Option<Task>)
      requires Valid() && (subtask.Some? ==> subtask.value.Subtask?)
      modifies base, this`disk, this`saved
      ensures Valid() && base.history == old(base.history)
      ensures subtask.None? || (subtask.value.id.Some? && subtask.value.id.value in old(base.taskIds)) ==>
        r == Ok(-1) && after == subtask && base.State() == old(base.State())
      ensures subtask.Some? && !(subtask.value.id.Some? && subtask.value.id.value in old(base.taskIds)) ==>
        after.Some? && after.value.id.Some? && after.value == SetId(subtask.value, after.value.id.value) &&
        AssignedId(after.value.id.value, subtask.value, old(base.taskIds), old(base.taskId)) &&
        (r, base.State()) == SubtaskFiled(old(base.State()), after.value)
      ensures r.Ok? ==> Saved()
      ensures r.Err? ==> disk == old(disk) && saved == old(saved)
    {
      r, after := base.AddSubtask(subtask);
      if r.Ok? {
        Save();
      }
    }

    /** `removeEpic`, then `save`. */
    method RemoveEpic(id: int) returns (r: Option<Task>)
      requires Valid()
      modifies base, this`disk, this`saved
      ensures Valid() && Saved()
      ensures id !in old(base.epics) ==>
        r.None? && base.State() == old(base.State()) && base.history == old(base.history)
      ensures id in old(base.epics) ==>
        var gone := {id} + old(base.epics)[id].subtasksId * old(base.subtasks).Keys;
        r == Some(old(base.epics)[id]) && base.State() == Forgotten(old(base.State()), gone) &&
        base.history == Without(old(base.history), SomeIds(gone))
    {
      r := base.RemoveEpic(id);
      Save();
    }

    /** `removeTask`, then `save`. */
    method RemoveTask(id: int) returns (r: Option<Task>)
      requires Valid()
      modifies base, this`disk, this`saved
      ensures Valid() && Saved()
      ensures id !in old(base.tasks) ==>
        r.None? && base.State() == old(base.State()) && base.history == old(base.history)
      ensures id in old(base.tasks) ==>
        r == Some(old(base.tasks)[id]) && base.State() == Forgotten(old(base.State()), {id}) &&
        base.history == Removed(old(base.history), id)
    {
      r := base.RemoveTask(id);
      Save();
    }

    /** `removeSubtask`, then `save` unless it threw. */
    method RemoveSubtask(id: int) returns (r: Result<Option<Task>>)
      requires Valid()
      modifies base, this`disk, this`saved
      ensures Valid()
      ensures id !in old(base.subtasks) ==>
        r == Ok(None) && base.State() == old(base.State()) && base.history == old(base.history)
      ensures id in old(base.subtasks) ==>
        base.history == Removed(old(base.history), id) &&
        (r, base.State()) == SubtaskDropped(old(base.State()), id)
      ensures r.Ok? ==> Saved()
      ensures r.Err? ==> disk == old(disk) && saved == old(saved)
    {
      r := base.RemoveSubtask(id);
      label called:
      if r.Ok? {
        Save();
      }
      assert base.State() == old@called(base.State()) && base.history == old@called(base.history);
    }

    /** `clearEpics`, then `save`. */
    method ClearEpics()
      requires Valid()
      modifies base, this`disk, this`saved
      ensures Valid() && Saved()
      ensures base.State() == Forgotten(old(base.State()), old(base.epics).Keys + old(base.subtasks).Keys)
      ensures base.history == Without(old(base.history), SomeIds(old(base.epics).Keys + old(base.subtasks).Keys))
    {
      base.ClearEpics();
      Save();
    }

    /** `clearTasks`, then `save`. */
    method ClearTasks()
      requires Valid()
      modifies base, this`disk, this`saved
      ensures Valid() && Saved()
      ensures base.State() == Forgotten(old(base.State()), old(base.tasks).Keys)
      ensures base.history == Without(old(base.history), SomeIds(old(base.tasks).Keys))
    {
      base.ClearTasks();
      Save();
    }

    /** `clearSubtasks`, then `save`. */
    method ClearSubtasks()
      requires Valid()
      modifies base, this`disk, this`saved
      ensures Valid() && Saved()
      ensures base.State() ==
        Forgotten(old(base.State()).(epics := EmptiedAll(old(base.epics))), old(base.subtasks).Keys)
      ensures base.history == Without(old(base.history), SomeIds(old(base.subtasks).Keys))
    {
      base.ClearSubtasks();
      Save();
    }

    /** `updateEpic` of a stored epic, then `save` unless the span's cast threw. */
    method UpdateEpic(epic: Task) returns (failure: Option<Failure>)
      requires Valid() && epic.Epic? && epic.id.Some? && epic.id.value in base.epics
      modifies base, this`disk, this`saved
      ensures Valid() && base.history == old(base.history)
      ensures failure.None? || failure == Some(ClassCast)
      ensures failure.Some? <==> CastFails(old(base.prioritized), epic.subtasksId)
      ensures failure.Some? ==> base.State() == old(base.State()) && disk == old(disk) && saved == old(saved)
      ensures failure.None? ==> base.State() == Relinked(old(base.State()), epic.id.value, epic) && Saved()
    {
      failure := base.UpdateEpic(epic);
      if failure.None? {
        Save();
      }
    }

    /** `updateTask` of a stored task, then `save` unless the validator threw. */
    method UpdateTask(task: Task) returns (failure: Option<Failure>)
      requires Valid() && task.Plain? && task.id.Some? && task.id.value in base.tasks
      modifies base, this`disk, this`saved
      ensures Valid() && base.history == old(base.history)
      ensures failure.Some? <==> Rejected(old(base.State()), task)
      ensures failure.Some? ==> base.State() == old(base.State()) && disk == old(disk) && saved == old(saved)
      ensures failure.None? ==> base.State() == PutRecord(old(base.State()), task.id.value, task) && Saved()
    {
      failure := base.UpdateTask(task);
      if failure.None? {
        Save();
      }
    }

    /** `updateSubtask` of a stored subtask, then `save` unless it threw. */
    method UpdateSubtask(subtask: Task) returns (failure: Option<Failure>)
      requires Valid() && subtask.Subtask? && subtask.id.Some? && subtask.id.value in base.subtasks
      modifies base, this`disk, this`saved
      ensures Valid() && base.history == old(base.history)
      ensures (failure, base.State()) == SubtaskRefiled(old(base.State()), subtask)
      ensures failure.None? ==> Saved()
      ensures failure.Some? ==> disk == old(disk) && saved == old(saved)
    {
      failure := base.UpdateSubtask(subtask);
      if failure.None? {
        Save();
      }
    }

    // -------------------------------------------------------------------
    // The two loops of `loadFromFile`

    /** The add of one record line, through the overrides, so that it saves unless it throws. */
    method Admit(l: Line) returns (r: Result<int>)
      requires Valid() && l.record.id.Some?
      modifies base, this`disk, this`saved
      ensures Valid() && base.history == old(base.history)
      ensures (r, base.State()) == Filed(old(base.State()), l.record)
      ensures r.Ok? ==> Saved()
      ensures r.Err? ==> disk == old(disk) && saved == old(saved)
    {
      var t := l.record;
      assert SetId(t, t.id.value) == t;
      if t.Epic? {
        var id, _ := AddEpic(Some(t));
        r := Ok(id);
      } else if t.Plain? {
        var after;
        r, after := AddTask(Some(t));
      } else {
        var after;
        r, after := AddSubtask(Some(t));
      }
    }

    /** One non-blank line of the first loop, as `LineStep`. */
    method ReadLine(line: string, links: map<int, Option<int>>, ghost wrote: bool)
      returns (r: Result<map<int, Option<int>>>, ghost wrote2: bool)
      requires Valid() && (wrote ==> Saved())
      modifies base, this`disk, this`saved
      ensures Valid() && base.history == old(base.history)
      ensures var q := LineStep(Pass(old(base.State()), links, wrote), line);
        (q.Err? ==> r == Err(q.error)) &&
        (q.Ok? ==> r == Ok(q.value.links) && base.State() == q.value.store && wrote2 == q.value.wrote)
      ensures r.Ok? && wrote2 ==> Saved()
      ensures r.Ok? && !wrote2 ==> disk == old(disk)
    {
      if StartsWithId(line) {
        return Ok(links), wrote;
      }
      var l := DecodeLine(line);
      if l.Err? {
        return Err(l.error), wrote;
      }
      var a := Admit(l.value);
      if a.Err? {
        return Err(a.error), wrote;
      }
      if l.value.record.Subtask? {
        return Ok(links[l.value.record.id.value := l.value.epicId]), true;
      }
      return Ok(links), true;
    }

    /** The first loop: each line is read and its record added, until a blank line. */
    method ReadRecords(lines: seq<string>) returns (r: Result<map<int, Option<int>>>, ghost wrote: bool)
      requires Valid()
      modifies base, this`disk, this`saved
      ensures Valid() && base.history == old(base.history)
      ensures var p := FirstPass(Pass(old(base.State()), map[], false), lines);
        (p.Err? ==> r == Err(p.error)) &&
        (p.Ok? ==> r == Ok(p.value.links) && base.State() == p.value.store && wrote == p.value.wrote &&
                   (wrote ==> Saved()) && (!wrote ==> disk == old(disk)))
    {
      ghost var p0 := Pass(base.State(), map[], false);
      var links: map<int, Option<int>> := map[];
      wrote := false;
      var i := 0;
      while i < |lines|
        invariant 0 <= i <= |lines| && Valid() && base.history == old(base.history)
        invariant FirstPass(p0, lines) == FirstPass(Pass(base.State(), links, wrote), lines[i..])
        invariant wrote ==> Saved()
        invariant !wrote ==> disk == old(disk)
        decreases |lines| - i
      {
        FirstPassAt(Pass(base.State(), links, wrote), lines, i);
        if IsBlank(lines[i]) {
          return Ok(links), wrote;
        }
        var q;
        q, wrote := ReadLine(lines[i], links, wrote);
        if q.Err? {
          return q, wrote;
        }
        links := q.value;
        i := i + 1;
      }
      return Ok(links), wrote;
    }

    /** One entry of the second loop. */
    method RelinkOne(k: int, e: Option<int>) returns (failure: Option<Failure>)
      requires Valid()
      modifies base, this`disk, this`saved
      ensures Valid()
      ensures (failure, base.State(), base.history) == Relink(old(base.State()), old(base.history), k, e)
      ensures failure.None? ==> Saved()
    {
      var sub := base.GetSubtask(k);
      if e.None? {
        return Some(NullPointer);
      }
      var epic := base.GetEpic(e.value);
      if sub.None? || epic.None? {
        return Some(NullPointer);
      }
      assert RecordsValid(base.State());
      assert sub.value.Subtask? && epic.value.Epic? && epic.value.id == e;
      var linked := SetEpic(sub.value, epic.value);
      var owner := AddOrUpdateSubtask(epic.value, linked);
      failure := UpdateEpic(owner);
      if failure.Some? {
        return;
      }
      failure := UpdateSubtask(linked);
    }

    /** The entry at `i` of the second loop, as the next step of `SecondPass`. */
    method RelinkNext(ghost s0: Store, ghost h0: seq<Task>, keys: seq<int>, i: int,
                      links: map<int, Option<int>>) returns (failure: Option<Failure>)
      requires Valid() && Consistent(s0) && 0 <= i < |keys|
      requires forall j :: 0 <= j < |keys| ==> keys[j] in links
      requires SecondPass(s0, h0, keys[..i], links) == Ok((base.State(), base.history))
      modifies base, this`disk, this`saved
      ensures Valid()
      ensures failure.Some? ==> SecondPass(s0, h0, keys[..i + 1], links) == Err(failure.value)
      ensures failure.None? ==> SecondPass(s0, h0, keys[..i + 1], links) == Ok((base.State(), base.history))
      ensures failure.None? ==> Saved()
    {
      SecondPassStep(s0, h0, keys, i, links);
      failure := RelinkOne(keys[i], links[keys[i]]);
    }

    /** The second loop, over the remembered subtask ids in the order the map yields them. */
    method RelinkAll(links: map<int, Option<int>>) returns (r: Option<Failure>, ghost order: seq<int>)
      requires Valid()
      modifies base, this`disk, this`saved
      ensures Valid()
      ensures forall i :: 0 <= i < |order| ==> order[i] in links
      ensures var q := SecondPass(old(base.State()), old(base.history), order, links);
        (r.Some? ==> q == Err(r.value)) &&
        (r.None? ==> q == Ok((base.State(), base.history)) && Orders(order, links.Keys))
      ensures r.None? && order != [] ==> Saved()
      ensures order == [] ==> disk == old(disk) && saved == old(saved)
    {
      ghost var s0, h0 := base.State(), base.history;
      var keys := Enumerate(links);
      var i := 0;
      while i < |keys|
        invariant 0 <= i <= |keys| && Valid()
        invariant SecondPass(s0, h0, keys[..i], links) == Ok((base.State(), base.history))
        invariant i > 0 ==> Saved()
        invariant i == 0 ==> disk == old(disk) && saved == old(saved)
      {
        var f := RelinkNext(s0, h0, keys, i, links);
        if f.Some? {
          return f, keys[..i + 1];
        }
        i := i + 1;
      }
      assert keys[..i] == keys;
      return None, keys;
    }
  }

  /** The keys of the map, in the order its entry set yields them: each key once. */
  method Enumerate(m: map<int, Option<int>>) returns (order: seq<int>)
    ensures Orders(order, m.Keys)
    ensures forall i :: 0 <= i < |order| ==> order[i] in m
  {
    var todo := m.Items;
    order := [];
    while todo != {}
      invariant todo <= m.Items
      invariant forall k :: k in order <==> k in m && (k, m[k]) !in todo
      invariant forall i :: 0 <= i < |order| ==> order[i] in m
      invariant forall i, j :: 0 <= i < j < |order| ==> order[i] != order[j]
      decreases |todo|
    {
      var e :| e in todo;
      assert e.0 in m && m[e.0] == e.1;
      order := order + [e.0];
      todo := todo - {e};
    }
  }

  /** `loadFromFile`: a missing file is created empty and gives an empty manager; otherwise the
      first loop reads the lines and the second links the subtasks, and the first exception
      either throws ends the load. The new manager's history holds what the second loop's gets
      recorded; its file holds a snapshot of the loaded store once any record was added. */
  method LoadFromFile(disk: Option<seq<string>>) returns (r: Result<FileBackedTaskManager>, ghost order: seq<int>)
    ensures r.Ok? ==> fresh(r.value) && fresh(r.value.base) && r.value.Valid()
    ensures disk.None? ==>
      r.Ok? && r.value.base.State() == EmptyStore() && r.value.base.history == [] && r.value.disk == Some([])
    ensures disk.Some? ==>
      var p := FirstPass(Pass(EmptyStore(), map[], false), disk.value);
      (p.Err? ==> r == Err(p.error)) &&
      (p.Ok? ==>
         (forall i :: 0 <= i < |order| ==> order[i] in p.value.links) &&
         var q := SecondPass(p.value.store, [], order, p.value.links);
         (q.Err? ==> r == Err(q.error)) &&
         (q.Ok? ==> r.Ok? && Orders(order, p.value.links.Keys) &&
                    r.value.base.State() == q.value.0 && r.value.base.history == q.value.1 &&
                    (if p.value.wrote then r.value.Saved() else r.value.disk == disk)))
  {
    var m := new FileBackedTaskManager([], disk);
    order := [];
    if disk.None? {
      m.disk := Some([]);
      return Ok(m), order;
    }
    var links, wrote := m.ReadRecords(disk.value);
    if links.Err? {
      return Err(links.error), order;
    }
    if !wrote {
      NothingWritten(Pass(EmptyStore(), map[], false), disk.value);
    }
    var failure;
    failure, order := m.RelinkAll(links.value);
    if failure.Some? {
      return Err(failure.value), order;
    }
    return Ok(m), order;
  }

  /** `save`, then `loadFromFile` of the file just written: the new manager holds the store read
      back, each subtask linked and each epic listing the subtasks that name it. */
  method SaveThenLoad(m: FileBackedTaskManager) returns (r: Result<FileBackedTaskManager>)
    requires m.Valid() && SubtasksLinked(m.base.State())
    requires forall x :: x in Records(m.base.State()) ==> Encodable(x)
    modifies m`disk, m`saved
    ensures r.Ok? && fresh(r.value) && r.value.Valid()
    ensures SecondLoaded(m.base.State(), r.value.base.State(), m.base.subtasks.Keys)
  {
    m.Save();
    ghost var order;
    r, order := LoadFromFile(m.disk);
    SaveLoadRoundTrip(m.base.State(), m.saved, order);
  }

  /** A first pass that added no record leaves what it started from. */
  lemma {:induction false} NothingWritten(p: Pass, lines: seq<string>)
    requires Consistent(p.store) && FirstPass(p, lines).Ok? && !FirstPass(p, lines).value.wrote
    ensures FirstPass(p, lines) == Ok(p)
    decreases |lines|
  {
    if lines != [] && !IsBlank(lines[0]) {
      if StartsWithId(lines[0]) {
        NothingWritten(p, lines[1..]);
      } else {
        var q := LoadStep(p, DecodeLine(lines[0]).value);
        WroteStays(q.value, lines[1..]);
      }
    }
  }

  /** Once a record was added, the pass says so to the end. */
  lemma {:induction false} WroteStays(p: Pass, lines: seq<string>)
    requires Consistent(p.store) && p.wrote && FirstPass(p, lines).Ok?
    ensures FirstPass(p, lines).value.wrote
    decreases |lines|
  {
    if lines != [] && !IsBlank(lines[0]) {
      if StartsWithId(lines[0]) {
        WroteStays(p, lines[1..]);
      } else {
        WroteStays(LoadStep(p, DecodeLine(lines[0]).value).value, lines[1..]);
      }
    }
  }

  // ---------------------------------------------------------------------
  // The first loop as a parser followed by the adds

  /** Every line read carries an id. */
  predicate Identified(ls: seq<Line>)
  {
    forall i :: 0 <= i < |ls| ==> ls[i].record.id.Some?
  }

  /** The adds of the first loop, over lines already read. */
  function LoadAll(p: Pass, ls: seq<Line>): (r: Result<Pass>)
    requires Consistent(p.store) && Identified(ls)
    ensures r.Ok? ==> Consistent(r.value.store)
    decreases |ls|
  {
    if ls == [] then Ok(p)
    else
      var q := LoadStep(p, ls[0]);
      if q.Err? then q else LoadAll(q.value, ls[1..])
  }

  /** The first loop reads the lines as `ParseLines` does and adds their records in order: when
      every line reads, the loop is the adds of what was read, and when the loop succeeds,
      every line read. */
  lemma {:induction false} FirstPassParses(p: Pass, lines: seq<string>)
    requires Consistent(p.store)
    ensures ParseLines(lines).Ok? ==>
      Identified(ParseLines(lines).value) && FirstPass(p, lines) == LoadAll(p, ParseLines(lines).value)
    ensures FirstPass(p, lines).Ok? ==> ParseLines(lines).Ok?
    decreases |lines|
  {
    if lines != [] && !IsBlank(lines[0]) {
      if StartsWithId(lines[0]) {
        FirstPassParses(p, lines[1..]);
      } else {
        var l := DecodeLine(lines[0]);
        if l.Ok? {
          var rest := ParseLines(lines[1..]);
          var q := LoadStep(p, l.value);
          if q.Ok? {
            FirstPassParses(q.value, lines[1..]);
          }
          if rest.Ok? {
            var ls := [l.value] + rest.value;
            FirstPassParses(p, lines[1..]);
            assert ls[0] == l.value && ls[1..] == rest.value;
          }
        }
      }
    }
  }

  /** Loading a file that `save` wrote adds back every saved record, in the order written, each
      as the loader rebuilds it from its line. */
  lemma SavedFileLoads(p: Pass, saved: seq<Task>)
    requires Consistent(p.store) && forall i :: 0 <= i < |saved| ==> Encodable(saved[i])
    ensures Identified(Reread(saved))
    ensures FirstPass(p, SnapshotLines(saved)) == LoadAll(p, Reread(saved))
  {
    SnapshotRoundTrip(saved);
    FirstPassParses(p, SnapshotLines(saved));
  }

  // ---------------------------------------------------------------------
  // What the second loop leaves alone

  /** Re-filing a stored subtask changes neither the id set nor the tasks. */
  lemma RefiledKeepsTasks(s: Store, t: Task)
    requires Consistent(s) && Fileable(s, t) && t.Subtask? && t.id.value in s.taskIds
    ensures SubtaskRefiled(s, t).1.taskIds == s.taskIds && SubtaskRefiled(s, t).1.tasks == s.tasks
  {
    if !Rejected(s, t) {
      var s1 := PutRecord(s, t.id.value, t);
      assert s1.taskIds == s.taskIds && s1.tasks == s.tasks;
    }
  }

  /** One entry of the second loop changes neither the id set nor the tasks. */
  lemma RelinkKeepsTasks(s: Store, h: seq<Task>, k: int, e: Option<int>)
    requires Consistent(s)
    ensures Relink(s, h, k, e).1.taskIds == s.taskIds && Relink(s, h, k, e).1.tasks == s.tasks
  {
    if e.Some? && k in s.subtasks && e.value in s.epics {
      var j := e.value;
      RelinkFiles(s, h, k, j);
      var sub := SetEpic(s.subtasks[k], s.epics[j]);
      var epic := AddOrUpdateSubtask(s.epics[j], sub);
      if !CastFails(s.index, epic.subtasksId) {
        var s2 := Relinked(s, j, epic);
        assert s2.taskIds == s.taskIds && s2.tasks == s.tasks;
        RefiledKeepsTasks(s2, sub);
      }
    }
  }

  /** One entry of the second loop throws NullPointerException exactly when its epic column is
      null or its subtask or epic is not stored; the only other exceptions are a rejected overlap
      and the span's cast. */
  lemma RelinkFailure(s: Store, h: seq<Task>, k: int, e: Option<int>)
    requires Consistent(s)
    ensures Relink(s, h, k, e).0 == Some(NullPointer) <==> e.None? || k !in s.subtasks || e.value !in s.epics
    ensures Relink(s, h, k, e).0 in {None, Some(NullPointer), Some(TaskOverlapping), Some(ClassCast)}
  {
    if e.Some? && k in s.subtasks && e.value in s.epics {
      var j := e.value;
      RelinkFiles(s, h, k, j);
      var sub := SetEpic(s.subtasks[k], s.epics[j]);
      var epic := AddOrUpdateSubtask(s.epics[j], sub);
      if !CastFails(s.index, epic.subtasksId) {
        var s2 := Relinked(s, j, epic);
        assert j in s2.epics;
        var a := SubtaskRefiled(s2, sub);
        if a.0 != Some(TaskOverlapping) {
          assert a == SubtaskUpdated(PutRecord(s2, k, sub), sub);
        }
      }
    }
  }

  /** The second loop changes neither the id set nor the tasks. */
  lemma {:induction false} SecondPassKeepsTasks(s: Store, h: seq<Task>, order: seq<int>, links: map<int, Option<int>>)
    requires Consistent(s) && forall i :: 0 <= i < |order| ==> order[i] in links
    ensures SecondPass(s, h, order, links).Ok? ==>
      SecondPass(s, h, order, links).value.0.taskIds == s.taskIds &&
      SecondPass(s, h, order, links).value.0.tasks == s.tasks
    decreases |order|
  {
    var r := SecondPass(s, h, order, links);
    if order != [] && r.Ok? {
      var before := SecondPass(s, h, order[..|order| - 1], links);
      SecondPassKeepsTasks(s, h, order[..|order| - 1], links);
      var k := order[|order| - 1];
      var a := Relink(before.value.0, before.value.1, k, links[k]);
      assert r == Ok((a.1, a.2));
      RelinkKeepsTasks(before.value.0, before.value.1, k, links[k]);
    }
  }

  // ---------------------------------------------------------------------
  // Save followed by load: the first loop

  /** The records of `m` under the ids in `ids`, as the loader rebuilds them from their lines. */
  function ReloadedMap(m: map<int, Task>, ids: set<int>): map<int, Task>
  {
    map k | k in m && k in ids :: Reloaded(m[k])
  }

  /** The epic column of each stored subtask, under the ids in `ids`: what the first loop
      remembers in `epicIdBySubtaskId`. */
  function LinksOf(s: Store, ids: set<int>): map<int, Option<int>>
  {
    map k | k in s.subtasks && k in ids :: EpicColumn(s.subtasks[k])
  }

  /** The ids of a sequence of records that all have one. */
  function IdsOf(records: seq<Task>): set<int>
  {
    set i | 0 <= i < |records| && records[i].id.Some? :: records[i].id.value
  }

  /** The first loop has read back the records of `s` under the ids in `ids`, and only them. */
  predicate FirstLoaded(s: Store, q: Store, ids: set<int>)
  {
    ids <= s.taskIds && q.taskIds == ids &&
    q.epics == ReloadedMap(s.epics, ids) && q.tasks == ReloadedMap(s.tasks, ids) &&
    q.subtasks == ReloadedMap(s.subtasks, ids)
  }

  /** `x` is stored in `s` under its id. */
  predicate Holds(s: Store, x: Task)
  {
    x.id.Some? &&
    ((x.id.value in s.epics && s.epics[x.id.value] == x) ||
     (x.id.value in s.tasks && s.tasks[x.id.value] == x) ||
     (x.id.value in s.subtasks && s.subtasks[x.id.value] == x))
  }

  /** Every record `save` collects is stored under its id. */
  lemma RecordHeld(s: Store, x: Task)
    requires Consistent(s) && x in Records(s)
    ensures Holds(s, x)
  {
    assert RecordsValid(s);
    if x in StoredIn(s.epics) {
      var m :| m in s.epics && s.epics[m] == x;
    } else if x in StoredIn(s.tasks) {
      var m :| m in s.tasks && s.tasks[m] == x;
    } else {
      var m :| m in s.subtasks && s.subtasks[m] == x;
    }
  }

  /** A task or subtask of `s` read back into a partial reload that lacks it meets no indexed
      record there: the reload's scheduled records have the intervals of other records of `s`,
      and those never conflicted with it. */
  lemma ReloadNotRejected(s: Store, q: Store, ids: set<int>, x: Task)
    requires Consistent(s) && Consistent(q) && FirstLoaded(s, q, ids)
    requires x.id.Some? && x.id.value !in ids
    requires (x.id.value in s.tasks && s.tasks[x.id.value] == x) ||
             (x.id.value in s.subtasks && s.subtasks[x.id.value] == x)
    ensures !Rejected(q, Reloaded(x))
  {
    var t := Reloaded(x);
    assert IndexValid(s) && IndexValid(q) && RecordsValid(s) && KeysValid(q);
    forall y | y in q.index && y.id != t.id
      ensures !Conflict(y, t)
    {
      if t.start.Some? {
        assert Stored(q, y);
        var m := y.id.value;
        var o := if m in q.tasks then s.tasks[m] else s.subtasks[m];
        assert y == Reloaded(o) && o.start == y.start && o.duration == y.duration;
        assert x.start == t.start && x.duration == t.duration;
        assert o in s.index by {
          if m in q.tasks {
            assert s.tasks[m].start.Some?;
          } else {
            assert s.subtasks[m].start.Some?;
          }
        }
        assert x in s.index by {
          var k := x.id.value;
          assert x.start.Some?;
          if k in s.tasks && s.tasks[k] == x {
            assert s.tasks[k] in s.index;
          } else {
            assert s.subtasks[k] == x && s.subtasks[k] in s.index;
          }
        }
        assert o.id == Some(m) && o != x;
      }
    }
    RejectedMeaning(q, t);
  }

  /** One line of a saved file, read back into a partial reload that lacks its record: the
      record is added, and a subtask's epic column remembered. */
  lemma LoadStepReloads(s: Store, p: Pass, ids: set<int>, x: Task)
    requires Consistent(s) && Consistent(p.store) && FirstLoaded(s, p.store, ids)
    requires p.links == LinksOf(s, ids)
    requires x.id.Some? && x.id.value !in ids && Holds(s, x)
    ensures var r := LoadStep(p, Line(Reloaded(x), EpicColumn(x)));
      r.Ok? && FirstLoaded(s, r.value.store, ids + {x.id.value}) &&
      r.value.links == LinksOf(s, ids + {x.id.value}) && r.value.wrote
  {
    var k := x.id.value;
    assert KeysValid(s) && KeysValid(p.store);
    if k in s.epics && s.epics[k] == x {
      LoadEpicReloads(s, p, ids, x);
    } else if k in s.tasks && s.tasks[k] == x {
      LoadTaskReloads(s, p, ids, x);
    } else {
      LoadSubtaskReloads(s, p, ids, x);
    }
  }

  /** An epic's line: the epic is filed as read. */
  lemma LoadEpicReloads(s: Store, p: Pass, ids: set<int>, x: Task)
    requires Consistent(s) && Consistent(p.store) && FirstLoaded(s, p.store, ids)
    requires p.links == LinksOf(s, ids)
    requires x.id.Some? && x.id.value !in ids && x.id.value in s.epics && s.epics[x.id.value] == x
    ensures var r := LoadStep(p, Line(Reloaded(x), EpicColumn(x)));
      r.Ok? && FirstLoaded(s, r.value.store, ids + {x.id.value}) &&
      r.value.links == LinksOf(s, ids + {x.id.value}) && r.value.wrote
  {
    var k := x.id.value;
    var t := Reloaded(x);
    var q := p.store;
    assert RecordsValid(s) && KeysValid(s);
    assert x.Epic? && t.Epic? && t.id == Some(k) && k !in q.taskIds;
    var ids' := ids + {k};
    assert Filed(q, t).1 == q.(taskIds := q.taskIds + {k}, epics := q.epics[k := t]);
    OtherReloadMaps(s, p, ids, x);
  }

  /** A task's line: the task is filed as read, and the validator lets it through. */
  lemma LoadTaskReloads(s: Store, p: Pass, ids: set<int>, x: Task)
    requires Consistent(s) && Consistent(p.store) && FirstLoaded(s, p.store, ids)
    requires p.links == LinksOf(s, ids)
    requires x.id.Some? && x.id.value !in ids && x.id.value in s.tasks && s.tasks[x.id.value] == x
    ensures var r := LoadStep(p, Line(Reloaded(x), EpicColumn(x)));
      r.Ok? && FirstLoaded(s, r.value.store, ids + {x.id.value}) &&
      r.value.links == LinksOf(s, ids + {x.id.value}) && r.value.wrote
  {
    var k := x.id.value;
    var t := Reloaded(x);
    var q := p.store;
    assert RecordsValid(s) && KeysValid(s);
    assert x.Plain? && t.Plain? && t.id == Some(k) && k !in q.taskIds;
    ReloadNotRejected(s, q, ids, x);
    assert Fileable(q, t);
    var ids' := ids + {k};
    assert Filed(q, t).1 == PutRecord(q, k, t);
    OtherReloadMaps(s, p, ids, x);
  }

  /** The maps and links after an epic or a task of `s` is reloaded. */
  lemma OtherReloadMaps(s: Store, p: Pass, ids: set<int>, x: Task)
    requires KeysValid(s) && FirstLoaded(s, p.store, ids) && p.links == LinksOf(s, ids)
    requires x.id.Some? && x.id.value !in s.subtasks
    requires (x.id.value in s.epics && s.epics[x.id.value] == x) ||
             (x.id.value in s.tasks && s.tasks[x.id.value] == x)
    ensures var k := x.id.value;
      ReloadedMap(s.epics, ids + {k}) ==
        (if k in s.epics then p.store.epics[k := Reloaded(x)] else p.store.epics) &&
      ReloadedMap(s.tasks, ids + {k}) ==
        (if k in s.tasks then p.store.tasks[k := Reloaded(x)] else p.store.tasks) &&
      ReloadedMap(s.subtasks, ids + {k}) == p.store.subtasks &&
      LinksOf(s, ids + {k}) == p.links
  {
  }

  /** A subtask's line: the subtask is filed as read, with no epic link, the validator lets it
      through, and its epic column is remembered. */
  lemma LoadSubtaskReloads(s: Store, p: Pass, ids: set<int>, x: Task)
    requires Consistent(s) && Consistent(p.store) && FirstLoaded(s, p.store, ids)
    requires p.links == LinksOf(s, ids)
    requires x.id.Some? && x.id.value !in ids && x.id.value in s.subtasks && s.subtasks[x.id.value] == x
    ensures var r := LoadStep(p, Line(Reloaded(x), EpicColumn(x)));
      r.Ok? && FirstLoaded(s, r.value.store, ids + {x.id.value}) &&
      r.value.links == LinksOf(s, ids + {x.id.value}) && r.value.wrote
  {
    var k := x.id.value;
    var t := Reloaded(x);
    var q := p.store;
    assert RecordsValid(s) && KeysValid(s);
    assert x.Subtask? && t.Subtask? && t.id == Some(k) && t.epicId.None? && k !in q.taskIds;
    ReloadNotRejected(s, q, ids, x);
    assert Fileable(q, t);
    var ids' := ids + {k};
    assert SubtaskFiled(q, t) == (Ok(k), PutRecord(q, k, t));
    SubtaskReloadMaps(s, p, ids, x);
  }

  /** The maps and links after a subtask of `s` is reloaded. */
  lemma SubtaskReloadMaps(s: Store, p: Pass, ids: set<int>, x: Task)
    requires KeysValid(s) && FirstLoaded(s, p.store, ids) && p.links == LinksOf(s, ids)
    requires x.id.Some? && x.id.value in s.subtasks && s.subtasks[x.id.value] == x
    ensures var k := x.id.value;
      ReloadedMap(s.subtasks, ids + {k}) == p.store.subtasks[k := Reloaded(x)] &&
      ReloadedMap(s.epics, ids + {k}) == p.store.epics &&
      ReloadedMap(s.tasks, ids + {k}) == p.store.tasks &&
      LinksOf(s, ids + {k}) == p.links[k := EpicColumn(x)]
  {
  }

  /** The adds of the first loop over the lines of records of `s` not yet read, each once: every
      record is added back. */
  lemma {:induction false} LoadAllReloads(s: Store, p: Pass, ids: set<int>, rest: seq<Task>)
    requires Consistent(s) && Consistent(p.store) && FirstLoaded(s, p.store, ids)
    requires p.links == LinksOf(s, ids)
    requires Unread(s, ids, rest)
    ensures Identified(Reread(rest))
    ensures var r := LoadAll(p, Reread(rest));
      r.Ok? && FirstLoaded(s, r.value.store, ids + IdsOf(rest)) &&
      r.value.links == LinksOf(s, ids + IdsOf(rest)) && (rest != [] ==> r.value.wrote)
    decreases |rest|, 1
  {
    if rest == [] {
      assert ids + IdsOf(rest) == ids;
    } else {
      LoadAllReloadsCons(s, p, ids, rest);
    }
  }

  /** The first record's line, then the others'. */
  lemma {:induction false} LoadAllReloadsCons(s: Store, p: Pass, ids: set<int>, rest: seq<Task>)
    requires Consistent(s) && Consistent(p.store) && FirstLoaded(s, p.store, ids)
    requires p.links == LinksOf(s, ids)
    requires Unread(s, ids, rest) && rest != []
    ensures Identified(Reread(rest))
    ensures var r := LoadAll(p, Reread(rest));
      r.Ok? && FirstLoaded(s, r.value.store, ids + IdsOf(rest)) &&
      r.value.links == LinksOf(s, ids + IdsOf(rest)) && r.value.wrote
    decreases |rest|, 0
  {
    var k := rest[0].id.value;
    var ls := Reread(rest);
    RestUnread(s, ids, rest);
    LoadStepReloads(s, p, ids, rest[0]);
    var q := LoadStep(p, ls[0]).value;
    LoadAllCons(p, ls);
    LoadAllReloads(s, q, ids + {k}, rest[1..]);
    IdsOfCons(rest);
    SameIds(ids, k, IdsOf(rest[1..]), IdsOf(rest));
  }

  /** After the first record, the others are still unread, and all the lines carry ids. */
  lemma RestUnread(s: Store, ids: set<int>, rest: seq<Task>)
    requires Unread(s, ids, rest) && rest != []
    ensures Unread(s, ids + {rest[0].id.value}, rest[1..])
    ensures Identified(Reread(rest)) && Identified(Reread(rest[1..]))
    ensures Reread(rest)[0] == Line(Reloaded(rest[0]), EpicColumn(rest[0]))
    ensures Reread(rest)[1..] == Reread(rest[1..])
  {
    UnreadTail(s, ids, rest);
    RereadCons(rest);
  }

  /** The lines of a non-empty list of records: the first record's line, then the rest's. */
  lemma RereadCons(rest: seq<Task>)
    requires rest != [] && rest[0].id.Some?
    requires Identified(Reread(rest[1..]))
    ensures Reread(rest)[0] == Line(Reloaded(rest[0]), EpicColumn(rest[0]))
    ensures Reread(rest)[1..] == Reread(rest[1..])
    ensures Identified(Reread(rest))
  {
  }

  lemma SameIds(ids: set<int>, k: int, tail: set<int>, all: set<int>)
    requires all == {k} + tail
    ensures ids + {k} + tail == ids + all
  {
  }

  /** Loading runs the first line, then the others from where it left off. */
  lemma LoadAllCons(p: Pass, ls: seq<Line>)
    requires Consistent(p.store) && Identified(ls) && ls != []
    requires LoadStep(p, ls[0]).Ok?
    ensures Consistent(LoadStep(p, ls[0]).value.store) && Identified(ls[1..])
    ensures LoadAll(p, ls) == LoadAll(LoadStep(p, ls[0]).value, ls[1..])
  {
  }

  /** `rest` lists records of `s`, each once, none of them under the ids in `ids`. */
  predicate Unread(s: Store, ids: set<int>, rest: seq<Task>)
  {
    (forall i :: 0 <= i < |rest| ==> Holds(s, rest[i]) && rest[i].id.value !in ids) &&
    (forall i, j :: 0 <= i < j < |rest| ==> rest[i].id != rest[j].id)
  }

  /** Once the first record is read, the others are still unread. */
  lemma UnreadTail(s: Store, ids: set<int>, rest: seq<Task>)
    requires Unread(s, ids, rest) && rest != []
    ensures Unread(s, ids + {rest[0].id.value}, rest[1..])
  {
    forall i | 0 <= i < |rest[1..]|
      ensures rest[1..][i].id.value !in ids + {rest[0].id.value}
    {
      assert rest[1..][i] == rest[i + 1];
    }
  }

  /** The ids of a non-empty sequence: the first one's and the rest's. */
  lemma IdsOfCons(rest: seq<Task>)
    requires rest != [] && rest[0].id.Some?
    ensures IdsOf(rest) == {rest[0].id.value} + IdsOf(rest[1..])
  {
    forall k | k in IdsOf(rest) ensures k in {rest[0].id.value} + IdsOf(rest[1..]) {
      var i :| 0 <= i < |rest| && rest[i].id.Some? && rest[i].id.value == k;
      if i > 0 {
        assert rest[i] == rest[1..][i - 1];
      }
    }
    forall k | k in IdsOf(rest[1..]) ensures k in IdsOf(rest) {
      var i :| 0 <= i < |rest[1..]| && rest[1..][i].id.Some? && rest[1..][i].id.value == k;
      assert rest[1..][i] == rest[i + 1];
    }
  }

  /** Two records stored under one id are one record. */
  lemma HeldOnce(s: Store, x: Task, y: Task)
    requires Consistent(s) && Holds(s, x) && Holds(s, y) && x.id == y.id
    ensures x == y
  {
    assert KeysValid(s);
  }

  /** The first loop over a file that `save` wrote for a consistent store reads back every
      record: the same ids, each record as `Reloaded` rebuilds it from its line, and each
      subtask's epic column remembered. */
  lemma SavedFileReloads(s: Store, saved: seq<Task>)
    requires Consistent(s) && Enumerates(saved, Records(s))
    requires forall i :: 0 <= i < |saved| ==> Encodable(saved[i])
    ensures var p := FirstPass(Pass(EmptyStore(), map[], false), SnapshotLines(saved));
      p.Ok? && FirstLoaded(s, p.value.store, s.taskIds) && p.value.links == LinksOf(s, s.taskIds)
  {
    var p0 := Pass(EmptyStore(), map[], false);
    SavedFileLoads(p0, saved);
    SavedRecordsReload(s, p0, saved);
  }

  /** Loading the lines of all of a store's records into an empty store reloads every record. */
  lemma SavedRecordsReload(s: Store, p: Pass, saved: seq<Task>)
    requires Consistent(s) && Enumerates(saved, Records(s))
    requires p == Pass(EmptyStore(), map[], false)
    ensures Identified(Reread(saved))
    ensures var r := LoadAll(p, Reread(saved));
      r.Ok? && FirstLoaded(s, r.value.store, s.taskIds) && r.value.links == LinksOf(s, s.taskIds)
  {
    SavedUnread(s, saved);
    NothingLoaded(s);
    LoadAllReloads(s, p, {}, saved);
    SavedIds(s, saved);
  }

  /** The empty store and no links are what loading no record of `s` gives. */
  lemma NothingLoaded(s: Store)
    requires KeysValid(s)
    ensures FirstLoaded(s, EmptyStore(), {}) && LinksOf(s, {}) == map[]
  {
    assert ReloadedMap(s.epics, {}) == map[];
    assert ReloadedMap(s.tasks, {}) == map[];
    assert ReloadedMap(s.subtasks, {}) == map[];
  }

  /** A snapshot lists every record of the store once. */
  lemma SavedUnread(s: Store, saved: seq<Task>)
    requires Consistent(s) && Enumerates(saved, Records(s))
    ensures Unread(s, {}, saved)
  {
    forall i | 0 <= i < |saved| ensures Holds(s, saved[i]) {
      RecordHeld(s, saved[i]);
    }
    forall i, j | 0 <= i < j < |saved| ensures saved[i].id != saved[j].id {
      if saved[i].id == saved[j].id {
        HeldOnce(s, saved[i], saved[j]);
      }
    }
  }

  /** A snapshot carries every id of the store. */
  lemma SavedIds(s: Store, saved: seq<Task>)
    requires Consistent(s) && Enumerates(saved, Records(s))
    ensures IdsOf(saved) == s.taskIds && {} + IdsOf(saved) == s.taskIds
  {
    assert KeysValid(s) && RecordsValid(s);
    forall k | k in s.taskIds ensures k in IdsOf(saved) {
      var x := if k in s.epics then s.epics[k] else if k in s.tasks then s.tasks[k] else s.subtasks[k];
      assert x in Records(s);
      var i :| 0 <= i < |saved| && saved[i] == x;
    }
    forall k | k in IdsOf(saved) ensures k in s.taskIds {
      var i :| 0 <= i < |saved| && saved[i].id.Some? && saved[i].id.value == k;
      RecordHeld(s, saved[i]);
    }
  }


  // ---------------------------------------------------------------------
  // Save followed by load: the second loop

  /** Every subtask names a stored epic. */
  predicate SubtasksLinked(s: Store)
  {
    forall k :: k in s.subtasks ==> EpicColumn(s.subtasks[k]).Some? && EpicColumn(s.subtasks[k]).value in s.epics
  }

  /** The subtasks among `done` that name epic `j`. */
  function Children(s: Store, j: int, done: set<int>): set<int>
  {
    set k | k in done && k in s.subtasks && EpicColumn(s.subtasks[k]) == Some(j)
  }

  /** A subtask as the second loop leaves it: read back from its line, with its epic link. */
  function Rejoined(x: Task): (r: Task)
    requires x.Subtask?
    ensures r.Subtask? && r.epicId == x.epicId && r.id == x.id
    ensures x.start != Some(0) ==> r == x
  {
    var t := Reloaded(x);
    t.(epicId := x.epicId)
  }

  /** Epic `e` is epic `f` read back, listing `children`; its status and span are re-derived. */
  predicate EpicRestored(e: Task, f: Task, children: set<int>)
  {
    e.Epic? && e.id == f.id && e.title == f.title && e.description == f.description &&
    e.taskType == f.taskType && e.subtasksId == children
  }

  /** `q` is what the second loop makes of store `s` on its way: the ids and tasks are those read
      back, a subtask is linked exactly when it is in `linked`, and each epic lists the subtasks
      in `listed` that name it. */
  predicate PartlyLinked(s: Store, q: Store, linked: set<int>, listed: set<int>)
  {
    q.taskIds == s.taskIds && q.tasks == ReloadedMap(s.tasks, s.taskIds) &&
    q.subtasks.Keys == s.subtasks.Keys && q.epics.Keys == s.epics.Keys &&
    (forall k :: k in s.subtasks ==>
       s.subtasks[k].Subtask? &&
       q.subtasks[k] == if k in linked then Rejoined(s.subtasks[k]) else Reloaded(s.subtasks[k])) &&
    (forall j :: j in s.epics ==> EpicRestored(q.epics[j], s.epics[j], Children(s, j, listed)))
  }

  /** `q` is what the second loop has made of store `s` once the subtasks in `done` were linked. */
  predicate SecondLoaded(s: Store, q: Store, done: set<int>)
  {
    PartlyLinked(s, q, done, done)
  }

  /** The first loop's result is the second loop's start. */
  lemma SecondLoadStarts(s: Store, q: Store)
    requires Consistent(s) && FirstLoaded(s, q, s.taskIds)
    ensures SecondLoaded(s, q, {})
  {
    assert KeysValid(s) && RecordsValid(s);
    forall j | j in s.epics ensures EpicRestored(q.epics[j], s.epics[j], Children(s, j, {})) {
      assert q.epics[j] == Reloaded(s.epics[j]);
    }
  }

  /** The span's cast cannot fail on ids that are all stored subtasks. */
  lemma SubtaskIdsCast(q: Store, ids: set<int>)
    requires Consistent(q) && ids <= q.subtasks.Keys
    ensures !CastFails(q.index, ids)
  {
    assert IndexValid(q) && KeysValid(q) && RecordsValid(q);
    forall x | x in q.index && x.id.Some? && x.id.value in ids ensures x.Subtask? {
      var k := x.id.value;
      assert Stored(q, x) && k in q.subtasks && k !in q.tasks;
      assert q.subtasks[k] == x;
    }
  }

  /** A stored subtask re-filed with its start and duration unchanged passes the validator. */
  lemma RefileNotRejected(q: Store, t: Task)
    requires Consistent(q) && t.Subtask? && t.id.Some? && t.id.value in q.subtasks
    requires t.start == q.subtasks[t.id.value].start && t.duration == q.subtasks[t.id.value].duration
    ensures !Rejected(q, t)
  {
    var u := q.subtasks[t.id.value];
    assert IndexValid(q) && RecordsValid(q);
    forall x | x in q.index && x.id != t.id ensures !Conflict(x, t) {
      if t.start.Some? {
        var k := t.id.value;
        assert q.subtasks[k].start.Some? && q.subtasks[k].id == Some(k);
        assert u in q.index && x != u;
        assert !Conflict(x, u);
      }
    }
    RejectedMeaning(q, t);
  }

  /** Linking the subtask `k` to the epic it names: the epic lists it and is re-derived, then the
      linked copy is re-filed, and nothing throws. */
  lemma RelinkReloads(s: Store, q: Store, h: seq<Task>, k: int, done: set<int>)
    requires Consistent(s) && SubtasksLinked(s) && Consistent(q) && SecondLoaded(s, q, done)
    requires k in s.subtasks
    ensures var a := Relink(q, h, k, EpicColumn(s.subtasks[k]));
      a.0.None? && SecondLoaded(s, a.1, done + {k})
  {
    var j := s.subtasks[k].epicId.value;
    EpicListsIt(s, q, k, done);
    var sub := SetEpic(q.subtasks[k], q.epics[j]);
    var q2 := Relinked(q, j, AddOrUpdateSubtask(q.epics[j], sub));
    RefileLoaded(s, q2, k, done);
    RelinkFiles(q, h, k, j);
  }

  /** An entry whose subtask and epic are stored: the cast over the epic's ids, once it lists the
      subtask, throws, or else the result is the re-filing of the linked copy into the store
      with the epic listing it. */
  lemma RelinkFiles(q: Store, h: seq<Task>, k: int, j: int)
    requires Consistent(q) && k in q.subtasks && j in q.epics
    ensures q.epics[j].Epic? && q.subtasks[k].Subtask?
    ensures var sub := SetEpic(q.subtasks[k], q.epics[j]);
      var epic := AddOrUpdateSubtask(q.epics[j], sub);
      var a := Relink(q, h, k, Some(j));
      sub.id == Some(k) && sub.epicId == Some(j) && epic.id == Some(j) &&
      (CastFails(q.index, epic.subtasksId) ==> a.0 == Some(ClassCast) && a.1 == q) &&
      (!CastFails(q.index, epic.subtasksId) ==>
         Consistent(Relinked(q, j, epic)) && Fileable(Relinked(q, j, epic), sub) &&
         a.0 == SubtaskRefiled(Relinked(q, j, epic), sub).0 &&
         a.1 == SubtaskRefiled(Relinked(q, j, epic), sub).1)
  {
    assert RecordsValid(q) && KeysValid(q);
    var sub := SetEpic(q.subtasks[k], q.epics[j]);
    RelinkedKeeps(q, j, AddOrUpdateSubtask(q.epics[j], sub));
  }

  /** The first half of linking subtask `k`: its epic lists it and is re-derived, with no cast
      failing; the linked copy is the subtask with its link. */
  lemma EpicListsIt(s: Store, q: Store, k: int, done: set<int>)
    requires Consistent(s) && SubtasksLinked(s) && Consistent(q) && SecondLoaded(s, q, done)
    requires k in s.subtasks
    ensures var j := s.subtasks[k].epicId.value;
      k in q.subtasks && j in q.epics && q.epics[j].Epic? &&
      var sub := SetEpic(q.subtasks[k], q.epics[j]);
      var epic := AddOrUpdateSubtask(q.epics[j], sub);
      sub == Rejoined(s.subtasks[k]) && !CastFails(q.index, epic.subtasksId) &&
      (forall x :: x in q.index ==> x.start.Some?) &&
      Consistent(Relinked(q, j, epic)) && PartlyLinked(s, Relinked(q, j, epic), done, done + {k})
  {
    var x := s.subtasks[k];
    var j := x.epicId.value;
    assert RecordsValid(q) && KeysValid(q) && IndexValid(q);
    var sub := SetEpic(q.subtasks[k], q.epics[j]);
    assert sub == Rejoined(x);
    var epic := AddOrUpdateSubtask(q.epics[j], sub);
    assert epic.subtasksId == Children(s, j, done + {k});
    SubtaskIdsCast(q, epic.subtasksId);
    RelinkedKeeps(q, j, epic);
    RelinkedLoaded(s, q, j, epic, done, k);
  }

  /** The store after the epic of subtask `k` lists it and is re-derived. */
  lemma RelinkedLoaded(s: Store, q: Store, j: int, epic: Task, done: set<int>, k: int)
    requires (forall x :: x in q.index ==> x.start.Some?) && SecondLoaded(s, q, done)
    requires k in s.subtasks && EpicColumn(s.subtasks[k]) == Some(j) && j in s.epics
    requires epic.Epic? && epic.id == q.epics[j].id && epic.subtasksId == Children(s, j, done + {k})
    requires epic.(subtasksId := q.epics[j].subtasksId) == q.epics[j]
    ensures PartlyLinked(s, Relinked(q, j, epic), done, done + {k})
  {
    var q2 := Relinked(q, j, epic);
    forall i | i in s.epics ensures EpicRestored(q2.epics[i], s.epics[i], Children(s, i, done + {k})) {
      if i != j {
        assert Children(s, i, done + {k}) == Children(s, i, done);
      }
    }
  }

  /** Re-filing the linked copy of subtask `k` into the store whose epics already list it. */
  lemma RefileLoaded(s: Store, q2: Store, k: int, done: set<int>)
    requires Consistent(s) && SubtasksLinked(s) && Consistent(q2) && k in s.subtasks
    requires PartlyLinked(s, q2, done, done + {k})
    ensures Fileable(q2, Rejoined(s.subtasks[k]))
    ensures var a := SubtaskRefiled(q2, Rejoined(s.subtasks[k]));
      a.0.None? && SecondLoaded(s, a.1, done + {k})
  {
    var x := s.subtasks[k];
    var sub := Rejoined(x);
    var j := x.epicId.value;
    assert Children(s, j, done + {k}) <= q2.subtasks.Keys;
    RefileSteps(q2, sub, j);
    RefiledShape(s, q2, SubtaskRefiled(q2, sub).1, k, done);
  }

  /** The store after the linked copy of subtask `k` is filed and its epic re-derived. */
  lemma RefiledShape(s: Store, q2: Store, q4: Store, k: int, done: set<int>)
    requires k in s.subtasks && s.subtasks[k].Subtask? && s.subtasks[k].epicId.Some?
    requires PartlyLinked(s, q2, done, done + {k})
    requires var j := s.subtasks[k].epicId.value;
      j in s.epics && j in q4.epics && q4.epics == q2.epics[j := q4.epics[j]] &&
      EpicRestored(q4.epics[j], s.epics[j], Children(s, j, done + {k}))
    requires q4.subtasks == q2.subtasks[k := Rejoined(s.subtasks[k])]
    requires q4.taskIds == q2.taskIds && q4.tasks == q2.tasks
    ensures SecondLoaded(s, q4, done + {k})
  {
  }

  /** `updateSubtask` of a stored subtask whose interval is unchanged and whose epic lists only
      stored subtasks: filed, then the epic re-derived, and nothing throws. */
  lemma RefileSteps(q: Store, sub: Task, j: int)
    requires Consistent(q) && sub.Subtask? && sub.id.Some? && sub.id.value in q.subtasks
    requires sub.start == q.subtasks[sub.id.value].start && sub.duration == q.subtasks[sub.id.value].duration
    requires sub.epicId == Some(j) && j in q.epics && q.epics[j].subtasksId <= q.subtasks.Keys
    ensures Fileable(q, sub)
    ensures var a := SubtaskRefiled(q, sub);
      a.0.None? && a.1.taskIds == q.taskIds && a.1.tasks == q.tasks &&
      a.1.subtasks == q.subtasks[sub.id.value := sub] &&
      j in a.1.epics && a.1.epics == q.epics[j := a.1.epics[j]] &&
      a.1.epics[j].Epic? && a.1.epics[j].id == q.epics[j].id && a.1.epics[j].title == q.epics[j].title &&
      a.1.epics[j].description == q.epics[j].description && a.1.epics[j].taskType == q.epics[j].taskType &&
      a.1.epics[j].subtasksId == q.epics[j].subtasksId
  {
    var k := sub.id.value;
    RefileIsRelink(q, sub, j);
    assert KeysValid(q) && RecordsValid(q);
    var q3 := PutRecord(q, k, sub);
    assert IndexValid(q3);
    var e := DeriveEpic(q.epics[j], q3.subtasks, q3.index);
  }

  /** The same `updateSubtask`: the filing passes the validator, and the epic step is the
      re-derivation of the epic, which the cast lets through. */
  lemma RefileIsRelink(q: Store, sub: Task, j: int)
    requires Consistent(q) && sub.Subtask? && sub.id.Some? && sub.id.value in q.subtasks
    requires sub.start == q.subtasks[sub.id.value].start && sub.duration == q.subtasks[sub.id.value].duration
    requires sub.epicId == Some(j) && j in q.epics && q.epics[j].subtasksId <= q.subtasks.Keys
    ensures Fileable(q, sub) && Consistent(PutRecord(q, sub.id.value, sub))
    ensures SubtaskRefiled(q, sub) == (None, Relinked(PutRecord(q, sub.id.value, sub), j, q.epics[j]))
  {
    var k := sub.id.value;
    assert KeysValid(q) && RecordsValid(q);
    RefileNotRejected(q, sub);
    PutKeeps(q, k, sub);
    var q3 := PutRecord(q, k, sub);
    SubtaskIdsCast(q3, q3.epics[j].subtasksId);
  }

  /** The second loop over any order of the remembered subtask ids links each one it meets. */
  lemma {:induction false} SecondPassReloads(s: Store, q: Store, h: seq<Task>, order: seq<int>,
                                             links: map<int, Option<int>>)
    requires Consistent(s) && SubtasksLinked(s) && Consistent(q) && SecondLoaded(s, q, {})
    requires links == LinksOf(s, s.taskIds) && forall i :: 0 <= i < |order| ==> order[i] in links
    ensures var r := SecondPass(q, h, order, links);
      r.Ok? && SecondLoaded(s, r.value.0, Elements(order))
    decreases |order|
  {
    if order == [] {
      assert Elements(order) == {};
    } else {
      var init := order[..|order| - 1];
      SecondPassReloads(s, q, h, init, links);
      LastRelinkReloads(s, q, h, order, links);
    }
  }

  /** The last entry of the second loop links its subtask after the others were linked. */
  lemma LastRelinkReloads(s: Store, q: Store, h: seq<Task>, order: seq<int>, links: map<int, Option<int>>)
    requires Consistent(s) && SubtasksLinked(s) && Consistent(q) && order != []
    requires links == LinksOf(s, s.taskIds) && forall i :: 0 <= i < |order| ==> order[i] in links
    requires var r := SecondPass(q, h, order[..|order| - 1], links);
      r.Ok? && SecondLoaded(s, r.value.0, Elements(order[..|order| - 1]))
    ensures var r := SecondPass(q, h, order, links);
      r.Ok? && SecondLoaded(s, r.value.0, Elements(order))
  {
    var init := order[..|order| - 1];
    var k := order[|order| - 1];
    var before := SecondPass(q, h, init, links).value;
    var done := Elements(init);
    LastElements(order);
    assert links[k] == EpicColumn(s.subtasks[k]);
    var a := Relink(before.0, before.1, k, links[k]);
    assert SecondPass(q, h, order, links) == Ok((a.1, a.2)) by {
      RelinkReloads(s, before.0, before.1, k, done);
    }
    RelinkReloads(s, before.0, before.1, k, done);
  }

  /** The ids an order lists. */
  function Elements(order: seq<int>): set<int>
  {
    set k | k in order
  }

  /** The ids of a non-empty order: those before the last, and the last. */
  lemma LastElements(order: seq<int>)
    requires order != []
    ensures Elements(order) == Elements(order[..|order| - 1]) + {order[|order| - 1]}
  {
    assert order == order[..|order| - 1] + [order[|order| - 1]];
  }

  /** `save` followed by `loadFromFile`: a snapshot of a consistent store whose subtasks all name
      stored epics loads without an exception, whatever order the subtask ids come in. The ids
      and tasks are those read back, every subtask comes back with its epic link, and every epic
      lists exactly the subtasks that name it (its status and span re-derived from them). */
  lemma SaveLoadRoundTrip(s: Store, saved: seq<Task>, order: seq<int>)
    requires Consistent(s) && SubtasksLinked(s) && Enumerates(saved, Records(s))
    requires forall i :: 0 <= i < |saved| ==> Encodable(saved[i])
    ensures var p := FirstPass(Pass(EmptyStore(), map[], false), SnapshotLines(saved));
      p.Ok? && p.value.links.Keys == s.subtasks.Keys &&
      ((forall i :: 0 <= i < |order| ==> order[i] in p.value.links) ==>
         var q := SecondPass(p.value.store, [], order, p.value.links);
         q.Ok? && SecondLoaded(s, q.value.0, Elements(order)) &&
         (Orders(order, p.value.links.Keys) ==> SecondLoaded(s, q.value.0, s.subtasks.Keys)))
  {
    SavedFileReloads(s, saved);
    var p := FirstPass(Pass(EmptyStore(), map[], false), SnapshotLines(saved)).value;
    LoadedPassRelinks(s, p, order);
  }

  /** The second loop, started from what the first loop reads back from a snapshot of `s`. */
  lemma LoadedPassRelinks(s: Store, p: Pass, order: seq<int>)
    requires Consistent(s) && SubtasksLinked(s) && Consistent(p.store)
    requires FirstLoaded(s, p.store, s.taskIds) && p.links == LinksOf(s, s.taskIds)
    ensures p.links.Keys == s.subtasks.Keys
    ensures (forall i :: 0 <= i < |order| ==> order[i] in p.links) ==>
      var q := SecondPass(p.store, [], order, p.links);
      q.Ok? && SecondLoaded(s, q.value.0, Elements(order)) &&
      (Orders(order, p.links.Keys) ==> SecondLoaded(s, q.value.0, s.subtasks.Keys))
  {
    assert KeysValid(s);
    assert p.links.Keys == s.subtasks.Keys;
    SecondLoadStarts(s, p.store);
    if forall i :: 0 <= i < |order| ==> order[i] in p.links {
      SecondPassReloads(s, p.store, [], order, p.links);
      if Orders(order, p.links.Keys) {
        OrderedElements(order, p.links.Keys);
      }
    }
  }

  /** An order of a key set lists exactly its keys. */
  lemma OrderedElements(order: seq<int>, keys: set<int>)
    requires Orders(order, keys)
    ensures Elements(order) == keys
  {
    forall k | k in keys ensures k in Elements(order) {
      assert k in order;
    }
    forall k | k in Elements(order) ensures k in keys {
      assert k in order;
    }
  }
}
