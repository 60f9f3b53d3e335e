/**
 * The record objects as the older store revision (src/service) uses them.
 *
 * That revision works on shared mutable objects: the store's maps, the
 * caller and an epic's own subtask collection all hold the same Subtask
 * objects, and a subtask holds a reference to its Epic object. The epic's
 * collection is a map from subtask id to Subtask; the epic API it relies
 * on (`getSubtasks`, `addOrUpdateSubtask`, `removeSubtask`, `checkStatus`,
 * `getEpic`) is modelled here as plain field operations on that map.
 * Java's HashMap accepts a null key, so every map is keyed by an optional id.
 */
module ServiceModel {
  import opened Wrappers
  import Model

  /** A HashMap key: an Integer id that may be null. */
  type Key = Option<int>

  class Task {
    var id: Option<int>
    var title: string
    var description: string
    var status: Model.Status
  }

  class Subtask {
    var id: Option<int>
    var title: string
    var description: string
    var status: Model.Status
    var epic: Epic?
  }

  class Epic {
    var id: Option<int>
    var title: string
    var description: string
    var status: Model.Status
    var subtasks: map<Key, Subtask>

    /** `addOrUpdateSubtask`: the subtask is held under its id. */
    method AddOrUpdateSubtask(s: Subtask)
      modifies this`subtasks
      ensures subtasks == old(subtasks)[s.id := s]
    {
      subtasks := subtasks[s.id := s];
    }

    /** `removeSubtask`: whatever is held under the subtask's id is dropped. */
    method RemoveSubtask(s: Subtask)
      modifies this`subtasks
      ensures subtasks == old(subtasks) - {s.id}
    {
      subtasks := subtasks - {s.id};
    }

    /** `checkStatus`: the status is re-derived from the held subtasks. */
    method CheckStatus()
      modifies this`status
      ensures status == Derived(Statuses(this))
    {
      status := Derived(Statuses(this));
    }
  }

  // ---------------------------------------------------------------------
  // The epic status rule over an epic's own collection

  /** The status of each subtask the epic holds, by key. */
  function Statuses(e: Epic): map<Key, Model.Status>
    reads e`subtasks, e.subtasks.Values
  {
    map k | k in e.subtasks :: e.subtasks[k].status
  }

  /** How many held subtasks have status `s` (the `filter(...).count()` of the source). */
  function CountOf(m: map<Key, Model.Status>, s: Model.Status): (n: nat)
    ensures n <= |m|
  {
    var matching := set k | k in m && m[k] == s;
    Model.SubsetCardinality(matching, m.Keys);
    |matching|
  }

  /** `checkEpicStatus`: the counting rule applied to the held subtasks. */
  function Derived(m: map<Key, Model.Status>): Model.Status
  {
    Model.StatusRule(|m|, CountOf(m, Model.DONE), CountOf(m, Model.NEW))
  }

  /** Every held subtask has status `s`. */
  predicate AllAre(m: map<Key, Model.Status>, s: Model.Status)
  {
    forall k :: k in m ==> m[k] == s
  }

  /** Counting a status gives the full count exactly when every held subtask has it. */
  lemma CountIsAll(m: map<Key, Model.Status>, s: Model.Status)
    ensures CountOf(m, s) == |m| <==> AllAre(m, s)
  {
    var matching := set k | k in m && m[k] == s;
    Model.SubsetCardinality(matching, m.Keys);
    if AllAre(m, s) {
      assert matching == m.Keys;
    }
  }

  /** What the rule means: no subtask or all NEW gives NEW, all DONE (and some) gives DONE,
      anything else IN_PROGRESS. */
  lemma DerivedMeaning(m: map<Key, Model.Status>)
    ensures Derived(m) == Model.DONE <==> |m| > 0 && AllAre(m, Model.DONE)
    ensures Derived(m) == Model.NEW <==> AllAre(m, Model.NEW)
    ensures Derived(m) == Model.IN_PROGRESS <==> !AllAre(m, Model.DONE) && !AllAre(m, Model.NEW)
  {
    CountIsAll(m, Model.DONE);
    CountIsAll(m, Model.NEW);
    if |m| > 0 {
      var k :| k in m;
      assert !(AllAre(m, Model.DONE) && AllAre(m, Model.NEW));
    } else {
      assert m == map[];
    }
  }

  // ---------------------------------------------------------------------
  // Snapshots: what the kind-preserving copy constructors hand to the history

  function TaskRecord(t: Task): (r: Model.Task)
    reads t
    ensures r.Plain? && r.id == t.id && r.status == t.status
  {
    Model.Plain(t.id, t.title, t.description, t.status, Model.TASK, None, 0)
  }

  function EpicRecord(e: Epic): (r: Model.Task)
    reads e
    ensures r.Epic? && r.id == e.id && r.status == e.status
  {
    Model.Epic(e.id, e.title, e.description, e.status, Model.EPIC, None, 0,
               set k | k in e.subtasks && k.Some? :: k.value, None)
  }

  function SubtaskRecord(s: Subtask): (r: Model.Task)
    reads s, s.epic
    ensures r.Subtask? && r.id == s.id && r.status == s.status
  {
    Model.Subtask(s.id, s.title, s.description, s.status, Model.SUBTASK, None, 0,
                  if s.epic == null then None else s.epic.id)
  }

  // ---------------------------------------------------------------------
  // Loops both store classes share

  /** Every key of `m` exactly once, in some order. */
  ghost predicate Lists<V>(keys: seq<Key>, m: map<Key, V>)
  {
    (forall k :: k in m <==> k in keys)
    && (forall i, j :: 0 <= i < j < |keys| ==> keys[i] != keys[j])
  }

  /** `map.values().stream().toList()`: the values of `m`, one per key, in an
      order the hash map chooses; `keys` says which key each value came from. */
  method Listing<V(==)>(m: map<Key, V>) returns (keys: seq<Key>, values: seq<V>)
    ensures Lists(keys, m) && |values| == |keys|
    ensures forall i :: 0 <= i < |keys| ==> keys[i] in m && values[i] == m[keys[i]]
  {
    var todo := m.Items;
    keys, values := [], [];
    while todo != {}
      invariant todo <= m.Items && |values| == |keys|
      invariant forall k :: k in keys <==> k in m && (k, m[k]) !in todo
      invariant forall i :: 0 <= i < |keys| ==> keys[i] in m && values[i] == m[keys[i]]
      invariant forall i, j :: 0 <= i < j < |keys| ==> keys[i] != keys[j]
      decreases |todo|
    {
      var e :| e in todo;
      assert e.0 in m && m[e.0] == e.1;
      keys, values := keys + [e.0], values + [e.1];
      todo := todo - {e};
    }
  }

  /** A listing holds every value of the map, and nothing else. */
  lemma ListedValues<V>(keys: seq<Key>, values: seq<V>, m: map<Key, V>)
    requires Lists(keys, m) && |values| == |keys|
    requires forall i :: 0 <= i < |keys| ==> keys[i] in m && values[i] == m[keys[i]]
    ensures forall k :: k in m ==> m[k] in values
    ensures forall i :: 0 <= i < |values| ==> values[i] in m.Values
  {
    forall k | k in m ensures m[k] in values {
      var i :| 0 <= i < |keys| && keys[i] == k;
    }
    forall i | 0 <= i < |values| ensures values[i] in m.Values {
      var k := keys[i];
      assert k in m && m[k] == values[i];
    }
  }

  /** The ids of the subtasks an epic holds, as `subtask.getId()` reads them. */
  function HeldIds(e: Epic): set<Key>
    reads e`subtasks, e.subtasks.Values
  {
    set k | k in e.subtasks :: e.subtasks[k].id
  }

  /** The cascade of `removeEpic`: remove from `m` the id of every subtask the epic
      holds. Unboxing a null id throws, after the removals made before it. */
  method RemoveHeld(m: map<Key, Subtask>, e: Epic) returns (r: map<Key, Subtask>, failure: Option<Failure>)
    ensures failure.None? <==> None !in HeldIds(e)
    ensures failure.None? ==> r == m - HeldIds(e)
    ensures failure.Some? ==> failure == Some(NullPointer)
    ensures r.Keys <= m.Keys && m.Keys - r.Keys <= HeldIds(e)
    ensures forall k :: k in r ==> r[k] == m[k]
  {
    var keys, held := Listing(e.subtasks);
    r := m;
    ghost var done: set<Key> := {};
    for i := 0 to |held|
      invariant r == m - done && done <= HeldIds(e) && None !in done
      invariant forall j :: 0 <= j < i ==> held[j].id in done
    {
      assert held[i] == e.subtasks[keys[i]];
      if held[i].id.None? {
        return r, Some(NullPointer);
      }
      r, done := r - {held[i].id}, done + {held[i].id};
    }
    assert HeldIds(e) <= done by {
      forall k | k in e.subtasks ensures e.subtasks[k].id in done {
        var j :| 0 <= j < |keys| && keys[j] == k;
      }
    }
    failure := None;
  }

}
