/**
 * The priority index of manager/InMemoryTaskManager.java: a TreeSet of
 * records ordered by start time, the closed-interval overlap validator, and
 * the epic time aggregate computed from the index.
 *
 * The TreeSet's comparator looks at the start time only, so two records with
 * the same start are one element to it: `add` keeps the element already
 * there, `contains` and `remove` find the element with the same start. The
 * index is a sequence kept in ascending start order; an unscheduled start
 * (the LocalDateTime.MIN sentinel) sorts before every instant.
 */
module Schedule {
  import opened Wrappers
  import opened Model

  // ---------------------------------------------------------------------
  // Order

  /** The comparator `Comparator.comparing(Task::getStartTime)`, strict part. */
  predicate StartBefore(a: Option<int>, b: Option<int>)
  {
    match (a, b)
    case (None, Some(_)) => true
    case (Some(x), Some(y)) => x < y
    case _ => false
  }

  /** Ascending start order with no two elements comparing equal. */
  predicate Sorted(s: seq<Task>)
  {
    forall i, j :: 0 <= i < j < |s| ==> StartBefore(s[i].start, s[j].start)
  }

  /** Some element of `s` has start `st` (`TreeSet.contains` of a record with that start). */
  predicate HasStart(s: seq<Task>, st: Option<int>)
  {
    exists i :: 0 <= i < |s| && s[i].start == st
  }

  lemma SortedTail(s: seq<Task>)
    requires Sorted(s) && s != []
    ensures Sorted(s[1..])
    ensures forall x :: x in s[1..] ==> StartBefore(s[0].start, x.start)
  {
    forall x | x in s[1..] ensures StartBefore(s[0].start, x.start) {
      var j :| 0 <= j < |s[1..]| && s[1..][j] == x;
      assert s[j + 1] == x;
    }
  }

  lemma SortedCons(t: Task, s: seq<Task>)
    requires Sorted(s)
    requires forall x :: x in s ==> StartBefore(t.start, x.start)
    ensures Sorted([t] + s)
  {
    var r := [t] + s;
    forall i, j | 0 <= i < j < |r| ensures StartBefore(r[i].start, r[j].start) {
      if i > 0 {
        assert r[i] == s[i - 1] && r[j] == s[j - 1];
      } else {
        assert r[j] == s[j - 1] && r[j] in s;
      }
    }
  }

  /** In a sorted index a start identifies its element. */
  lemma SortedStartsUnique(s: seq<Task>, x: Task, y: Task)
    requires Sorted(s) && x in s && y in s && x.start == y.start
    ensures x == y
  {
    var i :| 0 <= i < |s| && s[i] == x;
    var j :| 0 <= j < |s| && s[j] == y;
  }

  // ---------------------------------------------------------------------
  // TreeSet.add and TreeSet.remove

  /** `TreeSet.add`: insert in start order, unless an element with the same start is present. */
  function Add(s: seq<Task>, t: Task): (r: seq<Task>)
  {
    if s == [] then [t]
    else if s[0].start == t.start then s
    else if StartBefore(t.start, s[0].start) then [t] + s
    else [s[0]] + Add(s[1..], t)
  }

  /** `TreeSet.remove`: drop the element whose start equals `st`. */
  function Delete(s: seq<Task>, st: Option<int>): (r: seq<Task>)
  {
    if s == [] then []
    else if s[0].start == st then Delete(s[1..], st)
    else [s[0]] + Delete(s[1..], st)
  }

  /** Two different starts: one of them comes first. */
  lemma StartTotal(a: Option<int>, b: Option<int>)
    ensures a == b || StartBefore(a, b) || StartBefore(b, a)
  {
  }

  lemma StartTransitive(a: Option<int>, b: Option<int>, c: Option<int>)
    requires StartBefore(a, b) && StartBefore(b, c)
    ensures StartBefore(a, c)
  {
  }

  /** `add` keeps every element and brings in nothing but `t`; it brings `t` in unless an element
      has its start. */
  lemma {:induction false} AddMembers(s: seq<Task>, t: Task)
    ensures forall x :: x in Add(s, t) ==> x in s || x == t
    ensures forall x :: x in s ==> x in Add(s, t)
    ensures t in Add(s, t) || HasStart(s, t.start)
  {
    if s != [] && s[0].start != t.start && !StartBefore(t.start, s[0].start) {
      AddMembers(s[1..], t);
      assert s == [s[0]] + s[1..];
      if HasStart(s[1..], t.start) {
        var i :| 0 <= i < |s[1..]| && s[1..][i].start == t.start;
        assert s[i + 1] == s[1..][i];
      }
    } else if s != [] && s[0].start == t.start {
      assert HasStart(s, t.start);
    }
  }

  /** `add` keeps a sorted index sorted. */
  lemma {:induction false} AddSorted(s: seq<Task>, t: Task)
    requires Sorted(s)
    ensures Sorted(Add(s, t))
  {
    if s == [] || s[0].start == t.start {
    } else if StartBefore(t.start, s[0].start) {
      SortedTail(s);
      forall x | x in s ensures StartBefore(t.start, x.start) {
        if x != s[0] {
          assert x in s[1..];
          StartTransitive(t.start, s[0].start, x.start);
        }
      }
      SortedCons(t, s);
    } else {
      SortedTail(s);
      AddSorted(s[1..], t);
      AddMembers(s[1..], t);
      StartTotal(t.start, s[0].start);
      SortedCons(s[0], Add(s[1..], t));
    }
  }

  /** In a sorted index, `add` of a record whose start is taken changes nothing, and otherwise
      grows the index by one. */
  lemma {:induction false} AddSize(s: seq<Task>, t: Task)
    requires Sorted(s)
    ensures HasStart(s, t.start) ==> Add(s, t) == s
    ensures !HasStart(s, t.start) ==> |Add(s, t)| == |s| + 1
  {
    if s == [] {
    } else if s[0].start == t.start {
    } else if StartBefore(t.start, s[0].start) {
      FreeBeforeFirst(s, t.start);
    } else {
      AddSize(s[1..], t);
      HasStartCons(s, t.start);
      assert Add(s, t) == [s[0]] + Add(s[1..], t);
      assert s == [s[0]] + s[1..];
    }
  }

  /** A start before the first one of a sorted index is free. */
  lemma FreeBeforeFirst(s: seq<Task>, st: Option<int>)
    requires Sorted(s) && s != [] && StartBefore(st, s[0].start)
    ensures !HasStart(s, st)
  {
    forall i | 0 <= i < |s| ensures s[i].start != st {
      if i > 0 {
        StartTransitive(st, s[0].start, s[i].start);
      }
    }
  }

  /** A start is in a non-empty index when it is the first one or it is in the rest. */
  lemma HasStartCons(s: seq<Task>, st: Option<int>)
    requires s != []
    ensures HasStart(s, st) <==> s[0].start == st || HasStart(s[1..], st)
  {
    if HasStart(s, st) && s[0].start != st {
      var i :| 0 <= i < |s| && s[i].start == st;
      assert s[1..][i - 1] == s[i];
    }
    if HasStart(s[1..], st) {
      var i :| 0 <= i < |s[1..]| && s[1..][i].start == st;
      assert s[i + 1] == s[1..][i];
    }
  }

  /** What `add` leaves in a sorted index: the old elements, plus `t` when its start was free;
      the index stays sorted. */
  lemma AddSpec(s: seq<Task>, t: Task)
    requires Sorted(s)
    ensures Sorted(Add(s, t))
    ensures forall x :: x in Add(s, t) <==> x in s || (x == t && !HasStart(s, t.start))
    ensures HasStart(s, t.start) ==> Add(s, t) == s
    ensures !HasStart(s, t.start) ==> |Add(s, t)| == |s| + 1
  {
    AddMembers(s, t);
    AddSorted(s, t);
    AddSize(s, t);
  }

  /** `remove` keeps exactly the elements with another start. */
  lemma {:induction false} DeleteMembers(s: seq<Task>, st: Option<int>)
    ensures forall x :: x in Delete(s, st) <==> x in s && x.start != st
    ensures !HasStart(s, st) ==> Delete(s, st) == s
  {
    if s != [] {
      DeleteMembers(s[1..], st);
      assert s == [s[0]] + s[1..];
      if !HasStart(s, st) {
        assert !HasStart(s[1..], st) by {
          forall i | 0 <= i < |s[1..]| ensures s[1..][i].start != st {
            assert s[1..][i] == s[i + 1];
          }
        }
      }
    }
  }

  /** `remove` keeps a sorted index sorted. */
  lemma {:induction false} DeleteSorted(s: seq<Task>, st: Option<int>)
    requires Sorted(s)
    ensures Sorted(Delete(s, st))
  {
    if s != [] {
      SortedTail(s);
      DeleteSorted(s[1..], st);
      if s[0].start != st {
        DeleteMembers(s[1..], st);
        SortedCons(s[0], Delete(s[1..], st));
      }
    }
  }

  /** In a sorted index `remove` removes one element exactly when one has that start. */
  lemma {:induction false} DeleteSize(s: seq<Task>, st: Option<int>)
    requires Sorted(s)
    ensures HasStart(s, st) ==> |Delete(s, st)| == |s| - 1
  {
    if s != [] {
      SortedTail(s);
      DeleteSize(s[1..], st);
      if s[0].start == st {
        DeleteMembers(s[1..], st);
        assert !HasStart(s[1..], st) by {
          forall i | 0 <= i < |s[1..]| ensures s[1..][i].start != st {
            assert s[1..][i] in s[1..];
          }
        }
      } else if HasStart(s, st) {
        var i :| 0 <= i < |s| && s[i].start == st;
        assert i > 0 && s[1..][i - 1] == s[i];
      }
    }
  }

  /** What `remove` leaves: the elements with another start, in the same order, still sorted;
      it removes one element exactly when one has that start. */
  lemma DeleteSpec(s: seq<Task>, st: Option<int>)
    requires Sorted(s)
    ensures Sorted(Delete(s, st))
    ensures forall x :: x in Delete(s, st) <==> x in s && x.start != st
    ensures !HasStart(s, st) ==> Delete(s, st) == s
    ensures HasStart(s, st) ==> |Delete(s, st)| == |s| - 1
  {
    DeleteMembers(s, st);
    DeleteSorted(s, st);
    DeleteSize(s, st);
  }

  // ---------------------------------------------------------------------
  // The overlap validator (isOverlapping)

  /** The end `getEndTime` gives a scheduled Task or Subtask. */
  function Finish(t: Task): int
    requires t.start.Some?
  {
    t.start.value + t.duration
  }

  /** One entry of the validator's scan: `!(e.start.isAfter(tEnd) || e.end.isBefore(tStart))`.
      Both intervals are closed, so touching endpoints conflict. */
  predicate Conflict(e: Task, t: Task)
  {
    e.start.Some? && t.start.Some? &&
    !(e.start.value > Finish(t) || Finish(e) < t.start.value)
  }

  /** `isOverlapping`: does any element of the index conflict with `t`? An empty index never does. */
  function IsOverlapping(s: seq<Task>, t: Task): (r: bool)
    ensures r <==> exists e :: e in s && Conflict(e, t)
    ensures s == [] ==> !r
  {
    if s == [] then false
    else Conflict(s[0], t) || IsOverlapping(s[1..], t)
  }

  /** Conflict is symmetric and reflexive on scheduled records; intervals that share a single
      instant conflict, and intervals separated by a gap do not. */
  lemma ConflictFacts(a: Task, b: Task)
    requires a.start.Some? && b.start.Some?
    ensures Conflict(a, b) <==> Conflict(b, a)
    ensures Conflict(a, a)
    ensures a.start == b.start ==> Conflict(a, b)
    ensures Finish(a) == b.start.value ==> Conflict(a, b)
    ensures Finish(a) < b.start.value ==> !Conflict(a, b) && !Conflict(b, a)
  {
  }

  /** No two different elements of the index conflict. */
  predicate Disjoint(s: seq<Task>)
  {
    forall x, y :: x in s && y in s && x != y ==> !Conflict(x, y)
  }

  /** Adding a record that passed the validator keeps the index free of conflicts. */
  lemma AddKeepsDisjoint(s: seq<Task>, t: Task)
    requires Sorted(s) && Disjoint(s) && t.start.Some? && !IsOverlapping(s, t)
    ensures Disjoint(Add(s, t))
    ensures t in Add(s, t) && !HasStart(s, t.start)
  {
    AddSpec(s, t);
    assert !HasStart(s, t.start) by {
      forall i | 0 <= i < |s| ensures s[i].start != t.start {
        assert s[i] in s;
        if s[i].start.Some? {
          ConflictFacts(s[i], t);
        }
      }
    }
    forall x, y | x in Add(s, t) && y in Add(s, t) && x != y ensures !Conflict(x, y) {
      if x == t && y.start.Some? {
        ConflictFacts(y, t);
      }
    }
  }

  // ---------------------------------------------------------------------
  // Dropping entries by id (what a run of `remove` calls leaves)

  /** The index without the entries whose id is in `ids`, in index order. */
  function Drop(s: seq<Task>, ids: set<int>): (r: seq<Task>)
    ensures forall x :: x in r <==> x in s && !(x.id.Some? && x.id.value in ids)
  {
    if s == [] then []
    else if s[0].id.Some? && s[0].id.value in ids then Drop(s[1..], ids)
    else [s[0]] + Drop(s[1..], ids)
  }

  /** Dropping keeps the index sorted and free of conflicts. */
  lemma {:induction false} DropSorted(s: seq<Task>, ids: set<int>)
    requires Sorted(s)
    ensures Sorted(Drop(s, ids))
    ensures Disjoint(s) ==> Disjoint(Drop(s, ids))
  {
    if s != [] {
      SortedTail(s);
      DropSorted(s[1..], ids);
      if !(s[0].id.Some? && s[0].id.value in ids) {
        SortedCons(s[0], Drop(s[1..], ids));
      }
    }
  }

  /** Two rounds of dropping are one. */
  lemma {:induction false} DropDrop(s: seq<Task>, a: set<int>, b: set<int>)
    ensures Drop(Drop(s, a), b) == Drop(s, a + b)
  {
    if s != [] {
      DropDrop(s[1..], a, b);
      if !(s[0].id.Some? && s[0].id.value in a) {
        assert Drop(s, a)[0] == s[0] && Drop(s, a)[1..] == Drop(s[1..], a);
      }
    }
  }

  /** Dropping ids no entry has changes nothing. */
  lemma {:induction false} DropAbsent(s: seq<Task>, ids: set<int>)
    requires forall x :: x in s ==> !(x.id.Some? && x.id.value in ids)
    ensures Drop(s, ids) == s
  {
    if s != [] {
      assert s[0] in s;
      assert forall x :: x in s[1..] ==> x in s;
      DropAbsent(s[1..], ids);
      assert s == [s[0]] + s[1..];
    }
  }

  /** Two id sets that agree on every id the sequence holds drop the same entries. */
  lemma {:induction false} DropSame(s: seq<Task>, a: set<int>, b: set<int>)
    requires forall x :: x in s && x.id.Some? ==> (x.id.value in a <==> x.id.value in b)
    ensures Drop(s, a) == Drop(s, b)
  {
    if s != [] {
      assert s[0] in s;
      assert forall x :: x in s[1..] ==> x in s;
      DropSame(s[1..], a, b);
    }
  }

  /** Dropping the id of an element the index did not hold undoes its `add`. */
  lemma {:induction false} DropAdd(s: seq<Task>, t: Task, ids: set<int>)
    requires !HasStart(s, t.start) && t.id.Some? && t.id.value in ids
    ensures Drop(Add(s, t), ids) == Drop(s, ids)
  {
    if s != [] {
      assert s[0].start != t.start;
      if StartBefore(t.start, s[0].start) {
        assert ([t] + s)[1..] == s;
      } else {
        assert !HasStart(s[1..], t.start) by {
          forall i | 0 <= i < |s[1..]| ensures s[1..][i].start != t.start {
            assert s[1..][i] == s[i + 1];
          }
        }
        DropAdd(s[1..], t, ids);
        assert ([s[0]] + Add(s[1..], t))[1..] == Add(s[1..], t);
      }
    }
  }

  /** When exactly the entries with id `k` have start `st`, `remove` by that start drops id `k`. */
  lemma {:induction false} DeleteIsDrop(s: seq<Task>, st: Option<int>, k: int)
    requires forall x :: x in s ==> (x.start == st <==> x.id == Some(k))
    ensures Delete(s, st) == Drop(s, {k})
  {
    if s != [] {
      assert s[0] in s;
      assert forall x :: x in s[1..] ==> x in s;
      DeleteIsDrop(s[1..], st, k);
    }
  }

  /** `remove` of an indexed element followed by `add` of it gives back the index. */
  lemma {:induction false} DeleteAddRoundTrip(s: seq<Task>, x: Task)
    requires Sorted(s) && x in s
    ensures Add(Delete(s, x.start), x) == s
  {
    SortedTail(s);
    if s[0] == x {
      DeleteSpec(s[1..], x.start);
      assert !HasStart(s[1..], x.start) by {
        forall i | 0 <= i < |s[1..]| ensures s[1..][i].start != x.start {
          assert s[1..][i] in s[1..];
        }
      }
      assert Delete(s, x.start) == s[1..];
      if s[1..] != [] {
        assert s[1..][0] in s[1..];
      }
      assert s == [x] + s[1..];
    } else {
      assert x in s[1..];
      assert s[0].start != x.start;
      DeleteAddRoundTrip(s[1..], x);
      var d := Delete(s[1..], x.start);
      assert Delete(s, x.start) == [s[0]] + d;
      assert ([s[0]] + d)[0] == s[0] && ([s[0]] + d)[1..] == d;
      assert !StartBefore(x.start, s[0].start) by {
        if StartBefore(x.start, s[0].start) {
          StartTransitive(x.start, s[0].start, x.start);
        }
      }
      assert s == [s[0]] + s[1..];
    }
  }

  // ---------------------------------------------------------------------
  // The epic time aggregate (calculateTimeAndDurationOfEpic)

  /** The index entries whose id is in `ids`, in index order. */
  function Members(s: seq<Task>, ids: set<int>): (r: seq<Task>)
    ensures forall x :: x in r <==> x in s && x.id.Some? && x.id.value in ids
    ensures |r| <= |s| && (ids == {} ==> r == [])
  {
    if s == [] then []
    else if s[0].id.Some? && s[0].id.value in ids then [s[0]] + Members(s[1..], ids)
    else Members(s[1..], ids)
  }

  /** `map(s -> (Subtask) s)` over the members throws ClassCastException: some index entry
      whose id is in `ids` is not a subtask. */
  predicate CastFails(s: seq<Task>, ids: set<int>)
  {
    exists x :: x in s && x.id.Some? && x.id.value in ids && !x.Subtask?
  }

  /** The cast fails exactly when a member is not a subtask; otherwise every member is one. */
  lemma CastMeaning(s: seq<Task>, ids: set<int>)
    ensures CastFails(s, ids) <==> exists x :: x in Members(s, ids) && !x.Subtask?
    ensures !CastFails(s, ids) ==> forall x :: x in Members(s, ids) ==> x.Subtask?
  {
  }

  /** `reduce(Duration.ZERO, Duration::plus)` over the durations. */
  function SumDuration(s: seq<Task>): nat
  {
    if s == [] then 0 else s[0].duration + SumDuration(s[1..])
  }

  /** `min(taskComparator)`'s start: the earliest start of a non-empty list of scheduled records. */
  function MinStart(s: seq<Task>): (r: int)
    requires s != [] && forall x :: x in s ==> x.start.Some?
    ensures forall x :: x in s ==> r <= x.start.value
    ensures exists x :: x in s && x.start == Some(r)
  {
    if |s| == 1 then s[0].start.value
    else
      var m := MinStart(s[1..]);
      assert s[1..][0] in s;
      if s[0].start.value <= m then s[0].start.value else m
  }

  /** `max(comparing(getEndTime))`'s end: the latest end of a non-empty list of scheduled records. */
  function MaxFinish(s: seq<Task>): (r: int)
    requires s != [] && forall x :: x in s ==> x.start.Some?
    ensures forall x :: x in s ==> Finish(x) <= r
    ensures exists x :: x in s && Finish(x) == r
  {
    if |s| == 1 then Finish(s[0])
    else
      var m := MaxFinish(s[1..]);
      assert s[1..][0] in s;
      if Finish(s[0]) >= m then Finish(s[0]) else m
  }

  /** An epic's start, total duration and end. */
  datatype Span = Span(start: Option<int>, duration: nat, endTime: Option<int>)

  /** The aggregate over the scheduled subtasks an epic owns: earliest start, summed durations,
      latest end; with none, no start, zero duration and no end. */
  function EpicSpan(index: seq<Task>, ids: set<int>): (r: Span)
    requires forall x :: x in index ==> x.start.Some?
  {
    var owned := Members(index, ids);
    if owned == [] then Span(None, 0, None)
    else Span(Some(MinStart(owned)), SumDuration(owned), Some(MaxFinish(owned)))
  }

  /** The aggregate's start is no later than its end and lies at or before every owned start;
      its end is at or after every owned end; each of them belongs to an owned entry. */
  lemma EpicSpanBounds(index: seq<Task>, ids: set<int>)
    requires forall x :: x in index ==> x.start.Some?
    ensures var r := EpicSpan(index, ids);
      (r.start.Some? <==> exists x :: x in index && x.id.Some? && x.id.value in ids) &&
      (r.start.Some? <==> r.endTime.Some?) &&
      (r.start.None? ==> r.duration == 0) &&
      (r.start.Some? ==> r.start.value <= r.endTime.value) &&
      (forall x :: x in index && x.id.Some? && x.id.value in ids ==>
         r.start.value <= x.start.value && Finish(x) <= r.endTime.value)
  {
    var owned := Members(index, ids);
    if owned != [] {
      assert owned[0] in owned;
    }
  }

  /** The worked example of the design: subtasks at T for 10 and at T + 20 for 5 give an epic
      from T for 15 ending at T + 25; without the second, from T for 10 ending at T + 10. */
  lemma EpicSpanExample(s1: Task, s2: Task, T: int)
    requires s1.id == Some(2) && s1.start == Some(T) && s1.duration == 10
    requires s2.id == Some(3) && s2.start == Some(T + 20) && s2.duration == 5
    ensures EpicSpan([s1, s2], {2, 3}) == Span(Some(T), 15, Some(T + 25))
    ensures EpicSpan([s1], {2}) == Span(Some(T), 10, Some(T + 10))
    ensures EpicSpan([s1, s2], {}) == Span(None, 0, None)
  {
    assert [s1, s2][1..] == [s2];
    assert Members([s1, s2], {2, 3}) == [s1, s2];
    assert MinStart([s1, s2]) == T;
    assert MaxFinish([s1, s2]) == T + 25;
    assert SumDuration([s2]) == 5 by { assert [s2][1..] == []; }
    assert SumDuration([s1, s2]) == 15;
    assert Members([s1], {2}) == [s1];
    assert Members([s1, s2], {}) == [];
  }
}
