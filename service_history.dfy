/**
 * The older history tracker (service/InMemoryHistoryManager.java): an
 * array list of at most HISTORY_SIZE snapshots, oldest first. Duplicates
 * are allowed; a full list drops its oldest entry before appending, and
 * `remove` drops every entry equal (same class, same id) to its argument.
 *
 * The list holds copies made by the kind-preserving copy constructors, so
 * an entry is a value of Model.Task and no caller can reach it.
 */
module ServiceHistory {
  import opened Wrappers
  import opened Model

  const HISTORY_SIZE: nat := 10

  /** The newest HISTORY_SIZE entries of `h`, in order. */
  function Window(h: seq<Task>): (r: seq<Task>)
  {
    if |h| <= HISTORY_SIZE then h else h[|h| - HISTORY_SIZE..]
  }

  /** A window is bounded, ends with the newest entry, and keeps a short list whole. */
  lemma WindowFacts(h: seq<Task>, t: Task)
    ensures |Window(h)| <= HISTORY_SIZE
    ensures |h| <= HISTORY_SIZE ==> Window(h) == h
    ensures Window(h + [t])[|Window(h + [t])| - 1] == t
    ensures |h| >= HISTORY_SIZE ==> |Window(h + [t])| == HISTORY_SIZE
    ensures forall i :: 0 <= i < |Window(h)| ==> Window(h)[i] == h[|h| - |Window(h)| + i]
  {
  }

  /** Appending to a window and windowing again is windowing the whole stream:
      the list after any run of `add` calls is the last ten records added. */
  lemma WindowAppend(h: seq<Task>, t: Task)
    ensures Window(Window(h) + [t]) == Window(h + [t])
  {
    if |h| > HISTORY_SIZE {
      var w := Window(h);
      assert w + [t] == (h + [t])[|h| - HISTORY_SIZE..];
    }
  }

  /** The list after adding each of `added` in turn, starting from `h`. */
  function Replay(h: seq<Task>, added: seq<Task>): (r: seq<Task>)
  {
    if added == [] then h else Window(Replay(h, added[..|added| - 1]) + [added[|added| - 1]])
  }

  /** However many records were added, the list is the newest ten of all of them. */
  lemma {:induction false} ReplayIsWindow(h: seq<Task>, added: seq<Task>)
    requires |h| <= HISTORY_SIZE
    ensures Replay(h, added) == Window(h + added)
  {
    if added == [] {
      assert h + added == h;
    } else {
      var init, last := added[..|added| - 1], added[|added| - 1];
      ReplayIsWindow(h, init);
      WindowAppend(h + init, last);
      assert h + init + [last] == h + added;
    }
  }

  /** Windowing a prefix first does not change the window of the whole. */
  lemma {:induction false} WindowOfWindow(a: seq<Task>, b: seq<Task>)
    ensures Window(Window(a) + b) == Window(a + b)
    decreases |b|
  {
    if b != [] {
      var last := b[|b| - 1];
      var init := b[..|b| - 1];
      assert b == init + [last];
      WindowOfWindow(a, init);
      WindowAppend(Window(a) + init, last);
      WindowAppend(a + init, last);
      assert Window(a) + b == Window(a) + init + [last];
      assert a + b == a + init + [last];
    }
  }

  /** `history.contains(t)`: some entry equals `t`. */
  predicate Contains(h: seq<Task>, t: Task)
  {
    exists i :: 0 <= i < |h| && Equals(h[i], t)
  }

  /** The entries of `h` that are not equal to `t`, in their order. */
  function Without(h: seq<Task>, t: Task): (r: seq<Task>)
  {
    if h == [] then []
    else if Equals(h[0], t) then Without(h[1..], t)
    else [h[0]] + Without(h[1..], t)
  }

  /** Filtering leaves no entry equal to `t`. */
  lemma {:induction false} WithoutNoneEqual(h: seq<Task>, t: Task)
    ensures !Contains(Without(h, t), t)
  {
    if h != [] {
      WithoutNoneEqual(h[1..], t);
      var rest := Without(h[1..], t);
      if !Equals(h[0], t) {
        forall i | 0 <= i < |rest| + 1 ensures !Equals(([h[0]] + rest)[i], t) {
          if i > 0 {
            assert ([h[0]] + rest)[i] == rest[i - 1];
          }
        }
      }
    }
  }

  /** Filtering keeps exactly the entries not equal to `t`. */
  lemma {:induction false} WithoutMembers(h: seq<Task>, t: Task)
    ensures forall x :: x in Without(h, t) <==> x in h && !Equals(x, t)
  {
    if h != [] {
      WithoutMembers(h[1..], t);
      assert h == [h[0]] + h[1..];
    }
  }

  /** Filtering never lengthens, and keeps a list with no equal entry whole. */
  lemma {:induction false} WithoutShrinks(h: seq<Task>, t: Task)
    ensures |Without(h, t)| <= |h|
    ensures !Contains(h, t) ==> Without(h, t) == h
  {
    if h != [] {
      WithoutShrinks(h[1..], t);
      if !Contains(h, t) {
        assert !Contains(h[1..], t) by {
          forall i | 0 <= i < |h[1..]| ensures !Equals(h[1..][i], t) {
            assert h[1..][i] == h[i + 1];
          }
        }
        assert h == [h[0]] + h[1..];
      }
    }
  }

  /** Filtering distributes over concatenation, so the kept entries stay in order. */
  lemma {:induction false} WithoutConcat(a: seq<Task>, b: seq<Task>, t: Task)
    ensures Without(a + b, t) == Without(a, t) + Without(b, t)
  {
    if a != [] {
      WithoutConcat(a[1..], b, t);
      assert (a + b)[0] == a[0] && (a + b)[1..] == a[1..] + b;
    } else {
      assert a + b == b;
    }
  }

  /** Filtering twice is filtering once. */
  lemma WithoutIdempotent(h: seq<Task>, t: Task)
    ensures Without(Without(h, t), t) == Without(h, t)
  {
    WithoutNoneEqual(h, t);
    WithoutShrinks(Without(h, t), t);
  }

  /** The index of the first entry equal to `t`. */
  function FirstEqual(h: seq<Task>, t: Task): (i: nat)
    requires Contains(h, t)
    ensures i < |h| && Equals(h[i], t)
    ensures forall j :: 0 <= j < i ==> !Equals(h[j], t)
  {
    if Equals(h[0], t) then 0
    else
      assert Contains(h[1..], t) by {
        var i :| 0 <= i < |h| && Equals(h[i], t);
        assert h[1..][i - 1] == h[i];
      }
      1 + FirstEqual(h[1..], t)
  }

  /** Removing one entry equal to `t` does not change the filtered list. */
  lemma RemoveAtKeepsFilter(h: seq<Task>, t: Task, i: nat)
    requires i < |h| && Equals(h[i], t)
    ensures Without(h[..i] + h[i + 1..], t) == Without(h, t)
  {
    var p, x, q := h[..i], h[i], h[i + 1..];
    assert h == p + [x] + q;
    WithoutConcat(p + [x], q, t);
    WithoutConcat(p, [x], t);
    WithoutConcat(p, q, t);
    assert Without([x], t) == [] by {
      assert [x][1..] == [];
    }
  }

  class InMemoryHistoryManager {
    var history: seq<Task>

    predicate Valid()
      reads this
    {
      |history| <= HISTORY_SIZE
    }

    constructor ()
      ensures Valid() && history == []
    {
      history := [];
    }

    /** `add`: a full list drops its oldest entry first; then a copy of the record is
        appended. A null record throws from the copy constructor after the eviction. */
    method Add(task: Option<Task>) returns (failure: Option<Failure>)
      requires Valid()
      modifies this
      ensures Valid()
      ensures task.Some? ==> failure == None && history == Window(old(history) + [task.value])
      ensures task.None? ==> failure == Some(NullPointer)
      ensures task.None? ==>
        history == (if |old(history)| == HISTORY_SIZE then old(history)[1..] else old(history))
    {
      if |history| == HISTORY_SIZE {
        history := history[1..];
      }
      if task.None? {
        return Some(NullPointer);
      }
      history := history + [task.value];
      failure := None;
    }

    /** `getHistory`: a fresh list with the same entries, oldest first. */
    method GetHistory() returns (r: seq<Task>)
      ensures r == history
    {
      r := history;
    }

    /** `remove`: while some entry equals `task`, remove the first such entry.
        A null record or an empty list leaves the history as it is. */
    method Remove(task: Option<Task>)
      requires Valid()
      modifies this
      ensures Valid()
      ensures task.None? ==> history == old(history)
      ensures task.Some? ==> history == Without(old(history), task.value)
    {
      if task.None? || |history| == 0 {
        if task.Some? {
          assert Without([], task.value) == [];
        }
        return;
      }
      var t := task.value;
      while Contains(history, t)
        invariant |history| <= HISTORY_SIZE
        invariant Without(history, t) == Without(old(history), t)
        decreases |history|
      {
        var i := FirstEqual(history, t);
        RemoveAtKeepsFilter(history, t, i);
        history := history[..i] + history[i + 1..];
      }
      WithoutShrinks(history, t);
    }
  }
}
