/**
 * The view history of manager/InMemoryHistoryManager.java: a doubly linked
 * list of copies, oldest first, plus a map from id to the list node holding
 * that id, so that each id appears at most once.
 *
 * The pure functions say what the history is after each operation; the
 * class keeps the ghost sequences `Nodes` (the list's nodes from `first` to
 * `last`) and `Contents` (their data) and proves its pointer updates against
 * those functions. Records are values, so the copies the Java code makes on
 * the way in and out are the records themselves.
 */
module History {
  import opened Wrappers
  import opened Model

  // ---------------------------------------------------------------------
  // The history as a sequence

  /** The entries whose id is not in `gone`, in their order. */
  function Without(s: seq<Task>, gone: set<Option<int>>): (r: seq<Task>)
    ensures forall x :: x in r <==> x in s && x.id !in gone
    ensures |r| <= |s|
  {
    if s == [] then []
    else if s[0].id in gone then Without(s[1..], gone)
    else [s[0]] + Without(s[1..], gone)
  }

  /** The ids present in the history. */
  function Ids(s: seq<Task>): set<Option<int>>
  {
    set x | x in s :: x.id
  }

  /** No id occurs twice. */
  predicate UniqueIds(s: seq<Task>)
  {
    forall i, j :: 0 <= i < j < |s| ==> s[i].id != s[j].id
  }

  /** The history after `add(task)`: any entry with that id is dropped and the new data goes last. */
  function Added(s: seq<Task>, t: Task): seq<Task>
  {
    Without(s, {t.id}) + [t]
  }

  /** The history after `remove(id)`. */
  function Removed(s: seq<Task>, id: int): seq<Task>
  {
    Without(s, {Some(id)})
  }

  lemma IdsMember(s: seq<Task>, k: Option<int>)
    ensures k in Ids(s) <==> exists i :: 0 <= i < |s| && s[i].id == k
  {
    if k in Ids(s) {
      var x :| x in s && x.id == k;
      var i :| 0 <= i < |s| && s[i] == x;
    }
    if exists i :: 0 <= i < |s| && s[i].id == k {
      var i :| 0 <= i < |s| && s[i].id == k;
      assert s[i] in s;
    }
  }

  lemma UniqueIdsCons(s: seq<Task>)
    requires s != []
    ensures UniqueIds(s) <==> s[0].id !in Ids(s[1..]) && UniqueIds(s[1..])
  {
    IdsMember(s[1..], s[0].id);
    if UniqueIds(s) {
      forall i, j | 0 <= i < j < |s[1..]| ensures s[1..][i].id != s[1..][j].id {
        assert s[1..][i] == s[i + 1] && s[1..][j] == s[j + 1];
      }
    }
    if s[0].id !in Ids(s[1..]) && UniqueIds(s[1..]) {
      forall i, j | 0 <= i < j < |s| ensures s[i].id != s[j].id {
        assert s[j] == s[1..][j - 1];
        if i > 0 {
          assert s[i] == s[1..][i - 1];
        }
      }
    }
  }

  /** Dropping ids removes exactly those ids from the id set. */
  lemma WithoutIds(s: seq<Task>, gone: set<Option<int>>)
    ensures Ids(Without(s, gone)) == Ids(s) - gone
  {
    var r := Without(s, gone);
    forall k ensures k in Ids(r) <==> k in Ids(s) && k !in gone {
      if k in Ids(r) {
        var x :| x in r && x.id == k;
      }
      if k in Ids(s) && k !in gone {
        var x :| x in s && x.id == k;
        assert x in r;
      }
    }
  }

  /** Dropping ids keeps the others unique. */
  lemma {:induction false} WithoutUnique(s: seq<Task>, gone: set<Option<int>>)
    requires UniqueIds(s)
    ensures UniqueIds(Without(s, gone))
  {
    if s != [] {
      UniqueIdsCons(s);
      WithoutUnique(s[1..], gone);
      if s[0].id !in gone {
        WithoutIds(s[1..], gone);
        UniqueIdsCons(Without(s, gone));
      }
    }
  }

  /** Dropping ids that do not occur changes nothing. */
  lemma {:induction false} WithoutAbsent(s: seq<Task>, gone: set<Option<int>>)
    requires Ids(s) !! gone
    ensures Without(s, gone) == s
  {
    if s != [] {
      assert s[0] in s;
      assert Ids(s[1..]) <= Ids(s) by {
        forall k | k in Ids(s[1..]) ensures k in Ids(s) {
          var x :| x in s[1..] && x.id == k;
          assert x in s;
        }
      }
      WithoutAbsent(s[1..], gone);
      assert s == [s[0]] + s[1..];
    }
  }

  /** Two rounds of dropping are one. */
  lemma {:induction false} WithoutWithout(s: seq<Task>, a: set<Option<int>>, b: set<Option<int>>)
    ensures Without(Without(s, a), b) == Without(s, a + b)
  {
    if s != [] {
      WithoutWithout(s[1..], a, b);
      if s[0].id !in a {
        assert Without(s, a)[0] == s[0] && Without(s, a)[1..] == Without(s[1..], a);
      }
    }
  }

  /** The history ids of a set of store ids. */
  function SomeIds(ids: set<int>): (r: set<Option<int>>)
    ensures forall k :: k in ids ==> Some(k) in r
    ensures forall o :: o in r ==> o.Some? && o.value in ids
  {
    set k | k in ids :: Some(k)
  }

  /** In a history without repeated ids, dropping the id of entry `i` removes exactly that entry. */
  lemma {:induction false} WithoutAt(s: seq<Task>, i: nat)
    requires UniqueIds(s) && i < |s|
    ensures Without(s, {s[i].id}) == s[..i] + s[i + 1..]
  {
    UniqueIdsCons(s);
    if i == 0 {
      IdsMember(s[1..], s[0].id);
      WithoutAbsent(s[1..], {s[0].id});
      assert s[1..] == s[i + 1..];
    } else {
      assert s[1..][i - 1] == s[i];
      WithoutAt(s[1..], i - 1);
      assert s[0].id != s[i].id;
      assert s[..i] == [s[0]] + s[1..][..i - 1];
      assert s[i + 1..] == s[1..][i..];
    }
  }

  /** Adding puts the record last after the others, which keep their relative order. */
  lemma AddedShape(s: seq<Task>, t: Task)
    ensures Added(s, t)[|Added(s, t)| - 1] == t
    ensures Added(s, t)[..|Added(s, t)| - 1] == Without(s, {t.id})
  {
    var w := Without(s, {t.id});
    assert (w + [t])[..|w|] == w;
  }

  /** Adding keeps ids unique and adds the record's id to the id set. */
  lemma AddedIds(s: seq<Task>, t: Task)
    requires UniqueIds(s)
    ensures UniqueIds(Added(s, t))
    ensures Ids(Added(s, t)) == Ids(s) + {t.id}
  {
    var w := Without(s, {t.id});
    WithoutIds(s, {t.id});
    WithoutUnique(s, {t.id});
    var r := w + [t];
    assert Ids(r) == Ids(w) + {t.id} by {
      forall k ensures k in Ids(r) <==> k in Ids(w) || k == t.id {
        if k in Ids(r) {
          var x :| x in r && x.id == k;
        }
        if k in Ids(w) {
          var x :| x in w && x.id == k;
          assert x in r;
        }
        assert r[|w|] == t && t in r;
      }
    }
    forall i, j | 0 <= i < j < |r| ensures r[i].id != r[j].id {
      if j == |w| {
        assert r[i] == w[i] && w[i] in w;
      } else {
        assert r[i] == w[i] && r[j] == w[j];
      }
    }
  }

  /** A new id grows the history by one; a known id keeps its size. */
  lemma AddedSize(s: seq<Task>, t: Task)
    requires UniqueIds(s)
    ensures t.id !in Ids(s) ==> Added(s, t) == s + [t]
    ensures t.id in Ids(s) ==> |Added(s, t)| == |s|
  {
    if t.id in Ids(s) {
      IdsMember(s, t.id);
      var i :| 0 <= i < |s| && s[i].id == t.id;
      WithoutAt(s, i);
    } else {
      WithoutAbsent(s, {t.id});
    }
  }

  /** Removing a present id shrinks the history by one and keeps the others in order;
      removing an absent id changes nothing. */
  lemma RemovedSpec(s: seq<Task>, id: int)
    requires UniqueIds(s)
    ensures UniqueIds(Removed(s, id))
    ensures Ids(Removed(s, id)) == Ids(s) - {Some(id)}
    ensures Some(id) !in Ids(s) ==> Removed(s, id) == s
    ensures Some(id) in Ids(s) ==> |Removed(s, id)| == |s| - 1
  {
    WithoutIds(s, {Some(id)});
    WithoutUnique(s, {Some(id)});
    if Some(id) in Ids(s) {
      IdsMember(s, Some(id));
      var i :| 0 <= i < |s| && s[i].id == Some(id);
      WithoutAt(s, i);
    } else {
      WithoutAbsent(s, {Some(id)});
    }
  }

  /** Re-adding the id of entry `i` moves it to the end with the new data, and the other entries
      keep their order; removing that id takes out entry `i` alone. */
  lemma ReAddMovesToEnd(s: seq<Task>, i: nat, t: Task)
    requires UniqueIds(s) && i < |s| && s[i].id == t.id
    ensures Added(s, t) == s[..i] + s[i + 1..] + [t]
    ensures t.id.Some? ==> Removed(s, t.id.value) == s[..i] + s[i + 1..]
  {
    WithoutAt(s, i);
  }

  // ---------------------------------------------------------------------
  // The linked list

  class Node {
    var data: Task
    var next: Node?
    var previous: Node?

    constructor (data: Task)
      ensures this.data == data && next == null && previous == null
    {
      this.data := data;
      next := null;
      previous := null;
    }
  }

  /** The id map sends the id of every entry to that entry's node, and has no other keys. */
  predicate MapMatches(history: map<Option<int>, Node>, nodes: seq<Node>, contents: seq<Task>)
  {
    |nodes| == |contents| &&
    history.Keys == Ids(contents) &&
    forall i :: 0 <= i < |contents| ==> contents[i].id in history && history[contents[i].id] == nodes[i]
  }

  /** With distinct nodes, the map forces distinct ids. */
  lemma MapMatchesUnique(history: map<Option<int>, Node>, nodes: seq<Node>, contents: seq<Task>)
    requires MapMatches(history, nodes, contents)
    requires forall i, j :: 0 <= i < j < |nodes| ==> nodes[i] != nodes[j]
    ensures UniqueIds(contents)
  {
    forall i, j | 0 <= i < j < |contents| ensures contents[i].id != contents[j].id {
      assert history[contents[i].id] == nodes[i] && history[contents[j].id] == nodes[j];
    }
  }

  /** Appending a node under a fresh id keeps the map in step with the list. */
  lemma MapMatchesAppend(history: map<Option<int>, Node>, nodes: seq<Node>, contents: seq<Task>,
                         n: Node, t: Task)
    requires MapMatches(history, nodes, contents) && t.id !in history
    ensures MapMatches(history[t.id := n], nodes + [n], contents + [t])
  {
    var c := contents + [t];
    assert Ids(c) == Ids(contents) + {t.id} by {
      forall k ensures k in Ids(c) <==> k in Ids(contents) || k == t.id {
        if k in Ids(c) {
          var x :| x in c && x.id == k;
        }
        if k in Ids(contents) {
          var x :| x in contents && x.id == k;
          assert x in c;
        }
        assert c[|contents|] == t && t in c;
      }
    }
    forall i | 0 <= i < |c| ensures c[i].id in history[t.id := n] && history[t.id := n][c[i].id] == (nodes + [n])[i] {
      if i < |contents| {
        assert c[i] == contents[i];
      }
    }
  }

  /** Unlinking entry `i` and dropping its id keeps the map in step with the list. */
  lemma MapMatchesRemove(history: map<Option<int>, Node>, nodes: seq<Node>, contents: seq<Task>, i: nat)
    requires MapMatches(history, nodes, contents) && UniqueIds(contents) && i < |contents|
    ensures MapMatches(history - {contents[i].id}, nodes[..i] + nodes[i + 1..],
                       contents[..i] + contents[i + 1..])
  {
    var k := contents[i].id;
    WithoutAt(contents, i);
    WithoutIds(contents, {k});
    var c := contents[..i] + contents[i + 1..];
    var ns := nodes[..i] + nodes[i + 1..];
    forall j | 0 <= j < |c| ensures c[j].id in history - {k} && (history - {k})[c[j].id] == ns[j] {
      if j < i {
        assert c[j] == contents[j] && ns[j] == nodes[j];
      } else {
        assert c[j] == contents[j + 1] && ns[j] == nodes[j + 1];
      }
    }
  }

  /** A present id sits at one position; dropping it there is `Removed`, and keeps the map in step. */
  lemma MapMatchesLocate(history: map<Option<int>, Node>, nodes: seq<Node>, contents: seq<Task>, id: int)
    returns (i: nat)
    requires MapMatches(history, nodes, contents) && UniqueIds(contents) && Some(id) in history
    ensures i < |contents| && contents[i].id == Some(id) && history[Some(id)] == nodes[i]
    ensures Removed(contents, id) == contents[..i] + contents[i + 1..]
    ensures MapMatches(history - {Some(id)}, nodes[..i] + nodes[i + 1..], contents[..i] + contents[i + 1..])
  {
    IdsMember(contents, Some(id));
    i :| 0 <= i < |contents| && contents[i].id == Some(id);
    WithoutAt(contents, i);
    assert {contents[i].id} == {Some(id)};
    MapMatchesRemove(history, nodes, contents, i);
  }

  /** Cutting entry `i` out of a sequence shifts the later entries down by one. */
  lemma Splice<T>(s: seq<T>, i: nat) returns (r: seq<T>)
    requires i < |s|
    ensures r == s[..i] + s[i + 1..] && |r| == |s| - 1
    ensures forall j :: 0 <= j < i ==> r[j] == s[j]
    ensures forall j :: i <= j < |r| ==> r[j] == s[j + 1]
  {
    r := s[..i] + s[i + 1..];
  }

  /** Every node is in the footprint `r`. */
  predicate Within(ns: seq<Node>, r: set<object>)
  {
    forall i :: 0 <= i < |ns| ==> ns[i] in r
  }

  /** Node `i` holds entry `i`. */
  ghost predicate Holds(ns: seq<Node>, cs: seq<Task>)
    reads ns
  {
    |ns| == |cs| && forall i :: 0 <= i < |ns| ==> ns[i].data == cs[i]
  }

  /** Appending a node holding `t` extends what the nodes hold by `t`. */
  lemma HoldsAppend(ns: seq<Node>, cs: seq<Task>, n: Node, t: Task)
    requires Holds(ns, cs) && n.data == t
    ensures Holds(ns + [n], cs + [t])
  {
    forall i | 0 <= i < |ns| + 1 ensures (ns + [n])[i].data == (cs + [t])[i] {
      if i < |ns| {
        assert (ns + [n])[i] == ns[i] && (cs + [t])[i] == cs[i];
      }
    }
  }

  /** Cutting entry `i` out of both sides keeps the nodes holding the entries. */
  lemma HoldsSplice(ns: seq<Node>, cs: seq<Task>, i: nat)
    requires Holds(ns, cs) && i < |ns|
    ensures Holds(ns[..i] + ns[i + 1..], cs[..i] + cs[i + 1..])
  {
    var r := Splice(ns, i);
    var c := Splice(cs, i);
    forall j | 0 <= j < |r| ensures r[j].data == c[j] {
      if j < i {
        assert r[j] == ns[j] && c[j] == cs[j];
      } else {
        assert r[j] == ns[j + 1] && c[j] == cs[j + 1];
      }
    }
  }

  /** The sub-footprint of a cut sequence. */
  lemma WithinSplice(ns: seq<Node>, r: set<object>, i: nat)
    requires Within(ns, r) && i < |ns|
    ensures Within(ns[..i] + ns[i + 1..], r)
  {
    var c := Splice(ns, i);
    forall j | 0 <= j < |c| ensures c[j] in r {
      if j < i {
        assert c[j] == ns[j];
      } else {
        assert c[j] == ns[j + 1];
      }
    }
  }

  /** No node occurs twice. */
  predicate Distinct(ns: seq<Node>)
  {
    forall a, b :: 0 <= a < b < |ns| ==> ns[a] != ns[b]
  }

  /** Cutting a node out of a list of distinct nodes leaves them distinct. */
  lemma SpliceDistinct(ns: seq<Node>, i: nat)
    requires i < |ns| && Distinct(ns)
    ensures Distinct(ns[..i] + ns[i + 1..])
  {
    var r := Splice(ns, i);
    forall a, b | 0 <= a < b < |r| ensures r[a] != r[b] {
      var ka := if a < i then a else a + 1;
      var kb := if b < i then b else b + 1;
      assert r[a] == ns[ka] && r[b] == ns[kb];
    }
  }

  /** `first`..`last` is the chain `ns` through `next`, and back through `previous`. */
  ghost predicate Linked(ns: seq<Node>, first: Node?, last: Node?)
    reads ns
  {
    (if ns == [] then first == null && last == null else first == ns[0] && last == ns[|ns| - 1]) &&
    (forall i {:trigger ns[i].next} :: 0 <= i < |ns| ==>
       ns[i].next == (if i + 1 < |ns| then ns[i + 1] else null)) &&
    (forall i {:trigger ns[i].previous} :: 0 <= i < |ns| ==>
       ns[i].previous == (if i > 0 then ns[i - 1] else null))
  }

  /** The links of `ns` skip entry `i`: what unlinking entry `i` of a linked chain leaves. */
  ghost predicate Skips(ns: seq<Node>, i: nat, first: Node?, last: Node?)
    requires i < |ns|
    reads ns
  {
    first == (if i == 0 then (if 1 < |ns| then ns[1] else null) else ns[0]) &&
    last == (if i + 1 == |ns| then (if i > 0 then ns[i - 1] else null) else ns[|ns| - 1]) &&
    (forall j {:trigger ns[j].next} :: 0 <= j < |ns| && j != i ==>
       ns[j].next == if j + 1 == i then (if i + 1 < |ns| then ns[i + 1] else null)
                     else if j + 1 < |ns| then ns[j + 1] else null) &&
    (forall j {:trigger ns[j].previous} :: 0 <= j < |ns| && j != i ==>
       ns[j].previous == if j == i + 1 then (if i > 0 then ns[i - 1] else null)
                         else if j > 0 then ns[j - 1] else null)
  }

  /** Links that skip entry `i` make the chain without it. */
  lemma SkipsLinked(ns: seq<Node>, i: nat, first: Node?, last: Node?)
    requires i < |ns| && Skips(ns, i, first, last)
    ensures Linked(ns[..i] + ns[i + 1..], first, last)
  {
    var r := Splice(ns, i);
    forall j | 0 <= j < |r| ensures r[j].next == (if j + 1 < |r| then r[j + 1] else null) {
      if j < i {
        assert r[j] == ns[j];
      } else {
        assert r[j] == ns[j + 1];
      }
    }
    forall j | 0 <= j < |r| ensures r[j].previous == (if j > 0 then r[j - 1] else null) {
      if j < i {
        assert r[j] == ns[j];
      } else {
        assert r[j] == ns[j + 1];
      }
    }
  }

  /** The links of `ns` continue into `n`, which ends the chain: what `linkLast` leaves. */
  ghost predicate Appends(ns: seq<Node>, n: Node, first: Node?, last: Node?)
    reads ns, n
  {
    first == (if ns == [] then n else ns[0]) && last == n && n.next == null &&
    n.previous == (if ns == [] then null else ns[|ns| - 1]) &&
    (forall j {:trigger ns[j].next} :: 0 <= j < |ns| ==>
       ns[j].next == if j + 1 < |ns| then ns[j + 1] else n) &&
    (forall j {:trigger ns[j].previous} :: 0 <= j < |ns| ==>
       ns[j].previous == if j > 0 then ns[j - 1] else null)
  }

  /** A chain extended by a new node is the chain `ns + [n]`. */
  lemma AppendsLinked(ns: seq<Node>, n: Node, first: Node?, last: Node?)
    requires Appends(ns, n, first, last)
    ensures Linked(ns + [n], first, last)
  {
    var r := ns + [n];
    forall j | 0 <= j < |r| ensures r[j].next == (if j + 1 < |r| then r[j + 1] else null) {
      if j < |ns| {
        assert r[j] == ns[j];
      }
    }
    forall j | 0 <= j < |r| ensures r[j].previous == (if j > 0 then r[j - 1] else null) {
      if j < |ns| {
        assert r[j] == ns[j];
      }
    }
  }

  /** A footprint that grows by one new object grows by fresh objects only. */
  twostate lemma FreshExtension(r0: set<object>, new r1: set<object>, new n: object)
    requires r1 == r0 + {n} && fresh(n)
    ensures fresh(r1 - r0)
  {
  }

  class HistoryManager {
    var history: map<Option<int>, Node>
    var first: Node?
    var last: Node?
    ghost var Nodes: seq<Node>
    ghost var Contents: seq<Task>
    ghost var Repr: set<object>

    /** `first`..`last` is the chain `Nodes` of distinct nodes, each holding its entry. */
    ghost predicate ListValid()
      reads this`Repr, this`Nodes, this`Contents, this`first, this`last, Repr - {this}
    {
      this in Repr && Within(Nodes, Repr) && Holds(Nodes, Contents) &&
      Distinct(Nodes) && Linked(Nodes, first, last)
    }

    /** The list is well formed and the map is in step with it. */
    ghost predicate Valid()
      reads this, Repr
    {
      ListValid() && MapMatches(history, Nodes, Contents)
    }

    /** No id occurs twice; the ends are null exactly when the map is empty. */
    lemma ValidFacts()
      requires Valid()
      ensures UniqueIds(Contents)
      ensures (first == null) == (last == null) == (history == map[]) == (Contents == [])
    {
      MapMatchesUnique(history, Nodes, Contents);
      if Contents != [] {
        assert Contents[0].id in history;
      } else {
        assert history.Keys == {};
      }
    }

    constructor ()
      ensures Valid() && fresh(Repr) && Contents == []
    {
      history := map[];
      first := null;
      last := null;
      Nodes := [];
      Contents := [];
      Repr := {this};
    }

    /** The pointer surgery of `linkLast`: node `n` is hung after the last one. */
    method Attach(n: Node)
      requires ListValid() && n !in Repr && n.next == null && n.previous == null
      modifies this, Repr, n
      ensures Nodes == old(Nodes) && Contents == old(Contents) && Repr == old(Repr)
      ensures history == old(history) && n.data == old(n.data)
      ensures Holds(Nodes, Contents) && Appends(Nodes, n, first, last)
    {
      if first == null {
        first := n;
      } else {
        last.next := n;
        n.previous := last;
      }
      last := n;
    }

    /** `linkLast`: append node `n`, which is not yet in the list. */
    method LinkLast(n: Node)
      requires ListValid() && n !in Repr && n.next == null && n.previous == null
      modifies this, Repr, n
      ensures ListValid() && Repr == old(Repr) + {n}
      ensures Nodes == old(Nodes) + [n] && Contents == old(Contents) + [old(n.data)]
      ensures history == old(history)
    {
      ghost var nodes, contents := Nodes, Contents;
      Attach(n);
      AppendsLinked(nodes, n, first, last);
      HoldsAppend(nodes, contents, n, n.data);
      assert Within(nodes + [n], Repr + {n});
      Nodes := nodes + [n];
      Contents := contents + [n.data];
      Repr := Repr + {n};
    }

    /** The pointer surgery of `removeNode`: the neighbours of entry `i` are joined, so the links
        skip it. */
    method Unlink(node: Node, ghost i: nat)
      requires ListValid() && i < |Nodes| && Nodes[i] == node
      modifies this, Repr
      ensures Nodes == old(Nodes) && Contents == old(Contents) && Repr == old(Repr)
      ensures history == old(history)
      ensures Holds(Nodes, Contents) && Skips(Nodes, i, first, last)
    {
      assert node == first <==> i == 0;
      assert node == last <==> i == |Nodes| - 1;
      if node == first {
        first := first.next;
      } else {
        assert node.previous == Nodes[i - 1] && Nodes[i - 1] in Repr;
        node.previous.next := node.next;
      }
      if node == last {
        last := last.previous;
      } else {
        assert node.next == Nodes[i + 1] && Nodes[i + 1] in Repr;
        node.next.previous := node.previous;
      }
    }

    /** `removeNode`: unlink the node at position `i`. */
    method RemoveNode(node: Node, ghost i: nat)
      requires ListValid() && i < |Nodes| && Nodes[i] == node
      modifies this, Repr
      ensures ListValid() && Repr == old(Repr) && history == old(history)
      ensures Nodes == old(Nodes[..i] + Nodes[i + 1..])
      ensures Contents == old(Contents[..i] + Contents[i + 1..])
    {
      ghost var nodes, contents := Nodes, Contents;
      Unlink(node, i);
      SkipsLinked(nodes, i, first, last);
      SpliceDistinct(nodes, i);
      HoldsSplice(nodes, contents, i);
      WithinSplice(nodes, Repr, i);
      var ns := Splice(nodes, i);
      var cs := Splice(contents, i);
      Nodes := ns;
      Contents := cs;
    }

    /** `remove(id)`: unlink the entry with that id; a no-op on an empty history or an absent id. */
    method Remove(id: int)
      requires Valid()
      modifies Repr
      ensures Valid() && Repr == old(Repr)
      ensures Contents == Removed(old(Contents), id)
    {
      ValidFacts();
      if history == map[] || Some(id) !in history {
        WithoutAbsent(Contents, {Some(id)});
        return;
      }
      var node := history[Some(id)];
      ghost var nodes, contents := Nodes, Contents;
      ghost var i := MapMatchesLocate(history, nodes, contents, id);
      history := history - {Some(id)};
      RemoveNode(node, i);
      assert MapMatches(history, Nodes, Contents);
    }

    /** `add(task)`: a null task is ignored; otherwise any entry with the task's id is unlinked and
        a copy goes last. A missing id that is already present makes the unboxing in
        `remove(task.getId())` throw. The node for the copy is made before the old entry is
        unlinked rather than after, which nothing can observe. */
    method Add(task: Option<Task>) returns (failure: Option<Failure>)
      requires Valid()
      modifies Repr
      ensures Valid() && fresh(Repr - old(Repr))
      ensures failure.Some? <==> task.Some? && task.value.id == None && None in Ids(old(Contents))
      ensures failure.Some? ==> failure == Some(NullPointer)
      ensures Contents == if task.None? || failure.Some? then old(Contents)
                          else Added(old(Contents), task.value)
    {
      if task.None? {
        return None;
      }
      var n := new Node(task.value);
      failure := Evict(task.value);
      if failure.None? {
        Put(n);
        FreshExtension(old(Repr), Repr, n);
      }
    }

    /** The `remove(task.getId())` step of `add`: the entry with the task's id, if any, is
        unlinked; a missing id that is present throws. */
    method Evict(t: Task) returns (failure: Option<Failure>)
      requires Valid()
      modifies Repr
      ensures Valid() && Repr == old(Repr)
      ensures failure.Some? <==> t.id == None && None in Ids(old(Contents))
      ensures failure.Some? ==> failure == Some(NullPointer) && Contents == old(Contents)
      ensures failure.None? ==> t.id !in history && Contents == Without(old(Contents), {t.id})
    {
      ValidFacts();
      if t.id in history {
        if t.id.None? {
          return Some(NullPointer);
        }
        Remove(t.id.value);
      } else {
        WithoutAbsent(Contents, {t.id});
      }
      ValidFacts();
      WithoutIds(old(Contents), {t.id});
      failure := None;
    }

    /** `history.put(id, linkLast(copy))` for an id that is not present. */
    method Put(n: Node)
      requires Valid() && n.data.id !in history && n !in Repr && n.next == null && n.previous == null
      modifies Repr, n
      ensures Valid() && Repr == old(Repr) + {n}
      ensures Contents == old(Contents) + [old(n.data)]
    {
      ghost var nodes, contents := Nodes, Contents;
      LinkLast(n);
      MapMatchesAppend(history, nodes, contents, n, n.data);
      history := history[n.data.id := n];
    }

    /** `getHistory`: the entries from oldest to newest. */
    method GetHistory() returns (r: seq<Task>)
      requires Valid()
      ensures r == Contents
    {
      r := [];
      var current := first;
      ghost var i := 0;
      while current != null
        invariant 0 <= i <= |Nodes|
        invariant current == if i < |Nodes| then Nodes[i] else null
        invariant r == Contents[..i]
        decreases |Nodes| - i
      {
        r := r + [current.data];
        current := current.next;
        i := i + 1;
      }
      assert Contents[..i] == Contents;
    }
  }
}
