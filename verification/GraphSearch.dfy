/**
 Breadth-first search, depth-first search and shortest paths of
 language/python/standard-library/data_structures/graph_search.py.
*/
module GraphSearch {
  import opened Digraph
  import opened Sequences
  import opened Wrappers

  ghost predicate IsRoute<T>(g: Graph<T>, p: seq<T>, start: T, end: T) {
    p != [] && p[0] == start && p[|p| - 1] == end && IsPath(g, p)
  }

  ghost predicate Reachable<T(!new)>(g: Graph<T>, start: T, v: T) {
    exists p: seq<T> :: IsRoute(g, p, start, v)
  }

  ghost predicate IsShortest<T(!new)>(g: Graph<T>, p: seq<T>, start: T, end: T) {
    IsRoute(g, p, start, end) && forall q: seq<T> :: IsRoute(g, q, start, end) ==> |p| <= |q|
  }

  lemma {:induction false} PathExtends<T>(g: Graph<T>, p: seq<T>, v: T)
    requires IsPath(g, p) && p != [] && Edge(g, p[|p| - 1], v)
    ensures IsPath(g, p + [v])
  {
    var longer := p + [v];
    if |p| >= 2 {
      assert longer[1..] == p[1..] + [v];
      PathExtends(g, p[1..], v);
    } else {
      assert longer[1..] == [v];
    }
  }

  ghost predicate Closed<T(!new)>(g: Graph<T>, s: set<T>) {
    forall u, v {:trigger Edge(g, u, v)} :: u in s && Edge(g, u, v) ==> v in s
  }

  /** The nodes that a search from start can meet are finitely many. */
  lemma {:induction false} Universe<T(!new)>(g: Graph<T>, start: T) returns (all: set<T>)
    ensures start in all && Closed(g, all)
  {
    all := {start} + set k, v | k in g.lists && v in g.lists[k] :: v;
  }

  lemma {:induction false} ClosedHolds<T(!new)>(g: Graph<T>, s: set<T>, p: seq<T>)
    requires Closed(g, s) && p != [] && p[0] in s && IsPath(g, p)
    ensures p[|p| - 1] in s
  {
    if |p| >= 2 {
      assert Edge(g, p[0], p[1]);
      ClosedHolds(g, s, p[1..]);
    }
  }

  /** What a search that has visited s can report about reachability. */
  ghost predicate Reached<T(!new)>(g: Graph<T>, start: T, s: set<T>) {
    start in s && forall v {:trigger Reachable(g, start, v)} :: v in s ==> Reachable(g, start, v)
  }

  lemma {:induction false} ReachedByEdge<T(!new)>(g: Graph<T>, start: T, u: T, v: T)
    requires Reachable(g, start, u) && Edge(g, u, v)
    ensures Reachable(g, start, v)
  {
    var p: seq<T> :| IsRoute(g, p, start, u);
    PathExtends(g, p, v);
    assert IsRoute(g, p + [v], start, v);
  }

  lemma {:induction false} ReachedStart<T(!new)>(g: Graph<T>, start: T)
    ensures Reached(g, start, {start})
  {
    assert IsRoute(g, [start], start, start);
  }

  lemma {:induction false} ReachedAll<T(!new)>(g: Graph<T>, start: T, s: set<T>)
    requires Reached(g, start, s) && Closed(g, s)
    ensures forall v {:trigger Reachable(g, start, v)} :: v in s <==> Reachable(g, start, v)
  {
    forall v | Reachable(g, start, v) ensures v in s {
      var p: seq<T> :| IsRoute(g, p, start, v);
      ClosedHolds(g, s, p);
    }
  }

  // ----- shortest_path -----

  datatype Entry<T> = Entry(node: T, path: seq<T>)

  /** The entries that one node's unvisited neighbours add to the queue. */
  function Entries<T>(path: seq<T>, added: seq<T>): (es: seq<Entry<T>>)
    ensures |es| == |added| && forall i :: 0 <= i < |es| ==> es[i] == Entry(added[i], path + [added[i]])
  {
    seq(|added|, i requires 0 <= i < |added| => Entry(added[i], path + [added[i]]))
  }

  /** len tells of each visited node how many nodes its path has; fin are those whose lists were read. */
  datatype Search<T> = Search(len: map<T, nat>, fin: set<T>, queue: seq<Entry<T>>)

  ghost predicate EntryOk<T>(g: Graph<T>, start: T, s: Search<T>, i: nat)
    requires i < |s.queue|
  {
    var e := s.queue[i];
    && IsRoute(g, e.path, start, e.node)
    && e.node in s.len && s.len[e.node] == |e.path|
    && e.node !in s.fin
  }

  ghost predicate Queued<T>(s: Search<T>, v: T) {
    exists i :: 0 <= i < |s.queue| && s.queue[i].node == v
  }

  /** Once finished, a node's neighbours are at most one step further than itself. */
  ghost predicate Done<T(!new)>(g: Graph<T>, len: map<T, nat>, u: T)
    requires u in len
  {
    forall v {:trigger Edge(g, u, v)} :: Edge(g, u, v) ==> v in len && len[v] <= len[u] + 1
  }

  ghost predicate Layered<T>(queue: seq<Entry<T>>) {
    && (forall i, j :: 0 <= i < j < |queue| ==> queue[i].node != queue[j].node && |queue[i].path| <= |queue[j].path|)
    && (forall i :: 0 <= i < |queue| ==> |queue[i].path| <= |queue[0].path| + 1)
  }

  /** Nothing visited is more than one step further than the first in the queue. */
  ghost predicate Near<T(!new)>(s: Search<T>) {
    s.queue != [] ==> forall v :: v in s.len ==> s.len[v] <= |s.queue[0].path| + 1
  }

  ghost predicate Sound<T(!new)>(g: Graph<T>, all: set<T>, start: T, s: Search<T>) {
    && Closed(g, all)
    && start in s.len && s.len[start] == 1
    && s.fin <= s.len.Keys <= all
    && (forall i {:trigger EntryOk(g, start, s, i)} :: 0 <= i < |s.queue| ==> EntryOk(g, start, s, i))
    && Layered(s.queue) && Near(s)
    && (forall v {:trigger Queued(s, v)} :: v in s.len && v !in s.fin ==> Queued(s, v))
    && (forall u {:trigger Done(g, s.len, u)} :: u in s.fin ==> Done(g, s.len, u))
  }

  /** While what is unfinished is at least d nodes from the start, an unvisited end is further. */
  lemma {:induction false} Far<T(!new)>(g: Graph<T>, len: map<T, nat>, fin: set<T>, q: seq<T>, k: nat, d: nat)
    requires fin <= len.Keys && q != [] && IsPath(g, q) && q[|q| - 1] !in len
    requires forall u {:trigger Done(g, len, u)} :: u in fin ==> Done(g, len, u)
    requires forall v :: v in len && v !in fin ==> len[v] >= d
    requires q[0] in len && len[q[0]] <= k
    ensures k + |q| >= d + 2
  {
    assert |q| >= 2;
    if q[0] in fin {
      assert Done(g, len, q[0]) && Edge(g, q[0], q[1]);
      Far(g, len, fin, q[1..], k + 1, d);
    }
  }

  lemma {:induction false} UnfinishedIsFar<T(!new)>(g: Graph<T>, all: set<T>, start: T, s: Search<T>)
    requires Sound(g, all, start, s) && s.queue != []
    ensures forall v :: v in s.len && v !in s.fin ==> s.len[v] >= |s.queue[0].path|
  {
    forall v | v in s.len && v !in s.fin ensures s.len[v] >= |s.queue[0].path| {
      assert Queued(s, v);
      var i :| 0 <= i < |s.queue| && s.queue[i].node == v;
      assert EntryOk(g, start, s, i);
    }
  }

  /** The end found among the first entry's neighbours: no route is shorter. */
  lemma {:induction false} FoundShortest<T(!new)>(g: Graph<T>, all: set<T>, start: T, end: T, s: Search<T>)
    requires Sound(g, all, start, s) && s.queue != [] && Edge(g, s.queue[0].node, end) && end !in s.len
    ensures IsShortest(g, s.queue[0].path + [end], start, end)
  {
    var p := s.queue[0].path;
    assert EntryOk(g, start, s, 0);
    PathExtends(g, p, end);
    forall q: seq<T> | IsRoute(g, q, start, end) ensures |p| + 1 <= |q| {
      UnfinishedIsFar(g, all, start, s);
      Far(g, s.len, s.fin, q, 1, |p|);
    }
  }

  lemma {:induction false} ExhaustedUnreachable<T(!new)>(g: Graph<T>, all: set<T>, start: T, end: T, s: Search<T>)
    requires Sound(g, all, start, s) && s.queue == [] && end !in s.len
    ensures !Reachable(g, start, end)
  {
    forall u, v | u in s.len && Edge(g, u, v) ensures v in s.len {
      assert u in s.fin || Queued(s, u);
      assert Done(g, s.len, u);
    }
    assert Closed(g, s.len.Keys);
    forall p: seq<T> | IsRoute(g, p, start, end) ensures false {
      ClosedHolds(g, s.len.Keys, p);
    }
  }

  ghost function Expanded<T>(s: Search<T>, added: seq<T>): Search<T>
    requires s.queue != []
  {
    var e := s.queue[0];
    Search(map v | v in s.len.Keys + (set a | a in added) :: if v in s.len then s.len[v] else |e.path| + 1,
           s.fin + {e.node},
           s.queue[1..] + Entries(e.path, added))
  }

  /** What the inner loop adds: the unvisited neighbours of the first entry, each once. */
  ghost predicate AddedBy<T(!new)>(g: Graph<T>, s: Search<T>, added: seq<T>)
    requires s.queue != []
  {
    Distinct(added) && forall v :: v in added <==> Edge(g, s.queue[0].node, v) && v !in s.len
  }

  lemma {:induction false} ExpandedEntries<T(!new)>(g: Graph<T>, all: set<T>, start: T, s: Search<T>, added: seq<T>,
                                                    i: nat)
    requires Sound(g, all, start, s) && s.queue != [] && AddedBy(g, s, added) && i < |Expanded(s, added).queue|
    ensures EntryOk(g, start, Expanded(s, added), i)
  {
    var s' := Expanded(s, added);
    if i < |s.queue| - 1 {
      assert s'.queue[i] == s.queue[i + 1];
      assert EntryOk(g, start, s, i + 1);
    } else {
      assert EntryOk(g, start, s, 0);
      var v := added[i - (|s.queue| - 1)];
      assert v in added && Edge(g, s.queue[0].node, v);
      PathExtends(g, s.queue[0].path, v);
    }
  }

  lemma {:induction false} ExpandedLayers<T(!new)>(g: Graph<T>, all: set<T>, start: T, s: Search<T>, added: seq<T>)
    requires Sound(g, all, start, s) && s.queue != [] && AddedBy(g, s, added)
    ensures Layered(Expanded(s, added).queue)
  {
    var q, q' := s.queue, Expanded(s, added).queue;
    var n := |q| - 1;
    forall i, j | 0 <= i < j < |q'| ensures q'[i].node != q'[j].node && |q'[i].path| <= |q'[j].path| {
      if j < n {
        assert q'[i] == q[i + 1] && q'[j] == q[j + 1];
      } else if i < n {
        assert q'[i] == q[i + 1] && EntryOk(g, start, s, i + 1);
        assert q'[j].node in added;
      }
    }
    forall i | 0 <= i < |q'| ensures |q[0].path| <= |q'[i].path| <= |q[0].path| + 1 {
      if i < n { assert q'[i] == q[i + 1]; }
    }
  }

  lemma {:induction false} ExpandedNear<T(!new)>(g: Graph<T>, all: set<T>, start: T, s: Search<T>, added: seq<T>)
    requires Sound(g, all, start, s) && s.queue != [] && AddedBy(g, s, added)
    ensures Near(Expanded(s, added))
  {
    var q' := Expanded(s, added).queue;
    if q' != [] && |s.queue| > 1 {
      assert q'[0] == s.queue[1];
    }
  }

  lemma {:induction false} ExpandedSound<T(!new)>(g: Graph<T>, all: set<T>, start: T, s: Search<T>, added: seq<T>)
    requires Sound(g, all, start, s) && s.queue != [] && AddedBy(g, s, added)
    ensures Sound(g, all, start, Expanded(s, added))
  {
    var e, s' := s.queue[0], Expanded(s, added);
    assert EntryOk(g, start, s, 0);
    forall i | 0 <= i < |s'.queue| ensures EntryOk(g, start, s', i) {
      ExpandedEntries(g, all, start, s, added, i);
    }
    ExpandedLayers(g, all, start, s, added);
    ExpandedNear(g, all, start, s, added);
    forall v | v in s'.len && v !in s'.fin ensures Queued(s', v) {
      ExpandedQueued(s, added, v);
    }
    forall u | u in s'.fin ensures Done(g, s'.len, u) {
      if u != e.node { assert Done(g, s.len, u); }
    }
    forall v | v in added ensures v in all {
      assert Edge(g, e.node, v);
    }
  }

  lemma {:induction false} ExpandedQueued<T(!new)>(s: Search<T>, added: seq<T>, v: T)
    requires s.queue != [] && v in Expanded(s, added).len && v !in Expanded(s, added).fin
    requires v in s.len && v !in s.fin ==> Queued(s, v)
    ensures Queued(Expanded(s, added), v)
  {
    var s' := Expanded(s, added);
    if v in s.len {
      var i :| 0 <= i < |s.queue| && s.queue[i].node == v;
      assert s'.queue[i - 1] == s.queue[i];
    } else {
      var i :| 0 <= i < |added| && added[i] == v;
      assert s'.queue[|s.queue| - 1 + i].node == v;
    }
  }

  /** The neighbours of a node in turn: the end is found, or each new one is visited and queued. */
  method Expand<T(==, !new)>(nbrs: seq<T>, path: seq<T>, end: T, visited: set<T>, queue: seq<Entry<T>>)
      returns (found: Option<seq<T>>, visited': set<T>, queue': seq<Entry<T>>, ghost added: seq<T>)
    ensures found.Some? ==> end in nbrs && found.value == path + [end]
    ensures found.None? ==> end !in added && queue' == queue + Entries(path, added)
    ensures found.None? ==> Distinct(added) && forall v :: v in added <==> v in nbrs && v !in visited
    ensures found.None? ==> visited' == visited + set v | v in added
  {
    visited', queue', added := visited, queue, [];
    for j := 0 to |nbrs|
      invariant end !in added && queue' == queue + Entries(path, added)
      invariant Distinct(added) && forall v :: v in added <==> v in nbrs[..j] && v !in visited
      invariant visited' == visited + set v | v in added
    {
      var neighbor := nbrs[j];
      if neighbor in visited' {
        continue;
      }
      var newPath := path + [neighbor];
      if neighbor == end {
        return Some(newPath), visited', queue', added;
      }
      visited' := visited' + {neighbor};
      queue' := queue' + [Entry(neighbor, newPath)];
      added := added + [neighbor];
    }
    assert nbrs[..|nbrs|] == nbrs;
    return None, visited', queue', added;
  }

  /** One turn of the search: the first entry leaves the queue. */
  method Visit<T(==, !new)>(g: Graph<T>, ghost all: set<T>, ghost start: T, end: T, visited: set<T>,
                            queue: seq<Entry<T>>, ghost s: Search<T>)
      returns (found: Option<seq<T>>, visited': set<T>, queue': seq<Entry<T>>, ghost s': Search<T>)
    requires Sound(g, all, start, s) && queue == s.queue && queue != [] && visited == s.len.Keys && end !in visited
    ensures queue[0].node in all - s.fin
    ensures found.Some? ==> IsShortest(g, found.value, start, end) && Reachable(g, start, end)
    ensures found.None? ==>
      Sound(g, all, start, s') && queue' == s'.queue && visited' == s'.len.Keys && end !in visited'
    ensures found.None? ==> s'.fin == s.fin + {queue[0].node}
  {
    var node, path := queue[0].node, queue[0].path;
    assert EntryOk(g, start, s, 0);
    ghost var added;
    found, visited', queue', added := Expand(Neighbors(g, node), path, end, visited, queue[1..]);
    s' := Expanded(s, added);
    if found.Some? {
      assert Edge(g, node, end);
      FoundShortest(g, all, start, end, s);
    } else {
      assert forall v :: v in added <==> Edge(g, node, v) && v !in s.len;
      ExpandedSound(g, all, start, s, added);
    }
  }

  method ShortestPath<T(==, !new)>(g: Graph<T>, start: T, end: T) returns (r: Option<seq<T>>)
    ensures r.Some? ==> IsShortest(g, r.value, start, end) && Reachable(g, start, end)
    ensures r.None? ==> !Reachable(g, start, end)
  {
    if start == end {
      assert IsRoute(g, [start], start, end);
      return Some([start]);
    }
    ghost var all := Universe(g, start);
    StartSound(g, all, start);
    var queue := [Entry(start, [start])];
    r := SearchFrom(g, start, end, {start}, queue, all, Search(map[start := 1], {}, queue));
  }

  method SearchFrom<T(==, !new)>(g: Graph<T>, ghost start: T, end: T, visited0: set<T>, queue0: seq<Entry<T>>,
                                 ghost all: set<T>, ghost s0: Search<T>)
      returns (r: Option<seq<T>>)
    requires Sound(g, all, start, s0) && queue0 == s0.queue && visited0 == s0.len.Keys && end !in visited0
    ensures r.Some? ==> IsShortest(g, r.value, start, end) && Reachable(g, start, end)
    ensures r.None? ==> !Reachable(g, start, end)
  {
    var visited, queue := visited0, queue0;
    ghost var s, left := s0, all - s0.fin;
    while queue != []
      invariant Sound(g, all, start, s) && queue == s.queue && visited == s.len.Keys && end !in visited
      invariant left == all - s.fin
      decreases |left|
    {
      left := left - {queue[0].node};
      r, visited, queue, s := Visit(g, all, start, end, visited, queue, s);
      if r.Some? {
        return;
      }
    }
    ExhaustedUnreachable(g, all, start, end, s);
    return None;
  }

  lemma {:induction false} StartSound<T(!new)>(g: Graph<T>, all: set<T>, start: T)
    requires Closed(g, all) && start in all
    ensures Sound(g, all, start, Search(map[start := 1], {}, [Entry(start, [start])]))
  {
    var s := Search(map[start := 1], {}, [Entry(start, [start])]);
    assert s.queue[0].node == start;
    assert EntryOk(g, start, s, 0);
    assert Queued(s, start);
  }

  // ----- the order in which nodes are listed -----

  /** x is the first of s that is neither visited nor in before. */
  ghost predicate FirstNew<T>(s: seq<T>, visited: set<T>, before: seq<T>, x: T) {
    && x !in visited && x !in before
    && exists n :: 0 <= n < |s| && s[n] == x && forall m :: 0 <= m < n ==> s[m] in visited || s[m] in before
  }

  ghost predicate Exhausted<T>(g: Graph<T>, u: T, visited: set<T>, before: seq<T>) {
    forall v :: v in Neighbors(g, u) ==> v in visited || v in before
  }

  /** Number i of out is the first new neighbour of number j; and no node listed after that one has a new neighbour
      when the search goes deep, and none listed before it when it does not. */
  ghost predicate From<T>(g: Graph<T>, visited: set<T>, out: seq<T>, i: nat, j: nat, deep: bool)
    requires i < |out|
  {
    && j < i && FirstNew(Neighbors(g, out[j]), visited, out[..i], out[i])
    && forall k :: 0 <= k < i && (if deep then k > j else k < j) ==> Exhausted(g, out[k], visited, out[..i])
  }

  ghost predicate HasParent<T>(g: Graph<T>, out: seq<T>, i: nat, deep: bool)
    requires i < |out|
  {
    exists j :: From(g, {}, out, i, j, deep)
  }

  ghost predicate InOrder<T>(g: Graph<T>, start: T, out: seq<T>, deep: bool) {
    && out != [] && out[0] == start
    && forall i {:trigger HasParent(g, out, i, deep)} :: 0 < i < |out| ==> HasParent(g, out, i, deep)
  }

  /** What comes next is the first new neighbour of the node listed last that has one. */
  ghost predicate DepthFirst<T>(g: Graph<T>, start: T, out: seq<T>) {
    InOrder(g, start, out, true)
  }

  /** What comes next is the first new neighbour of the node listed first that has one. */
  ghost predicate BreadthFirst<T>(g: Graph<T>, start: T, out: seq<T>) {
    InOrder(g, start, out, false)
  }

  lemma {:induction false} FirstNewUnique<T>(s: seq<T>, visited: set<T>, before: seq<T>, x: T, y: T)
    requires FirstNew(s, visited, before, x) && FirstNew(s, visited, before, y)
    ensures x == y
  {
    var n :| 0 <= n < |s| && s[n] == x && forall m :: 0 <= m < n ==> s[m] in visited || s[m] in before;
    var n' :| 0 <= n' < |s| && s[n'] == y && forall m :: 0 <= m < n' ==> s[m] in visited || s[m] in before;
  }

  /** Either rule leaves no choice. */
  lemma {:induction false} OrderUnique<T>(g: Graph<T>, start: T, a: seq<T>, b: seq<T>, deep: bool, n: nat)
    requires InOrder(g, start, a, deep) && InOrder(g, start, b, deep) && n <= |a| && n <= |b|
    ensures a[..n] == b[..n]
    decreases n
  {
    if n > 1 {
      var i := n - 1;
      OrderUnique(g, start, a, b, deep, i);
      assert a[i] == b[i] by {
        assert HasParent(g, a, i, deep) && HasParent(g, b, i, deep);
        SameParent(g, a, b, i, deep);
      }
      assert a[..n] == a[..i] + [a[i]] && b[..n] == b[..i] + [b[i]];
    }
  }

  lemma {:induction false} NotExhausted<T>(g: Graph<T>, u: T, before: seq<T>, x: T)
    requires FirstNew(Neighbors(g, u), {}, before, x)
    ensures !Exhausted(g, u, {}, before)
  {
    assert x in Neighbors(g, u);
  }

  lemma {:induction false} SameParent<T>(g: Graph<T>, a: seq<T>, b: seq<T>, i: nat, deep: bool)
    requires i < |a| && i < |b| && a[..i] == b[..i] && HasParent(g, a, i, deep) && HasParent(g, b, i, deep)
    ensures a[i] == b[i]
  {
    var j: nat :| From(g, {}, a, i, j, deep);
    var k: nat :| From(g, {}, b, i, k, deep);
    ParentOf(g, a, i, j, deep);
    ParentOf(g, b, i, k, deep);
    OneParent(g, a[..i], j, k, a[i], b[i], deep);
  }

  ghost predicate Parent<T>(g: Graph<T>, before: seq<T>, j: nat, x: T, deep: bool) {
    && j < |before| && FirstNew(Neighbors(g, before[j]), {}, before, x)
    && forall k :: 0 <= k < |before| && (if deep then k > j else k < j) ==> Exhausted(g, before[k], {}, before)
  }

  lemma {:induction false} ParentOf<T>(g: Graph<T>, a: seq<T>, i: nat, j: nat, deep: bool)
    requires i < |a| && From(g, {}, a, i, j, deep)
    ensures Parent(g, a[..i], j, a[i], deep)
  {
    assert a[..i][j] == a[j];
    forall k | 0 <= k < i && (if deep then k > j else k < j) ensures Exhausted(g, a[..i][k], {}, a[..i]) {
      assert a[..i][k] == a[k];
    }
  }

  lemma {:induction false} OneParent<T>(g: Graph<T>, before: seq<T>, j: nat, k: nat, x: T, y: T, deep: bool)
    requires Parent(g, before, j, x, deep) && Parent(g, before, k, y, deep)
    ensures x == y
  {
    NotExhausted(g, before[j], before, x);
    NotExhausted(g, before[k], before, y);
    FirstNewUnique(Neighbors(g, before[j]), {}, before, x, y);
  }

  lemma {:induction false} SameLength<T(!new)>(g: Graph<T>, start: T, a: seq<T>, b: seq<T>)
    requires Traversal(g, start, a) && Traversal(g, start, b)
    ensures |a| == |b|
  {
    forall v ensures v in a <==> v in b {
      assert v in a <==> Reachable(g, start, v);
    }
    SameSize(a, Members(a));
    SameSize(b, Members(a));
  }

  /** So there is one depth-first and one breadth-first list of the nodes reachable. */
  lemma {:induction false} OneOrder<T(!new)>(g: Graph<T>, start: T, a: seq<T>, b: seq<T>, deep: bool)
    requires InOrder(g, start, a, deep) && InOrder(g, start, b, deep)
    requires Traversal(g, start, a) && Traversal(g, start, b)
    ensures a == b
  {
    SameLength(g, start, a, b);
    OrderUnique(g, start, a, b, deep, |a|);
    assert a[..|a|] == a && b[..|b|] == b;
  }

  // ----- bfs -----

  /** Each reachable node once, and no other. */
  ghost predicate Traversal<T(!new)>(g: Graph<T>, start: T, s: seq<T>) {
    Distinct(s) && forall v {:trigger Reachable(g, start, v)} :: v in s <==> Reachable(g, start, v)
  }

  /** What is listed later is no closer to start. */
  ghost predicate NearestFirst<T(!new)>(g: Graph<T>, start: T, out: seq<T>) {
    forall i, j, q: seq<T> :: 0 <= i < j < |out| && IsRoute(g, q, start, out[j]) ==> RouteWithin(g, start, out[i], |q|)
  }

  ghost predicate RouteWithin<T(!new)>(g: Graph<T>, start: T, v: T, n: nat) {
    exists p: seq<T> :: IsRoute(g, p, start, v) && |p| <= n
  }

  ghost predicate Routed<T(!new)>(g: Graph<T>, start: T, len: map<T, nat>) {
    forall v {:trigger RouteWithin(g, start, v, len[v])} :: v in len ==> RouteWithin(g, start, v, len[v])
  }

  /** What is listed is sorted by distance, and no further than the first in the queue. */
  ghost predicate Sorted<T(!new)>(out: seq<T>, s: Search<T>) {
    && (forall v :: v in out <==> v in s.fin) && s.fin <= s.len.Keys
    && (forall i, j :: 0 <= i < j < |out| ==> s.len[out[i]] <= s.len[out[j]])
    && (s.queue != [] ==> forall i :: 0 <= i < |out| ==> s.len[out[i]] <= |s.queue[0].path|)
  }

  /** The queue of a traversal, as that of a search for paths. */
  ghost predicate Sweep<T(!new)>(g: Graph<T>, all: set<T>, start: T, out: seq<T>, queue: seq<T>, s: Search<T>) {
    && Sound(g, all, start, s) && Routed(g, start, s.len)
    && |queue| == |s.queue| && (forall i :: 0 <= i < |queue| ==> queue[i] == s.queue[i].node)
    && Distinct(out) && Sorted(out, s)
  }

  lemma {:induction false} RoutedNext<T(!new)>(g: Graph<T>, all: set<T>, start: T, s: Search<T>, added: seq<T>)
    requires Sound(g, all, start, s) && s.queue != [] && AddedBy(g, s, added) && Routed(g, start, s.len)
    ensures Routed(g, start, Expanded(s, added).len)
  {
    var s' := Expanded(s, added);
    ExpandedSound(g, all, start, s, added);
    forall v | v in s'.len ensures RouteWithin(g, start, v, s'.len[v]) {
      if v in s.len {
        assert RouteWithin(g, start, v, s.len[v]);
      } else {
        assert EntryOk(g, start, s, 0);
        ExpandedQueued(s, added, v);
        var i :| 0 <= i < |s'.queue| && s'.queue[i].node == v;
        assert EntryOk(g, start, s', i);
      }
    }
  }

  lemma {:induction false} SortedNext<T(!new)>(g: Graph<T>, all: set<T>, start: T, out: seq<T>, s: Search<T>,
                                               added: seq<T>)
    requires Sound(g, all, start, s) && s.queue != [] && Sorted(out, s)
    ensures Sorted(out + [s.queue[0].node], Expanded(s, added))
  {
    var e, s' := s.queue[0], Expanded(s, added);
    assert EntryOk(g, start, s, 0);
    if |s.queue| > 1 {
      assert s'.queue[0] == s.queue[1] && |e.path| <= |s.queue[1].path|;
    }
  }

  lemma {:induction false} SweepNext<T(!new)>(g: Graph<T>, all: set<T>, start: T, out: seq<T>, queue: seq<T>,
                                              s: Search<T>, added: seq<T>)
    requires Sweep(g, all, start, out, queue, s) && queue != [] && AddedBy(g, s, added)
    ensures Sweep(g, all, start, out + [queue[0]], queue[1..] + added, Expanded(s, added))
  {
    assert EntryOk(g, start, s, 0);
    ExpandedSound(g, all, start, s, added);
    RoutedNext(g, all, start, s, added);
    SortedNext(g, all, start, out, s, added);
  }

  /** When all lists have been read, no route undercuts a node's distance. */
  lemma {:induction false} NoneCloser<T(!new)>(g: Graph<T>, len: map<T, nat>, q: seq<T>)
    requires q != [] && IsPath(g, q) && q[0] in len
    requires forall u {:trigger Done(g, len, u)} :: u in len ==> Done(g, len, u)
    ensures q[|q| - 1] in len && len[q[|q| - 1]] < len[q[0]] + |q|
  {
    if |q| >= 2 {
      assert Done(g, len, q[0]) && Edge(g, q[0], q[1]);
      NoneCloser(g, len, q[1..]);
    }
  }

  lemma {:induction false} SweepDone<T(!new)>(g: Graph<T>, all: set<T>, start: T, out: seq<T>, queue: seq<T>,
                                              s: Search<T>)
    requires Sweep(g, all, start, out, queue, s) && queue == []
    ensures Traversal(g, start, out) && NearestFirst(g, start, out)
  {
    forall u | u in s.len ensures u in s.fin && Done(g, s.len, u) {
      assert u in s.fin || Queued(s, u);
    }
    forall v ensures v in out <==> Reachable(g, start, v) {
      if v in s.len { assert RouteWithin(g, start, v, s.len[v]); }
      if Reachable(g, start, v) {
        var q: seq<T> :| IsRoute(g, q, start, v);
        NoneCloser(g, s.len, q);
      }
    }
    forall i, j, q: seq<T> | 0 <= i < j < |out| && IsRoute(g, q, start, out[j])
      ensures RouteWithin(g, start, out[i], |q|)
    {
      NoneCloser(g, s.len, q);
      assert RouteWithin(g, start, out[i], s.len[out[i]]);
    }
  }

  /** added are the new ones of nbrs, each once, in the order in which they occur there first. */
  ghost predicate AddsInOrder<T>(nbrs: seq<T>, visited: set<T>, added: seq<T>) {
    && (forall v :: v in nbrs ==> v in visited || v in added)
    && forall t {:trigger added[t]} :: 0 <= t < |added| ==> FirstNew(nbrs, visited, added[..t], added[t])
  }

  /** The nodes listed and those in the queue are in the order of breadth-first search, and the former have
      nothing new left. */
  ghost predicate Ordered<T>(g: Graph<T>, start: T, out: seq<T>, queue: seq<T>, visited: set<T>) {
    && BreadthFirst(g, start, out + queue) && Members(out + queue) == visited
    && forall k :: 0 <= k < |out| ==> Exhausted(g, out[k], {}, out + queue)
  }

  lemma {:induction false} OldParent<T>(g: Graph<T>, all: seq<T>, added: seq<T>, i: nat)
    requires i < |all| && HasParent(g, all, i, false)
    ensures HasParent(g, all + added, i, false)
  {
    var j: nat :| From(g, {}, all, i, j, false);
    assert (all + added)[..i] == all[..i];
    assert From(g, {}, all + added, i, j, false);
  }

  lemma {:induction false} NewParent<T(!new)>(g: Graph<T>, all: seq<T>, added: seq<T>, n: nat, t: nat)
    requires n < |all| && t < |added| && FirstNew(Neighbors(g, all[n]), Members(all), added[..t], added[t])
    requires forall k :: 0 <= k < n ==> Exhausted(g, all[k], {}, all)
    ensures HasParent(g, all + added, |all| + t, false)
  {
    var more, i := all + added, |all| + t;
    assert more[..i] == all + added[..t];
    assert SameSeen(Members(all), added[..t], {}, more[..i]);
    FirstNewSame(Neighbors(g, all[n]), Members(all), added[..t], {}, more[..i], added[t]);
    assert From(g, {}, more, i, n, false);
  }

  lemma {:induction false} OrderedNext<T(!new)>(g: Graph<T>, start: T, out: seq<T>, queue: seq<T>, visited: set<T>,
                                                added: seq<T>)
    requires Ordered(g, start, out, queue, visited) && queue != []
    requires AddsInOrder(Neighbors(g, queue[0]), visited, added)
    ensures Ordered(g, start, out + [queue[0]], queue[1..] + added, visited + set v | v in added)
  {
    var all := out + queue;
    var more := out + [queue[0]] + (queue[1..] + added);
    assert more == all + added && all[|out|] == queue[0];
    AllHaveParents(g, start, all, added, |out|);
    MembersAdd(all, added);
    forall k | 0 <= k < |out| + 1 ensures Exhausted(g, (out + [queue[0]])[k], {}, more) {
      if k < |out| { assert Exhausted(g, out[k], {}, all); }
    }
  }

  lemma MembersAdd<T>(s: seq<T>, t: seq<T>)
    ensures Members(s + t) == Members(s) + set v | v in t
  {
  }

  lemma {:induction false} AllHaveParents<T(!new)>(g: Graph<T>, start: T, all: seq<T>, added: seq<T>, n: nat)
    requires BreadthFirst(g, start, all) && n < |all| && AddsInOrder(Neighbors(g, all[n]), Members(all), added)
    requires forall k :: 0 <= k < n ==> Exhausted(g, all[k], {}, all)
    ensures BreadthFirst(g, start, all + added)
  {
    var more := all + added;
    forall i | 0 < i < |more| ensures HasParent(g, more, i, false) {
      if i < |all| {
        assert HasParent(g, all, i, false);
        OldParent(g, all, added, i);
      } else {
        assert added[i - |all|] == added[i - |all|];
        NewParent(g, all, added, n, i - |all|);
      }
    }
  }

  /** Enqueues the neighbours that are new. */
  method EnqueueNew<T(==)>(nbrs: seq<T>, visited: set<T>, queue: seq<T>)
      returns (visited': set<T>, queue': seq<T>, ghost added: seq<T>)
    ensures queue' == queue + added && visited' == visited + set v | v in added
    ensures Distinct(added) && forall v :: v in added <==> v in nbrs && v !in visited
    ensures AddsInOrder(nbrs, visited, added)
  {
    visited', queue', added := visited, queue, [];
    for j := 0 to |nbrs|
      invariant queue' == queue + added && visited' == visited + set v | v in added
      invariant Distinct(added) && forall v :: v in added <==> v in nbrs[..j] && v !in visited
      invariant forall t {:trigger added[t]} :: 0 <= t < |added| ==> FirstNew(nbrs, visited, added[..t], added[t])
    {
      if nbrs[j] !in visited' {
        AddsOne(nbrs, visited, added, j);
        visited' := visited' + {nbrs[j]};
        queue' := queue' + [nbrs[j]];
        added := added + [nbrs[j]];
      }
    }
    assert nbrs[..|nbrs|] == nbrs;
  }

  lemma {:induction false} AddsOne<T>(nbrs: seq<T>, visited: set<T>, added: seq<T>, j: nat)
    requires j < |nbrs| && nbrs[j] !in visited && nbrs[j] !in added
    requires forall v :: v in added <==> v in nbrs[..j] && v !in visited
    requires forall t {:trigger added[t]} :: 0 <= t < |added| ==> FirstNew(nbrs, visited, added[..t], added[t])
    ensures var more := added + [nbrs[j]];
      forall t {:trigger more[t]} :: 0 <= t < |more| ==> FirstNew(nbrs, visited, more[..t], more[t])
  {
    var more := added + [nbrs[j]];
    forall t {:trigger more[t]} | 0 <= t < |more| ensures FirstNew(nbrs, visited, more[..t], more[t]) {
      if t < |added| {
        assert more[..t] == added[..t] && more[t] == added[t];
      } else {
        assert more[..t] == added;
        forall m | 0 <= m < j ensures nbrs[m] in visited || nbrs[m] in added { assert nbrs[m] in nbrs[..j]; }
      }
    }
  }

  lemma {:induction false} StartSweep<T(!new)>(g: Graph<T>, all: set<T>, start: T)
    requires Closed(g, all) && start in all
    ensures Sweep(g, all, start, [], [start], Search(map[start := 1], {}, [Entry(start, [start])]))
  {
    StartSound(g, all, start);
    assert IsRoute(g, [start], start, start);
    assert RouteWithin(g, start, start, 1);
  }

  /** One turn of the traversal: the first node leaves the queue and is listed. */
  method Yield<T(==, !new)>(g: Graph<T>, ghost all: set<T>, ghost start: T, out: seq<T>, visited: set<T>,
                            queue: seq<T>, ghost s: Search<T>)
      returns (visited': set<T>, queue': seq<T>, ghost s': Search<T>)
    requires Sweep(g, all, start, out, queue, s) && queue != [] && visited == s.len.Keys
    requires Ordered(g, start, out, queue, visited)
    ensures Sweep(g, all, start, out + [queue[0]], queue', s') && visited' == s'.len.Keys
    ensures Ordered(g, start, out + [queue[0]], queue', visited')
    ensures queue[0] in all - s.fin && s'.fin == s.fin + {queue[0]}
  {
    var node := queue[0];
    assert EntryOk(g, start, s, 0);
    ghost var added;
    visited', queue', added := EnqueueNew(Neighbors(g, node), visited, queue[1..]);
    assert forall v :: v in added <==> Edge(g, node, v) && v !in s.len;
    SweepNext(g, all, start, out, queue, s, added);
    OrderedNext(g, start, out, queue, visited, added);
    s' := Expanded(s, added);
  }

  method Bfs<T(==, !new)>(g: Graph<T>, start: T) returns (out: seq<T>)
    ensures Traversal(g, start, out) && NearestFirst(g, start, out) && BreadthFirst(g, start, out)
  {
    out := [];
    var visited, queue := {start}, [start];
    ghost var all := Universe(g, start);
    ghost var s, left := Search(map[start := 1], {}, [Entry(start, [start])]), all;
    StartSweep(g, all, start);
    while queue != []
      invariant Sweep(g, all, start, out, queue, s) && visited == s.len.Keys
      invariant Ordered(g, start, out, queue, visited) && left == all - s.fin
      decreases left
    {
      var node := queue[0];
      visited, queue, s := Yield(g, all, start, out, visited, queue, s);
      out, left := out + [node], left - {node};
    }
    assert out + queue == out;
    SweepDone(g, all, start, out, queue, s);
  }

  // ----- dfs -----

  /** Recursive depth-first search of the nodes vs in turn, leaving out what was visited; all bounds it. */
  ghost function Preorder<T>(g: Graph<T>, all: set<T>, vs: seq<T>, visited: set<T>): seq<T>
    decreases all - visited, |vs|
  {
    if vs == [] then []
    else if vs[0] in visited || vs[0] !in all then Preorder(g, all, vs[1..], visited)
    else
      var first := [vs[0]] + Preorder(g, all, Neighbors(g, vs[0]), visited + {vs[0]});
      first + Preorder(g, all, vs[1..], visited + Members(first))
  }

  /** A list in two parts is searched part by part. */
  lemma {:induction false} PreorderParts<T>(g: Graph<T>, all: set<T>, a: seq<T>, b: seq<T>, visited: set<T>)
    ensures Preorder(g, all, a + b, visited)
         == Preorder(g, all, a, visited) + Preorder(g, all, b, visited + Members(Preorder(g, all, a, visited)))
    decreases all - visited, |a|
  {
    if a == [] {
      assert a + b == b && visited + Members([]) == visited;
    } else {
      assert (a + b)[1..] == a[1..] + b;
      if a[0] in visited || a[0] !in all {
        PreorderParts(g, all, a[1..], b, visited);
      } else {
        var first := [a[0]] + Preorder(g, all, Neighbors(g, a[0]), visited + {a[0]});
        var later := Preorder(g, all, a[1..], visited + Members(first));
        PreorderParts(g, all, a[1..], b, visited + Members(first));
        assert visited + Members(first) + Members(later) == visited + Members(first + later);
      }
    }
  }

  /** What a recursive search finds: new nodes, each once, each reachable, and all that those lead to. */
  ghost predicate Finds<T(!new)>(g: Graph<T>, start: T, vs: seq<T>, visited: set<T>, found: seq<T>) {
    && Distinct(found)
    && (forall v {:trigger v in found} :: v in found ==> v !in visited && Reachable(g, start, v))
    && (forall v :: v in vs ==> v in visited || v in found)
    && (forall u, v {:trigger Edge(g, u, v)} :: u in found && Edge(g, u, v) ==> v in visited || v in found)
  }

  lemma {:induction false} FindsBoth<T(!new)>(g: Graph<T>, start: T, vs: seq<T>, visited: set<T>, inner: seq<T>,
                                              later: seq<T>)
    requires vs != [] && vs[0] !in visited && Reachable(g, start, vs[0])
    requires Finds(g, start, Neighbors(g, vs[0]), visited + {vs[0]}, inner)
    requires Finds(g, start, vs[1..], visited + Members([vs[0]] + inner), later)
    ensures Finds(g, start, vs, visited, [vs[0]] + inner + later)
  {
    var first := [vs[0]] + inner;
    var found := first + later;
    forall v | v in found ensures v !in visited && Reachable(g, start, v) {
      if v in later {
        assert v !in Members(first);
      }
    }
    forall i, j | 0 <= i < j < |found| ensures found[i] != found[j] {
      if i < |first| <= j {
        assert found[j] in later && found[i] in Members(first);
      } else if i == 0 {
        assert found[j] in inner;
      }
    }
    forall v | v in vs ensures v in visited || v in found {
      assert v == vs[0] || v in vs[1..];
    }
    forall u, v | u in found && Edge(g, u, v) ensures v in visited || v in found {
      assert u == vs[0] || u in inner || u in later;
      if u == vs[0] {
        assert v in Neighbors(g, vs[0]);
      }
    }
  }

  lemma {:induction false} PreorderFinds<T(!new)>(g: Graph<T>, all: set<T>, start: T, vs: seq<T>, visited: set<T>)
    requires Closed(g, all) && forall v :: v in vs ==> v in all && Reachable(g, start, v)
    ensures Finds(g, start, vs, visited, Preorder(g, all, vs, visited))
    decreases all - visited, |vs|
  {
    if vs != [] {
      if vs[0] in visited {
        PreorderFinds(g, all, start, vs[1..], visited);
      } else {
        forall v | v in Neighbors(g, vs[0]) ensures v in all && Reachable(g, start, v) {
          assert Edge(g, vs[0], v);
          ReachedByEdge(g, start, vs[0], v);
        }
        var inner := Preorder(g, all, Neighbors(g, vs[0]), visited + {vs[0]});
        PreorderFinds(g, all, start, Neighbors(g, vs[0]), visited + {vs[0]});
        PreorderFinds(g, all, start, vs[1..], visited + Members([vs[0]] + inner));
        FindsBoth(g, start, vs, visited, inner, Preorder(g, all, vs[1..], visited + Members([vs[0]] + inner)));
      }
    }
  }

  /** Recursive depth-first search from a node lists each reachable node once, and no other. */
  lemma {:induction false} PreorderTraverses<T(!new)>(g: Graph<T>, all: set<T>, start: T)
    requires Closed(g, all) && start in all
    ensures Traversal(g, start, Preorder(g, all, [start], {}))
  {
    var found := Preorder(g, all, [start], {});
    ReachedStart(g, start);
    PreorderFinds(g, all, start, [start], {});
    assert start in [start];
    ReachedAll(g, start, Members(found));
    forall v ensures v in found <==> v in Members(found) {
    }
  }

  /** found is listed depth first when nodes are taken from the list vs in turn: each is the first new one of vs,
      with no new one left below those found before it, or comes from the node found last that has a new one. */
  ghost predicate FoundDeep<T>(g: Graph<T>, vs: seq<T>, visited: set<T>, found: seq<T>, i: nat)
    requires i < |found|
  {
    || (exists j :: From(g, visited, found, i, j, true))
    || (FirstNew(vs, visited, found[..i], found[i]) && forall k :: 0 <= k < i ==>
          Exhausted(g, found[k], visited, found[..i]))
  }

  ghost predicate AllDeep<T>(g: Graph<T>, vs: seq<T>, visited: set<T>, found: seq<T>) {
    forall i: nat {:trigger FoundDeep(g, vs, visited, found, i)} :: i < |found| ==>
      FoundDeep(g, vs, visited, found, i)
  }

  /** The same nodes are new. */
  ghost predicate SameSeen<T(!new)>(visited: set<T>, before: seq<T>, visited': set<T>, before': seq<T>) {
    forall v :: v in visited || v in before <==> v in visited' || v in before'
  }

  lemma FirstNewSame<T(!new)>(s: seq<T>, visited: set<T>, before: seq<T>, visited': set<T>, before': seq<T>, x: T)
    requires FirstNew(s, visited, before, x) && SameSeen(visited, before, visited', before')
    ensures FirstNew(s, visited', before', x)
  {
  }

  lemma {:induction false} FirstNewLater<T>(s: seq<T>, visited: set<T>, before: seq<T>, x: T)
    requires s != [] && FirstNew(s[1..], visited, before, x) && (s[0] in visited || s[0] in before)
    ensures FirstNew(s, visited, before, x)
  {
    var t := s[1..];
    var n :| 0 <= n < |t| && t[n] == x && forall m :: 0 <= m < n ==> t[m] in visited || t[m] in before;
    assert s[n + 1] == x;
    forall m | 0 <= m < n + 1 ensures s[m] in visited || s[m] in before {
      if m > 0 { assert s[m] == t[m - 1]; }
    }
  }

  /** Where s stands in found, with the same nodes new there as in s. */
  ghost predicate StandsAt<T(!new)>(visited': set<T>, s: seq<T>, visited: set<T>, found: seq<T>, off: nat, i: nat)
    requires i < |s|
  {
    && off + |s| <= |found| && (forall k :: 0 <= k < |s| ==> found[off + k] == s[k])
    && SameSeen(visited', s[..i], visited, found[..off + i])
  }

  lemma {:induction false} ExhaustedThere<T(!new)>(g: Graph<T>, visited': set<T>, s: seq<T>, visited: set<T>,
                                                   found: seq<T>, off: nat, i: nat, from: nat)
    requires i < |s| && StandsAt(visited', s, visited, found, off, i)
    requires forall k :: from <= k < i ==> Exhausted(g, s[k], visited', s[..i])
    ensures forall k :: off + from <= k < off + i ==> Exhausted(g, found[k], visited, found[..off + i])
  {
    forall k | off + from <= k < off + i ensures Exhausted(g, found[k], visited, found[..off + i]) {
      assert found[off + (k - off)] == s[k - off] && Exhausted(g, s[k - off], visited', s[..i]);
    }
  }

  lemma {:induction false} FromThere<T(!new)>(g: Graph<T>, visited': set<T>, s: seq<T>, visited: set<T>, found: seq<T>,
                                              off: nat, i: nat, j: nat)
    requires i < |s| && StandsAt(visited', s, visited, found, off, i) && From(g, visited', s, i, j, true)
    ensures From(g, visited, found, off + i, off + j, true)
  {
    FirstNewSame(Neighbors(g, s[j]), visited', s[..i], visited, found[..off + i], s[i]);
    ExhaustedThere(g, visited', s, visited, found, off, i, j + 1);
  }

  /** What was found deep below the first node, and what after it, is found deep. */
  lemma {:induction false} DeepBelow<T(!new)>(g: Graph<T>, vs: seq<T>, visited: set<T>, inner: seq<T>, found: seq<T>,
                                              i: nat)
    requires vs != [] && found != [] && found[0] == vs[0]
    requires i < |inner| && FoundDeep(g, Neighbors(g, vs[0]), visited + {vs[0]}, inner, i)
    requires StandsAt(visited + {vs[0]}, inner, visited, found, 1, i)
    ensures FoundDeep(g, vs, visited, found, i + 1)
  {
    var v1 := visited + {vs[0]};
    if j: nat :| From(g, v1, inner, i, j, true) {
      FromThere(g, v1, inner, visited, found, 1, i, j);
    } else {
      FirstNewSame(Neighbors(g, vs[0]), v1, inner[..i], visited, found[..1 + i], inner[i]);
      ExhaustedThere(g, v1, inner, visited, found, 1, i, 0);
      assert From(g, visited, found, 1 + i, 0, true);
    }
  }

  lemma {:induction false} DeepAfter<T(!new)>(g: Graph<T>, vs: seq<T>, visited: set<T>, visited': set<T>, later: seq<T>,
                                              found: seq<T>, n: nat, i: nat)
    requires vs != [] && 0 < n <= |found| && found[0] == vs[0]
    requires i < |later| && FoundDeep(g, vs[1..], visited', later, i)
    requires StandsAt(visited', later, visited, found, n, i)
    requires forall k :: 0 <= k < n ==> Exhausted(g, found[k], visited, found[..n + i])
    ensures FoundDeep(g, vs, visited, found, n + i)
  {
    if j: nat :| From(g, visited', later, i, j, true) {
      FromThere(g, visited', later, visited, found, n, i, j);
    } else {
      FirstNewSame(vs[1..], visited', later[..i], visited, found[..n + i], later[i]);
      assert found[..n + i][0] == vs[0];
      FirstNewLater(vs, visited, found[..n + i], later[i]);
      ExhaustedThere(g, visited', later, visited, found, n, i, 0);
    }
  }

  lemma {:induction false} PreorderDeep<T(!new)>(g: Graph<T>, all: set<T>, start: T, vs: seq<T>, visited: set<T>)
    requires Closed(g, all) && forall v :: v in vs ==> v in all && Reachable(g, start, v)
    ensures AllDeep(g, vs, visited, Preorder(g, all, vs, visited))
    decreases all - visited, |vs|
  {
    var found := Preorder(g, all, vs, visited);
    if vs != [] {
      if vs[0] in visited {
        PreorderDeep(g, all, start, vs[1..], visited);
        assert found == Preorder(g, all, vs[1..], visited);
        forall i: nat | i < |found| ensures FoundDeep(g, vs, visited, found, i) {
          assert FoundDeep(g, vs[1..], visited, found, i);
          if !exists j :: From(g, visited, found, i, j, true) {
            FirstNewLater(vs, visited, found[..i], found[i]);
          }
        }
      } else {
        DeepParts(g, all, start, vs, visited);
      }
    }
  }

  lemma {:induction false} DeepParts<T(!new)>(g: Graph<T>, all: set<T>, start: T, vs: seq<T>, visited: set<T>)
    requires Closed(g, all) && forall v :: v in vs ==> v in all && Reachable(g, start, v)
    requires vs != [] && vs[0] !in visited
    ensures AllDeep(g, vs, visited, Preorder(g, all, vs, visited))
    decreases all - visited, |vs|, 0
  {
    var found := Preorder(g, all, vs, visited);
    var inner := Preorder(g, all, Neighbors(g, vs[0]), visited + {vs[0]});
    var first := [vs[0]] + inner;
    var later := Preorder(g, all, vs[1..], visited + Members(first));
    assert found == first + later;
    forall v | v in Neighbors(g, vs[0]) ensures v in all && Reachable(g, start, v) {
      assert Edge(g, vs[0], v);
      ReachedByEdge(g, start, vs[0], v);
    }
    PreorderFinds(g, all, start, Neighbors(g, vs[0]), visited + {vs[0]});
    PreorderDeep(g, all, start, Neighbors(g, vs[0]), visited + {vs[0]});
    PreorderDeep(g, all, start, vs[1..], visited + Members(first));
    DeepJoins(g, vs, visited, inner, later);
  }

  ghost predicate LeadsBack<T(!new)>(g: Graph<T>, visited: set<T>, first: seq<T>) {
    forall u, v {:trigger Edge(g, u, v)} :: u in first && Edge(g, u, v) ==> v in visited || v in first
  }

  lemma {:induction false} BackExhausts<T(!new)>(g: Graph<T>, visited: set<T>, first: seq<T>, before: seq<T>, k: nat)
    requires LeadsBack(g, visited, first) && first <= before && k < |first|
    ensures Exhausted(g, first[k], visited, before)
  {
    forall v | v in Neighbors(g, first[k]) ensures v in visited || v in before {
      assert first[k] in first && Edge(g, first[k], v);
    }
  }

  lemma {:induction false} InnerDeep<T(!new)>(g: Graph<T>, vs: seq<T>, visited: set<T>, inner: seq<T>, later: seq<T>,
                                              i: nat)
    requires vs != [] && AllDeep(g, Neighbors(g, vs[0]), visited + {vs[0]}, inner) && i < |inner|
    ensures FoundDeep(g, vs, visited, [vs[0]] + inner + later, i + 1)
  {
    var found := [vs[0]] + inner + later;
    assert found[..1 + i] == [vs[0]] + inner[..i];
    DeepBelow(g, vs, visited, inner, found, i);
  }

  lemma {:induction false} LaterDeep<T(!new)>(g: Graph<T>, vs: seq<T>, visited: set<T>, first: seq<T>, later: seq<T>,
                                              i: nat)
    requires vs != [] && first != [] && first[0] == vs[0] && LeadsBack(g, visited, first)
    requires AllDeep(g, vs[1..], visited + Members(first), later) && i < |later|
    ensures FoundDeep(g, vs, visited, first + later, |first| + i)
  {
    var found, n := first + later, |first|;
    assert found[..n + i] == first + later[..i];
    forall k | 0 <= k < n ensures Exhausted(g, found[k], visited, found[..n + i]) {
      BackExhausts(g, visited, first, found[..n + i], k);
    }
    DeepAfter(g, vs, visited, visited + Members(first), later, found, n, i);
  }

  lemma {:induction false} DeepJoins<T(!new)>(g: Graph<T>, vs: seq<T>, visited: set<T>, inner: seq<T>, later: seq<T>)
    requires vs != [] && vs[0] !in visited && LeadsBack(g, visited, [vs[0]] + inner)
    requires AllDeep(g, Neighbors(g, vs[0]), visited + {vs[0]}, inner)
    requires AllDeep(g, vs[1..], visited + Members([vs[0]] + inner), later)
    ensures AllDeep(g, vs, visited, [vs[0]] + inner + later)
  {
    var first := [vs[0]] + inner;
    var found, n := first + later, |first|;
    forall i: nat | i < |found| ensures FoundDeep(g, vs, visited, found, i) {
      if i == 0 {
        assert vs[0] == found[0] && found[..0] == [];
        assert FirstNew(vs, visited, found[..0], found[0]);
      } else if i < n {
        InnerDeep(g, vs, visited, inner, later, i - 1);
      } else {
        LaterDeep(g, vs, visited, first, later, i - n);
      }
    }
  }

  /** Recursive search is depth first. */
  lemma {:induction false} PreorderDepthFirst<T(!new)>(g: Graph<T>, all: set<T>, start: T)
    requires Closed(g, all) && start in all
    ensures DepthFirst(g, start, Preorder(g, all, [start], {}))
  {
    var found := Preorder(g, all, [start], {});
    ReachedStart(g, start);
    PreorderDeep(g, all, start, [start], {});
    assert found[0] == start;
    forall i: nat | 0 < i < |found| ensures HasParent(g, found, i, true) {
      assert FoundDeep(g, [start], {}, found, i);
      assert found[..i][0] == start;
      assert !FirstNew([start], {}, found[..i], found[i]);
    }
  }

  lemma {:induction false} ReversedPush<T>(s: seq<T>, x: T)
    ensures Reversed(s + [x]) == [x] + Reversed(s)
  {
    assert (s + [x])[..|s|] == s;
  }

  ghost function Unvisited<T>(s: seq<T>, visited: set<T>): seq<T> {
    if s == [] then [] else (if s[0] in visited then [] else [s[0]]) + Unvisited(s[1..], visited)
  }

  lemma {:induction false} UnvisitedIn<T>(s: seq<T>, visited: set<T>, v: T)
    requires v in Unvisited(s, visited)
    ensures v in s
  {
    if v != s[0] || s[0] in visited { UnvisitedIn(s[1..], visited, v); }
  }

  /** Pushing only what is unvisited changes nothing. */
  lemma {:induction false} PreorderUnvisited<T>(g: Graph<T>, all: set<T>, a: seq<T>, visited: set<T>, filter: set<T>)
    requires filter <= visited
    ensures Preorder(g, all, Unvisited(a, filter), visited) == Preorder(g, all, a, visited)
    decreases |a|
  {
    if a != [] {
      if a[0] in filter {
        assert Unvisited(a, filter) == Unvisited(a[1..], filter);
        PreorderUnvisited(g, all, a[1..], visited, filter);
      } else {
        assert Unvisited(a, filter)[1..] == Unvisited(a[1..], filter);
        if a[0] in visited || a[0] !in all {
          PreorderUnvisited(g, all, a[1..], visited, filter);
        } else {
          var first := [a[0]] + Preorder(g, all, Neighbors(g, a[0]), visited + {a[0]});
          PreorderUnvisited(g, all, a[1..], visited + Members(first), filter);
        }
      }
    }
  }

  /** One turn of the loop: the rest of the search after node's turn. */
  lemma {:induction false} PreorderTurn<T>(g: Graph<T>, all: set<T>, node: T, rest: seq<T>, visited: set<T>)
    requires node in all && node !in visited
    ensures Preorder(g, all, [node] + rest, visited)
         == [node] + Preorder(g, all, Unvisited(Neighbors(g, node), visited + {node}) + rest, visited + {node})
  {
    var nbrs, now := Neighbors(g, node), visited + {node};
    PreorderUnvisited(g, all, nbrs, now, now);
    PreorderParts(g, all, Unvisited(nbrs, now), rest, now);
    PreorderFirst(g, all, node, rest, visited);
  }

  lemma {:induction false} PreorderFirst<T>(g: Graph<T>, all: set<T>, node: T, rest: seq<T>, visited: set<T>)
    requires node in all && node !in visited
    ensures var inner := Preorder(g, all, Neighbors(g, node), visited + {node});
      Preorder(g, all, [node] + rest, visited) ==
        [node] + inner + Preorder(g, all, rest, visited + {node} + Members(inner))
  {
    var inner := Preorder(g, all, Neighbors(g, node), visited + {node});
    assert ([node] + rest)[1..] == rest;
    assert visited + Members([node] + inner) == visited + {node} + Members(inner);
  }

  lemma {:induction false} PreorderSkip<T>(g: Graph<T>, all: set<T>, node: T, rest: seq<T>, visited: set<T>)
    requires node in visited
    ensures Preorder(g, all, [node] + rest, visited) == Preorder(g, all, rest, visited)
  {
    assert ([node] + rest)[1..] == rest;
  }

  /** Pushes the unvisited neighbours, the last one first. */
  method PushUnvisited<T(==)>(nbrs: seq<T>, visited: set<T>, stack: seq<T>) returns (stack': seq<T>)
    ensures Reversed(stack') == Unvisited(nbrs, visited) + Reversed(stack)
    ensures forall v :: v in stack' ==> v in stack || v in nbrs
  {
    stack' := stack;
    for j := |nbrs| downto 0
      invariant Reversed(stack') == Unvisited(nbrs[j..], visited) + Reversed(stack)
      invariant forall v :: v in stack' ==> v in stack || v in nbrs
    {
      PushKeeps(nbrs, j, visited, stack, stack');
      if nbrs[j] !in visited {
        stack' := stack' + [nbrs[j]];
      }
    }
  }

  lemma {:induction false} PushKeeps<T>(nbrs: seq<T>, j: nat, visited: set<T>, stack: seq<T>, now: seq<T>)
    requires j < |nbrs| && Reversed(now) == Unvisited(nbrs[j + 1..], visited) + Reversed(stack)
    ensures Reversed(if nbrs[j] in visited then now else now + [nbrs[j]]) ==
      Unvisited(nbrs[j..], visited) + Reversed(stack)
  {
    UnvisitedBack(nbrs, j, visited);
    ReversedPush(now, nbrs[j]);
    Assoc([nbrs[j]], Unvisited(nbrs[j + 1..], visited), Reversed(stack));
    Assoc([], Unvisited(nbrs[j + 1..], visited), Reversed(stack));
  }

  lemma {:induction false} UnvisitedBack<T>(s: seq<T>, j: nat, visited: set<T>)
    requires j < |s|
    ensures Unvisited(s[j..], visited) == (if s[j] in visited then [] else [s[j]]) + Unvisited(s[j + 1..], visited)
  {
    assert s[j..][1..] == s[j + 1..];
  }

  /** The turn of an unvisited node: it is listed, and its unvisited neighbours are pushed on the rest. */
  method Push<T(==, !new)>(g: Graph<T>, ghost all: set<T>, node: T, rest: seq<T>, visited: set<T>, ghost todo: seq<T>)
      returns (stack: seq<T>, ghost todo': seq<T>)
    requires Closed(g, all) && node in all && node !in visited && forall v :: v in rest ==> v in all
    requires todo == Preorder(g, all, [node] + Reversed(rest), visited)
    ensures forall v :: v in stack ==> v in all
    ensures todo' == Preorder(g, all, Reversed(stack), visited + {node}) && todo == [node] + todo'
  {
    stack := PushUnvisited(Neighbors(g, node), visited + {node}, rest);
    PreorderTurn(g, all, node, Reversed(rest), visited);
    NeighborsIn(g, all, node);
    todo' := Preorder(g, all, Reversed(stack), visited + {node});
  }

  lemma ReversedTop<T>(s: seq<T>)
    requires s != []
    ensures Reversed(s) == [s[|s| - 1]] + Reversed(s[..|s| - 1])
  {
  }

  /** It does not matter which closed set bounds the recursion. */
  lemma {:induction false} PreorderBound<T(!new)>(g: Graph<T>, all: set<T>, other: set<T>, vs: seq<T>, visited: set<T>)
    requires Closed(g, all) && Closed(g, other) && forall v :: v in vs ==> v in all && v in other
    ensures Preorder(g, all, vs, visited) == Preorder(g, other, vs, visited)
    decreases all - visited, |vs|
  {
    if vs != [] {
      if vs[0] in visited {
        PreorderBound(g, all, other, vs[1..], visited);
      } else {
        NeighborsIn(g, all, vs[0]);
        NeighborsIn(g, other, vs[0]);
        PreorderBound(g, all, other, Neighbors(g, vs[0]), visited + {vs[0]});
        var first := [vs[0]] + Preorder(g, all, Neighbors(g, vs[0]), visited + {vs[0]});
        PreorderBound(g, all, other, vs[1..], visited + Members(first));
      }
    }
  }

  /** The explicit stack lists the nodes that recursive depth-first search lists, in its order. */
  method Dfs<T(==, !new)>(g: Graph<T>, start: T) returns (out: seq<T>)
    ensures Traversal(g, start, out) && DepthFirst(g, start, out)
    ensures forall all: set<T> :: Closed(g, all) && start in all ==> out == Preorder(g, all, [start], {})
  {
    ghost var all := Universe(g, start);
    out := DfsWithin(g, start, all);
    PreorderTraverses(g, all, start);
    PreorderDepthFirst(g, all, start);
    forall other: set<T> | Closed(g, other) && start in other ensures out == Preorder(g, other, [start], {}) {
      PreorderBound(g, all, other, [start], {});
    }
  }

  method DfsWithin<T(==, !new)>(g: Graph<T>, start: T, ghost all: set<T>) returns (out: seq<T>)
    requires Closed(g, all) && start in all
    ensures out == Preorder(g, all, [start], {})
  {
    out := [];
    var visited, stack := {}, [start];
    ghost var left, todo := all, Preorder(g, all, [start], {});
    assert Reversed(stack) == [start];
    while stack != []
      invariant forall v :: v in stack ==> v in all
      invariant left == all - visited
      invariant todo == Preorder(g, all, Reversed(stack), visited)
      invariant out + todo == Preorder(g, all, [start], {})
      decreases left, |stack|
    {
      var node, rest := stack[|stack| - 1], stack[..|stack| - 1];
      ReversedTop(stack);
      if node in visited {
        PreorderSkip(g, all, node, Reversed(rest), visited);
        stack := rest;
        continue;
      }
      ghost var before := todo;
      stack, todo := Push(g, all, node, rest, visited, todo);
      assert before == [node] + todo && node in left;
      Assoc(out, [node], todo);
      visited, left := visited + {node}, left - {node};
      out := out + [node];
    }
  }

  lemma {:induction false} NeighborsIn<T(!new)>(g: Graph<T>, all: set<T>, u: T)
    requires Closed(g, all) && u in all
    ensures forall v :: v in Neighbors(g, u) ==> v in all
  {
    forall v | v in Neighbors(g, u) ensures v in all {
      assert Edge(g, u, v);
    }
  }
}
