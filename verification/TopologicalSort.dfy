/**
 Kahn's algorithm of language/python/standard-library/data_structures/topological_sort.py.
*/
module TopologicalSort {
  import opened Digraph
  import opened Sequences
  import opened Sets
  import opened Wrappers

  ghost predicate IsNode<T>(g: Graph<T>, v: T) {
    v in g.keys || exists u :: u in g.keys && Edge(g, u, v)
  }

  // ----- what a result means -----

  /** Every node once, and every edge from an earlier to a later place. */
  ghost predicate IsOrder<T(!new)>(g: Graph<T>, s: seq<T>) {
    && Distinct(s)
    && (forall v {:trigger IsNode(g, v)} :: v in s <==> IsNode(g, v))
    && Forward(g, s)
  }

  ghost predicate Forward<T>(g: Graph<T>, s: seq<T>) {
    forall i, j {:trigger Edge(g, s[i], s[j])} :: 0 <= i < |s| && 0 <= j < |s| && Edge(g, s[i], s[j]) ==> i < j
  }

  ghost predicate IsCycle<T>(g: Graph<T>, p: seq<T>) {
    |p| >= 2 && p[0] == p[|p| - 1] && IsPath(g, p)
  }

  ghost predicate HasCycle<T(!new)>(g: Graph<T>) {
    exists p: seq<T> :: IsCycle(g, p)
  }

  lemma {:induction false} PathGoesForward<T(!new)>(g: Graph<T>, s: seq<T>, p: seq<T>, i: nat, j: nat)
    requires Valid(g) && IsOrder(g, s) && IsPath(g, p) && |p| >= 2
    requires i < |s| && s[i] == p[0] && j < |s| && s[j] == p[|p| - 1]
    ensures i < j
    decreases |p|
  {
    EdgeToNode(g, p[0], p[1]);
    var m :| 0 <= m < |s| && s[m] == p[1];
    assert Edge(g, s[i], s[m]);
    if |p| > 2 {
      PathGoesForward(g, s, p[1..], m, j);
    }
  }

  lemma {:induction false} EdgeToNode<T(!new)>(g: Graph<T>, u: T, v: T)
    requires Valid(g) && Edge(g, u, v)
    ensures IsNode(g, u) && IsNode(g, v)
  {
    assert u in g.keys;
  }

  lemma {:induction false} OrderExcludesCycle<T(!new)>(g: Graph<T>, s: seq<T>)
    requires Valid(g) && IsOrder(g, s)
    ensures !HasCycle(g)
  {
    forall p: seq<T> | IsCycle(g, p) ensures false {
      EdgeToNode(g, p[0], p[1]);
      var i :| 0 <= i < |s| && s[i] == p[0];
      PathGoesForward(g, s, p, i, i);
    }
  }

  // ----- every node with a predecessor: a cycle -----

  ghost predicate HasPredecessor<T>(g: Graph<T>, left: set<T>, v: T) {
    exists u :: u in left && Edge(g, u, v)
  }

  /** Walking back from walk[0] repeats a node after at most |left| steps. */
  lemma {:induction false} WalkBack<T(!new)>(g: Graph<T>, left: set<T>, walk: seq<T>)
    requires forall v {:trigger HasPredecessor(g, left, v)} :: v in left ==> HasPredecessor(g, left, v)
    requires walk != [] && Distinct(walk) && IsPath(g, walk) && forall v :: v in walk ==> v in left
    ensures HasCycle(g)
    decreases |left| - |walk|
  {
    assert walk[0] in left && HasPredecessor(g, left, walk[0]);
    var u :| u in left && Edge(g, u, walk[0]);
    var longer := [u] + walk;
    assert longer[1..] == walk;
    if u in walk {
      var j :| 0 <= j < |walk| && walk[j] == u;
      PathPrefix(g, longer, j + 2);
      assert longer[..j + 2][j + 1] == walk[j];
      assert IsCycle(g, longer[..j + 2]);
    } else {
      DistinctIsSmall(longer, left);
      WalkBack(g, left, longer);
    }
  }

  // ----- counting edges -----

  ghost function Count<T>(s: seq<T>, v: T): nat {
    if s == [] then 0 else Count(s[..|s| - 1], v) + (if s[|s| - 1] == v then 1 else 0)
  }

  lemma {:induction false} CountNext<T>(s: seq<T>, j: nat, v: T)
    requires j < |s|
    ensures Count(s[..j + 1], v) == Count(s[..j], v) + (if s[j] == v then 1 else 0)
  {
    assert s[..j + 1][..j] == s[..j];
  }

  lemma {:induction false} CountPositive<T>(s: seq<T>, v: T)
    ensures Count(s, v) > 0 <==> v in s
  {
    if s != [] { CountPositive(s[..|s| - 1], v); }
  }

  lemma {:induction false} CountPrefix<T>(s: seq<T>, j: nat, v: T)
    requires j <= |s|
    ensures Count(s[..j], v) <= Count(s, v)
  {
    if j == |s| {
      assert s[..j] == s;
    } else {
      assert s[..|s| - 1][..j] == s[..j];
      CountPrefix(s[..|s| - 1], j, v);
    }
  }

  /** How many edges lead to v from the first n keys that are not done. */
  ghost function Incoming<T>(g: Graph<T>, n: nat, done: set<T>, v: T): nat
    requires n <= |g.keys|
  {
    if n == 0 then 0
    else Incoming(g, n - 1, done, v) + (if g.keys[n - 1] in done then 0 else Count(Neighbors(g, g.keys[n - 1]), v))
  }

  lemma {:induction false} IncomingFrom<T>(g: Graph<T>, n: nat, done: set<T>, v: T) returns (u: T)
    requires n <= |g.keys| && Incoming(g, n, done, v) > 0
    ensures u in g.keys && u !in done && Edge(g, u, v)
  {
    u := g.keys[n - 1];
    CountPositive(Neighbors(g, u), v);
    if u in done || !Edge(g, u, v) {
      u := IncomingFrom(g, n - 1, done, v);
    }
  }

  lemma {:induction false} NoneIncoming<T>(g: Graph<T>, n: nat, done: set<T>, v: T, i: nat)
    requires i < n <= |g.keys| && g.keys[i] !in done && Incoming(g, n, done, v) == 0
    ensures !Edge(g, g.keys[i], v)
  {
    if i == n - 1 {
      CountPositive(Neighbors(g, g.keys[i]), v);
    } else {
      NoneIncoming(g, n - 1, done, v, i);
    }
  }

  lemma {:induction false} IncomingWithoutKey<T>(g: Graph<T>, n: nat, done: set<T>, i: nat, v: T)
    requires Distinct(g.keys) && n <= |g.keys| && i < |g.keys| && g.keys[i] !in done
    ensures Incoming(g, n, done, v) ==
      Incoming(g, n, done + {g.keys[i]}, v) + (if i < n then Count(Neighbors(g, g.keys[i]), v) else 0)
  {
    if n > 0 { IncomingWithoutKey(g, n - 1, done, i, v); }
  }

  lemma {:induction false} IncomingWithoutOther<T>(g: Graph<T>, n: nat, done: set<T>, u: T, v: T)
    requires n <= |g.keys| && u !in g.keys
    ensures Incoming(g, n, done, v) == Incoming(g, n, done + {u}, v)
  {
    if n > 0 { IncomingWithoutOther(g, n - 1, done, u, v); }
  }

  lemma {:induction false} IncomingWithout<T(!new)>(g: Graph<T>, done: set<T>, u: T, v: T)
    requires Valid(g) && u !in done
    ensures Incoming(g, |g.keys|, done, v) == Incoming(g, |g.keys|, done + {u}, v) + Count(Neighbors(g, u), v)
  {
    if u in g.keys {
      var i :| 0 <= i < |g.keys| && g.keys[i] == u;
      IncomingWithoutKey(g, |g.keys|, done, i, v);
    } else {
      IncomingWithoutOther(g, |g.keys|, done, u, v);
    }
  }

  // ----- the algorithm -----

  /** The dictionary in_degree: its keys in insertion order, and its values. */
  datatype Degrees<T> = Degrees(order: seq<T>, of: map<T, int>)

  ghost predicate Listed<T(!new)>(d: Degrees<T>) {
    Distinct(d.order) && forall v :: v in d.of <==> v in d.order
  }

  /** The keys, and the neighbours among the first n keys' lists. */
  ghost predicate Seen<T(!new)>(g: Graph<T>, n: nat, d: Degrees<T>)
    requires n <= |g.keys|
  {
    && Listed(d)
    && (forall v :: v in d.of <==> v in g.keys || Incoming(g, n, {}, v) > 0)
    && (forall v :: v in d.of ==> d.of[v] == Incoming(g, n, {}, v))
  }

  /** Counts each neighbour listed, first entering it with 0 when it is new. */
  method CountList<T(==, !new)>(nbrs: seq<T>, d: Degrees<T>) returns (d': Degrees<T>)
    requires Listed(d)
    ensures Listed(d')
    ensures forall v :: v in d'.of <==> v in d.of || v in nbrs
    ensures forall v :: v in d'.of ==> d'.of[v] == (if v in d.of then d.of[v] else 0) + Count(nbrs, v)
  {
    d' := d;
    for j := 0 to |nbrs|
      invariant Listed(d')
      invariant forall v :: v in d'.of <==> v in d.of || v in nbrs[..j]
      invariant forall v :: v in d'.of ==> d'.of[v] == (if v in d.of then d.of[v] else 0) + Count(nbrs[..j], v)
    {
      var v := nbrs[j];
      forall x { CountNext(nbrs, j, x); }
      CountPositive(nbrs[..j], v);
      if v !in d'.of {
        d' := Degrees(d'.order + [v], d'.of[v := 0]);
      }
      d' := d'.(of := d'.of[v := d'.of[v] + 1]);
    }
    assert nbrs[..|nbrs|] == nbrs;
  }

  method InDegrees<T(==, !new)>(g: Graph<T>) returns (d: Degrees<T>)
    requires Valid(g)
    ensures Seen(g, |g.keys|, d)
  {
    d := Degrees(g.keys, map v | v in g.lists :: 0);
    for n := 0 to |g.keys|
      invariant Seen(g, n, d)
    {
      ghost var before := d;
      d := CountList(g.lists[g.keys[n]], d);
      SeenNext(g, n, before, d);
    }
  }

  lemma {:induction false} SeenNext<T(!new)>(g: Graph<T>, n: nat, d: Degrees<T>, d': Degrees<T>)
    requires Valid(g) && n < |g.keys| && Seen(g, n, d) && Listed(d')
    requires forall v :: v in d'.of <==> v in d.of || v in g.lists[g.keys[n]]
    requires forall v :: v in d'.of ==> d'.of[v] == (if v in d.of then d.of[v] else 0) + Count(g.lists[g.keys[n]], v)
    ensures Seen(g, n + 1, d')
  {
    forall v ensures v in d.of || v in g.lists[g.keys[n]] <==> v in g.keys || Incoming(g, n + 1, {}, v) > 0 {
      CountPositive(g.lists[g.keys[n]], v);
    }
    forall v | v in d'.of ensures d'.of[v] == Incoming(g, n + 1, {}, v) {
    }
  }

  /** Takes one off the degree of each neighbour listed, and enqueues it at zero. */
  method Release<T(==, !new)>(nbrs: seq<T>, degree: map<T, int>, queue: seq<T>)
      returns (degree': map<T, int>, queue': seq<T>)
    requires forall v :: v in nbrs ==> v in degree
    requires forall v :: v in degree ==> degree[v] >= Count(nbrs, v)
    requires Distinct(queue) && forall v :: v in queue ==> v in degree && degree[v] == 0
    ensures degree'.Keys == degree.Keys && forall v :: v in degree ==> degree'[v] == degree[v] - Count(nbrs, v)
    ensures Distinct(queue') && forall v :: v in queue' <==> v in queue || (v in nbrs && degree'[v] == 0)
  {
    degree', queue' := degree, queue;
    for j := 0 to |nbrs|
      invariant degree'.Keys == degree.Keys && forall v :: v in degree ==> degree'[v] == degree[v] - Count(nbrs[..j], v)
      invariant Distinct(queue') && forall v :: v in queue' <==> v in queue || (v in nbrs[..j] && degree'[v] == 0)
    {
      var v := nbrs[j];
      forall x { CountNext(nbrs, j, x); }
      CountPrefix(nbrs, j + 1, v);
      assert degree[v] > 0 && degree'[v] > 0;
      degree' := degree'[v := degree'[v] - 1];
      if degree'[v] == 0 {
        queue' := queue' + [v];
      }
    }
    assert nbrs[..|nbrs|] == nbrs;
  }

  /** The state of the main loop: done holds what result lists. */
  ghost predicate Progress<T(!new)>(g: Graph<T>, nodes: set<T>, degree: map<T, int>, queue: seq<T>, result: seq<T>,
                                    done: set<T>) {
    && degree.Keys == nodes && done <= nodes
    && Distinct(result) && (forall v :: v in result <==> v in done)
    && Released(degree, queue, done)
    && Counted(g, degree, done)
    && Forward(g, result)
  }

  ghost predicate Released<T(!new)>(degree: map<T, int>, queue: seq<T>, done: set<T>) {
    && Distinct(queue)
    && (forall v :: v in queue <==> v in degree && v !in done && degree[v] == 0)
    && (forall v :: v in done ==> v in degree && degree[v] == 0)
  }

  ghost predicate Counted<T(!new)>(g: Graph<T>, degree: map<T, int>, done: set<T>) {
    forall v :: v in degree ==> degree[v] == Incoming(g, |g.keys|, done, v)
  }

  lemma {:induction false} NoEdgeFromLeft<T(!new)>(g: Graph<T>, done: set<T>, u: T, v: T)
    requires Valid(g) && Incoming(g, |g.keys|, done, v) == 0 && u !in done
    ensures v !in Neighbors(g, u) && !Edge(g, u, v)
  {
    if u in g.keys {
      var i :| 0 <= i < |g.keys| && g.keys[i] == u;
      NoneIncoming(g, |g.keys|, done, v, i);
    }
  }

  lemma {:induction false} ReleasedNext<T(!new)>(g: Graph<T>, degree: map<T, int>, queue: seq<T>, done: set<T>,
                                                 degree': map<T, int>, queue': seq<T>)
    requires Valid(g) && Released(degree, queue, done) && Counted(g, degree, done) && queue != []
    requires degree'.Keys == degree.Keys
    requires forall v :: v in degree ==> degree'[v] == degree[v] - Count(Neighbors(g, queue[0]), v)
    requires Distinct(queue')
    requires forall v :: v in queue' <==>
      v in queue[1..] || (v in Neighbors(g, queue[0]) && v in degree' && degree'[v] == 0)
    ensures Released(degree', queue', done + {queue[0]})
  {
    var u := queue[0];
    assert u in queue;
    forall v | v in done + {u} ensures v in degree' && degree'[v] == 0 && v !in Neighbors(g, u) {
      NoEdgeFromLeft(g, done, u, v);
      CountPositive(Neighbors(g, u), v);
    }
    forall v ensures v in queue' <==> v in degree' && v !in done + {u} && degree'[v] == 0 {
      assert v in queue <==> v == u || v in queue[1..];
      if v in done + {u} {
        assert v !in Neighbors(g, u) && v !in queue[1..];
      } else {
        CountPositive(Neighbors(g, u), v);
        if v in degree && degree[v] == 0 {
          NoEdgeFromLeft(g, done, u, v);
        }
      }
    }
  }

  lemma {:induction false} CountedNext<T(!new)>(g: Graph<T>, degree: map<T, int>, done: set<T>, u: T,
                                                degree': map<T, int>)
    requires Valid(g) && Counted(g, degree, done) && u !in done && degree'.Keys == degree.Keys
    requires forall v :: v in degree ==> degree'[v] == degree[v] - Count(Neighbors(g, u), v)
    ensures Counted(g, degree', done + {u})
  {
    forall v | v in degree' ensures degree'[v] == Incoming(g, |g.keys|, done + {u}, v) {
      IncomingWithout(g, done, u, v);
    }
  }

  lemma {:induction false} ForwardNext<T(!new)>(g: Graph<T>, degree: map<T, int>, result: seq<T>, done: set<T>, u: T)
    requires Valid(g) && Counted(g, degree, done) && u in degree && u !in done && degree[u] == 0
    requires forall v :: v in done ==> v in degree && degree[v] == 0
    requires Forward(g, result) && forall v :: v in result <==> v in done
    ensures Forward(g, result + [u])
  {
    var s := result + [u];
    forall i, j | 0 <= i < |s| && 0 <= j < |s| && Edge(g, s[i], s[j]) ensures i < j {
      if i == |result| {
        assert s[j] == u || s[j] in result;
        NoEdgeFromLeft(g, done, u, s[j]);
      } else if j < |result| {
        assert Edge(g, result[i], result[j]);
      }
    }
  }

  lemma {:induction false} ReleaseAllowed<T(!new)>(g: Graph<T>, nodes: set<T>, degree: map<T, int>, done: set<T>, u: T)
    requires Valid(g) && Counted(g, degree, done) && u !in done
    requires forall v {:trigger IsNode(g, v)} :: v in degree <==> IsNode(g, v)
    ensures forall v :: v in Neighbors(g, u) ==> v in degree
    ensures forall v :: v in degree ==> degree[v] >= Count(Neighbors(g, u), v)
  {
    forall v | v in Neighbors(g, u) ensures v in degree {
      EdgeToNode(g, u, v);
    }
    forall v | v in degree ensures degree[v] >= Count(Neighbors(g, u), v) {
      IncomingWithout(g, done, u, v);
    }
  }

  lemma {:induction false} SeenAll<T(!new)>(g: Graph<T>, d: Degrees<T>)
    requires Valid(g) && Seen(g, |g.keys|, d)
    ensures forall v {:trigger IsNode(g, v)} :: v in d.of <==> IsNode(g, v)
  {
    forall v ensures v in d.of <==> IsNode(g, v) {
      if v in d.of && v !in g.keys {
        var u := IncomingFrom(g, |g.keys|, {}, v);
      } else if IsNode(g, v) && v !in g.keys {
        var u :| u in g.keys && Edge(g, u, v);
        var i :| 0 <= i < |g.keys| && g.keys[i] == u;
        if Incoming(g, |g.keys|, {}, v) == 0 {
          NoneIncoming(g, |g.keys|, {}, v, i);
        }
      }
    }
  }

  lemma {:induction false} Missing<T>(a: set<T>, b: set<T>) returns (x: T)
    requires a <= b && a != b
    ensures x in b && x !in a
  {
    assert b == a + (b - a);
    x := Pick(b - a);
  }

  lemma {:induction false} LeftHasPredecessor<T(!new)>(g: Graph<T>, degree: map<T, int>, done: set<T>, v: T)
    requires Valid(g) && Counted(g, degree, done) && v in degree && degree[v] > 0
    requires forall v {:trigger IsNode(g, v)} :: v in degree <==> IsNode(g, v)
    ensures HasPredecessor(g, degree.Keys - done, v)
  {
    var u := IncomingFrom(g, |g.keys|, done, v);
    assert IsNode(g, u);
  }

  /** With nodes left over and none released, each of those has a predecessor among them. */
  lemma {:induction false} LeftOver<T(!new)>(g: Graph<T>, degree: map<T, int>, queue: seq<T>, done: set<T>)
    requires Valid(g) && Counted(g, degree, done) && Released(degree, queue, done) && queue == []
    requires done <= degree.Keys && done != degree.Keys
    requires forall v {:trigger IsNode(g, v)} :: v in degree <==> IsNode(g, v)
    ensures HasCycle(g)
  {
    var left := degree.Keys - done;
    forall v | v in left ensures HasPredecessor(g, left, v) {
      assert v !in queue && Incoming(g, |g.keys|, done, v) >= 0;
      LeftHasPredecessor(g, degree, done, v);
    }
    var v := Missing(done, degree.Keys);
    WalkBack(g, left, [v]);
  }

  /** The nodes of degree 0, in the order in which they were met. */
  method Unblocked<T(==, !new)>(order: seq<T>, degree: map<T, int>) returns (queue: seq<T>)
    requires Distinct(order) && forall v :: v in order ==> v in degree
    ensures Distinct(queue) && forall v :: v in queue <==> v in order && degree[v] == 0
  {
    queue := [];
    for i := 0 to |order|
      invariant Distinct(queue) && forall v :: v in queue <==> v in order[..i] && degree[v] == 0
    {
      if degree[order[i]] == 0 {
        queue := queue + [order[i]];
      }
    }
    assert order[..|order|] == order;
  }

  /** One turn of the main loop: node, which is first in the queue, moves to the result. */
  method ReleaseNode<T(==, !new)>(g: Graph<T>, node: T, degree: map<T, int>, queue: seq<T>, ghost result: seq<T>,
                                  ghost done: set<T>)
      returns (degree': map<T, int>, queue': seq<T>)
    requires Valid(g) && Progress(g, degree.Keys, degree, queue, result, done) && queue != [] && node == queue[0]
    requires forall v {:trigger IsNode(g, v)} :: v in degree <==> IsNode(g, v)
    ensures Progress(g, degree.Keys, degree', queue', result + [node], done + {node})
    ensures node in degree && node !in done
  {
    assert node in queue;
    ReleaseAllowed(g, degree.Keys, degree, done, node);
    degree', queue' := Release(Neighbors(g, node), degree, queue[1..]);
    ReleasedNext(g, degree, queue, done, degree', queue');
    CountedNext(g, degree, done, node, degree');
    ForwardNext(g, degree, result, done, node);
  }

  lemma StartProgress<T(!new)>(g: Graph<T>, d: Degrees<T>, queue: seq<T>)
    requires Valid(g) && Seen(g, |g.keys|, d)
    requires Distinct(queue) && forall v :: v in queue <==> v in d.order && d.of[v] == 0
    ensures Progress(g, d.of.Keys, d.of, queue, [], {})
  {
  }

  lemma {:induction false} Finished<T(!new)>(g: Graph<T>, d: Degrees<T>, degree: map<T, int>, queue: seq<T>,
                                             result: seq<T>, done: set<T>)
    requires Valid(g) && Listed(d) && Progress(g, d.of.Keys, degree, queue, result, done) && queue == []
    requires forall v {:trigger IsNode(g, v)} :: v in d.of <==> IsNode(g, v)
    ensures |result| == |d.order| ==> IsOrder(g, result) && !HasCycle(g)
    ensures |result| != |d.order| ==> HasCycle(g)
  {
    SameSize(result, done);
    SameSize(d.order, d.of.Keys);
    if |result| != |d.order| {
      LeftOver(g, degree, queue, done);
    } else {
      SubsetOfSameSize(done, d.of.Keys);
      OrderExcludesCycle(g, result);
    }
  }

  /** The loop: nodes without predecessors left are taken out one by one. */
  method ReleaseAll<T(==, !new)>(g: Graph<T>, ghost nodes: set<T>, degree0: map<T, int>, queue0: seq<T>)
      returns (result: seq<T>, ghost degree: map<T, int>, ghost done: set<T>)
    requires Valid(g) && Progress(g, nodes, degree0, queue0, [], {})
    requires forall v {:trigger IsNode(g, v)} :: v in nodes <==> IsNode(g, v)
    ensures Progress(g, nodes, degree, [], result, done)
  {
    result, done := [], {};
    var counts, queue := degree0, queue0;
    ghost var left := nodes;
    while queue != []
      invariant Progress(g, nodes, counts, queue, result, done)
      invariant left == nodes - done
      decreases |left|
    {
      var node := queue[0];
      counts, queue := ReleaseNode(g, node, counts, queue, result, done);
      result := result + [node];
      done, left := done + {node}, left - {node};
    }
    degree := counts;
  }

  method TopologicalSort<T(==, !new)>(g: Graph<T>) returns (r: Result<seq<T>, string>)
    requires Valid(g)
    ensures r.Ok? ==> IsOrder(g, r.value)
    ensures r.Err? <==> HasCycle(g)
  {
    var d := InDegrees(g);
    var queue := Unblocked(d.order, d.of);
    SeenAll(g, d);
    StartProgress(g, d, queue);
    var result;
    ghost var degree, done;
    result, degree, done := ReleaseAll(g, d.of.Keys, d.of, queue);
    Finished(g, d, degree, [], result, done);
    if |result| != |d.order| {
      return Err("graph contains a cycle");
    }
    return Ok(result);
  }

  lemma {:induction false} SubsetOfSameSize<T>(a: set<T>, b: set<T>)
    requires a <= b && |a| == |b|
    ensures a == b
  {
    assert b == a + (b - a);
  }
}
