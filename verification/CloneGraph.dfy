/**
 The deep copy of algorithm/leetcode/problems/graph/133_CloneGraph.js: a recursive walk that fills a
 memo map, so that cycles and shared nodes are copied once.
*/
module CloneGraph {

  class Node {
    var val: int
    var neighbors: seq<Node?>

    constructor (val: int)
      ensures this.val == val && neighbors == []
    {
      this.val, neighbors := val, [];
    }
  }

  /** The nodes of g link only to each other (or to null). */
  ghost predicate Closed(g: set<Node>)
    reads g
  {
    forall n {:trigger LinksInto(n, g)} :: n in g ==> LinksInto(n, g)
  }

  ghost predicate LinksInto(n: Node, g: set<Node>)
    reads n
  {
    AllIn(n.neighbors, g)
  }

  ghost predicate AllIn(ns: seq<Node?>, g: set<Node>) {
    forall i :: 0 <= i < |ns| && ns[i] != null ==> ns[i] in g
  }

  /** r is the part of the graph that can be reached from root: the least closed set that has it. */
  ghost predicate ReachablePart(r: set<Node>, root: Node)
    reads r
  {
    && root in r && Closed(r)
    && forall s: set<Node> :: s <= r && root in s && Closed(s) ==> s == r
  }

  /** Every closed set that has root contains the part reachable from it. */
  lemma {:induction false} HasReachablePart(g: set<Node>, root: Node) returns (r: set<Node>)
    requires root in g && Closed(g)
    ensures r <= g && ReachablePart(r, root)
    decreases |g|
  {
    r := g;
    if s: set<Node> :| s <= g && root in s && Closed(s) && s != g {
      SmallerSet(s, g);
      r := HasReachablePart(s, root);
    }
  }

  lemma {:induction false} SmallerSet<T>(a: set<T>, b: set<T>)
    requires a <= b
    ensures |a| <= |b|
    ensures a != b ==> |a| < |b|
  {
    assert b == a + (b - a);
  }

  ghost predicate Injective(m: map<Node, Node>) {
    forall a, b :: a in m && b in m && a != b ==> m[a] != m[b]
  }

  ghost predicate Extends(m: map<Node, Node>, m': map<Node, Node>) {
    forall k :: k in m ==> k in m' && m'[k] == m[k]
  }

  ghost predicate Corresponds(m: map<Node, Node>, n: Node?, c: Node?) {
    if n == null then c == null else n in m && c == m[n]
  }

  ghost predicate AllCorrespond(m: map<Node, Node>, ns: seq<Node?>, cs: seq<Node?>) {
    |cs| == |ns| && forall i {:trigger Corresponds(m, ns[i], cs[i])} :: 0 <= i < |ns| ==> Corresponds(m, ns[i], cs[i])
  }

  lemma {:induction false} StillCorrespond(m: map<Node, Node>, m': map<Node, Node>, ns: seq<Node?>, cs: seq<Node?>)
    requires AllCorrespond(m, ns, cs) && Extends(m, m')
    ensures AllCorrespond(m', ns, cs)
  {
    forall i | 0 <= i < |ns| ensures Corresponds(m', ns[i], cs[i]) {
      assert Corresponds(m, ns[i], cs[i]);
    }
  }

  /** c has k's value and, in the same order, the copies of k's neighbours. */
  ghost predicate CopyOf(m: map<Node, Node>, k: Node, c: Node)
    reads k, c
  {
    c.val == k.val && AllCorrespond(m, k.neighbors, c.neighbors)
  }

  /** The keys of m outside base have faithful copies. */
  ghost predicate AllCopied(m: map<Node, Node>, base: set<Node>)
    reads m.Keys, m.Values
  {
    forall k {:trigger CopyOf(m, k, m[k])} :: k in m && k !in base ==> CopyOf(m, k, m[k])
  }

  lemma {:induction false} StillCopied(m: map<Node, Node>, m': map<Node, Node>, base: set<Node>)
    requires AllCopied(m, base) && AllCopied(m', m.Keys) && Extends(m, m')
    ensures AllCopied(m', base)
  {
    forall k | k in m' && k !in base ensures CopyOf(m', k, m'[k]) {
      if k in m {
        assert CopyOf(m, k, m[k]);
        StillCorrespond(m, m', k.neighbors, m[k].neighbors);
      }
    }
  }

  /** The memo map of one call of cloneGraph. */
  class Cloner {
    var copies: map<Node, Node>
    ghost var unseen: set<Node>  // the nodes not copied yet
    ghost var made: set<Node>    // the copies

    constructor (ghost g: set<Node>)
      requires Closed(g)
      ensures copies == map[] && made == {} && Valid(g)
    {
      copies, unseen, made := map[], g, {};
    }

    /** The copies made so far are of nodes of g, and distinct. */
    ghost predicate Valid(g: set<Node>)
      reads this, g
    {
      && Closed(g) && Injective(copies) && unseen <= g
      && (forall k {:trigger k in copies} :: k in copies ==> k in g && k !in unseen)
      && (forall k {:trigger k in unseen} :: k in g && k !in unseen ==> k in copies)
      && (forall k {:trigger copies[k]} :: k in copies ==> copies[k] in made)
    }

    method Remember(n: Node, ghost g: set<Node>) returns (c: Node)
      requires Valid(g) && n in g && n !in copies
      modifies this
      ensures Valid(g) && fresh(c) && c.val == n.val && copies == old(copies)[n := c]
      ensures unseen < old(unseen) && made == old(made) + {c}
    {
      assert n in unseen;
      c := new Node(n.val);
      copies, unseen, made := copies[n := c], unseen - {n}, made + {c};
    }

    method Dfs(n: Node?, ghost g: set<Node>) returns (copy: Node?)
      requires Valid(g) && (n != null ==> n in g)
      modifies this
      decreases unseen, 0
      ensures Valid(g) && unseen <= old(unseen) && fresh(made - old(made))
      ensures Extends(old(copies), copies) && AllCopied(copies, old(copies).Keys)
      ensures Corresponds(copies, n, copy)
    {
      if n == null {
        return null;
      }
      if n in copies {
        return copies[n];
      }
      var c := Remember(n, g);
      assert LinksInto(n, g);
      var neighbors := DfsAll(n.neighbors, g);
      Attach(n, c, neighbors, g, old(copies).Keys);
      copy := c;
    }

    /** Completes n's copy with its neighbours and leaves the others as they are. */
    method Attach(n: Node, c: Node, neighbors: seq<Node?>, ghost g: set<Node>, ghost base: set<Node>)
      requires Valid(g) && n in copies && copies[n] == c && c !in g && c.val == n.val
      requires AllCorrespond(copies, n.neighbors, neighbors) && AllCopied(copies, base + {n})
      modifies c`neighbors
      ensures Valid(g) && AllCopied(copies, base)
    {
      ghost var m := copies;
      forall k | k in m && k !in base && k != n ensures CopyOf(m, k, m[k]) && k != c && m[k] != c {}
      c.neighbors := neighbors;
      forall k | k in m && k !in base ensures CopyOf(m, k, m[k]) {}
      forall k | k in g ensures LinksInto(k, g) {}
    }

    /** The array method map, applied to the walk. */
    method DfsAll(ns: seq<Node?>, ghost g: set<Node>) returns (cs: seq<Node?>)
      requires Valid(g) && AllIn(ns, g)
      modifies this
      decreases unseen, 1
      ensures Valid(g) && unseen <= old(unseen) && fresh(made - old(made))
      ensures Extends(old(copies), copies) && AllCopied(copies, old(copies).Keys)
      ensures AllCorrespond(copies, ns, cs)
    {
      cs := [];
      for i := 0 to |ns|
        invariant Valid(g) && unseen <= old(unseen) && fresh(made - old(made))
        invariant Extends(old(copies), copies) && AllCopied(copies, old(copies).Keys)
        invariant AllCorrespond(copies, ns[..i], cs)
      {
        ghost var before := copies;
        var c := Dfs(ns[i], g);
        StillCorrespond(before, copies, ns[..i], cs);
        StillCopied(before, copies, old(copies).Keys);
        cs := cs + [c];
        assert ns[..i + 1] == ns[..i] + [ns[i]];
      }
      assert ns[..|ns|] == ns;
    }
  }

  /** g is any finite set of nodes the graph lives in; m is the copying, returned for the statement only. */
  method CloneGraph(node: Node?, ghost g: set<Node>) returns (r: Node?, ghost m: map<Node, Node>)
    requires Closed(g) && (node != null ==> node in g)
    ensures Corresponds(m, node, r)
    ensures node == null ==> m == map[]
    ensures node != null ==> ReachablePart(m.Keys, node)
    ensures Injective(m) && AllCopied(m, {})
    ensures forall k :: k in m ==> fresh(m[k])
  {
    m := map[];
    if node == null {
      return null, map[];
    }
    ghost var part := HasReachablePart(g, node);
    var cloner := new Cloner(part);
    r := cloner.Dfs(node, part);
    m := cloner.copies;
    CopiedIsClosed(m);
  }

  lemma {:induction false} CopiedIsClosed(m: map<Node, Node>)
    requires AllCopied(m, {})
    ensures Closed(m.Keys)
  {
    forall k | k in m.Keys ensures LinksInto(k, m.Keys) {
      assert CopyOf(m, k, m[k]);
      forall i | 0 <= i < |k.neighbors| && k.neighbors[i] != null ensures k.neighbors[i] in m.Keys {
        assert Corresponds(m, k.neighbors[i], m[k].neighbors[i]);
      }
    }
  }

  // ----- what being a copy means for an observer -----

  /** What a walk of at most d links can see of a graph. */
  datatype View = Nothing | Sight(val: int, kids: seq<View>)

  ghost function Look(n: Node?, d: nat, g: set<Node>): View
    requires Closed(g) && (n != null ==> n in g)
    reads g
    decreases d
  {
    if n == null || d == 0 then Nothing
    else
      assert LinksInto(n, g);
      var ns := n.neighbors;
      Sight(n.val, seq(|ns|, i requires 0 <= i < |ns| && Closed(g) && AllIn(ns, g) reads g => Look(ns[i], d - 1, g)))
  }

  lemma {:induction false} ImageIsClosed(m: map<Node, Node>)
    requires AllCopied(m, {})
    ensures Closed(m.Values)
  {
    forall c | c in m.Values ensures LinksInto(c, m.Values) {
      var k :| k in m && m[k] == c;
      assert CopyOf(m, k, c);
      forall i | 0 <= i < |c.neighbors| && c.neighbors[i] != null ensures c.neighbors[i] in m.Values {
        assert Corresponds(m, k.neighbors[i], c.neighbors[i]);
      }
    }
  }

  /** From any node, walks of any length see the same in the copy as in the original. */
  lemma {:induction false} LooksTheSame(m: map<Node, Node>, k: Node, d: nat)
    requires AllCopied(m, {}) && k in m
    ensures Closed(m.Keys) && Closed(m.Values)
    ensures Look(m[k], d, m.Values) == Look(k, d, m.Keys)
    decreases d
  {
    CopiedIsClosed(m);
    ImageIsClosed(m);
    if d > 0 {
      var c := m[k];
      assert CopyOf(m, k, c) && LinksInto(k, m.Keys) && LinksInto(c, m.Values);
      forall i | 0 <= i < |k.neighbors|
        ensures Look(c.neighbors[i], d - 1, m.Values) == Look(k.neighbors[i], d - 1, m.Keys)
      {
        assert Corresponds(m, k.neighbors[i], c.neighbors[i]);
        if k.neighbors[i] != null { LooksTheSame(m, k.neighbors[i], d - 1); }
      }
      assert Look(c, d, m.Values).kids == Look(k, d, m.Keys).kids;
    }
  }
}
