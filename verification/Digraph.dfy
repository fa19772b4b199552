/**
 The graphs of language/python/standard-library/data_structures: a dictionary from nodes to lists of
 neighbours, that is its keys in the order they were inserted, and the lists.  A neighbour need not be
 a key, and may be listed more than once.
*/
module Digraph {
  import opened Sequences

  datatype Graph<T> = Graph(keys: seq<T>, lists: map<T, seq<T>>)

  ghost predicate Valid<T(!new)>(g: Graph<T>) {
    && Distinct(g.keys)
    && (forall k :: k in g.lists <==> k in g.keys)
  }

  /** A node's list, empty when it is no key. */
  function Neighbors<T(==)>(g: Graph<T>, u: T): seq<T> {
    if u in g.lists then g.lists[u] else []
  }

  ghost predicate Edge<T>(g: Graph<T>, u: T, v: T) {
    v in Neighbors(g, u)
  }

  ghost predicate IsPath<T>(g: Graph<T>, p: seq<T>) {
    |p| >= 2 ==> Edge(g, p[0], p[1]) && IsPath(g, p[1..])
  }

  lemma {:induction false} PathPrefix<T>(g: Graph<T>, p: seq<T>, n: nat)
    requires IsPath(g, p) && n <= |p|
    ensures IsPath(g, p[..n])
  {
    if n >= 2 {
      PathPrefix(g, p[1..], n - 1);
      assert p[..n][1..] == p[1..][..n - 1];
    }
  }

  lemma {:induction false} DistinctIsSmall<T>(s: seq<T>, all: set<T>)
    requires Distinct(s) && forall v :: v in s ==> v in all
    ensures |s| <= |all|
  {
    if s != [] {
      var last := s[|s| - 1];
      DistinctIsSmall(s[..|s| - 1], all - {last});
    }
  }

  lemma {:induction false} SameSize<T>(s: seq<T>, all: set<T>)
    requires Distinct(s) && forall v :: v in s <==> v in all
    ensures |s| == |all|
  {
    if s == [] {
      assert all == {};
    } else {
      var last := s[|s| - 1];
      SameSize(s[..|s| - 1], all - {last});
    }
  }
}
