/**
 The two LRU caches: the dictionary over a doubly linked list of
 language/python/standard-library/data_structures/lru_cache.py and the insertion-ordered Map of
 language/typescript/standard-library/data-structures/lruCache.ts.
*/
module LruCache {
  import opened Sequences
  import opened Wrappers

  datatype Pair<K, V> = Pair(key: K, value: V)

  // ----- the value of a cache: its pairs, the most recently used first -----

  predicate Has<K(==), V>(s: seq<Pair<K, V>>, k: K) {
    exists i :: 0 <= i < |s| && s[i].key == k
  }

  ghost predicate DistinctKeys<K, V>(s: seq<Pair<K, V>>) {
    forall i, j :: 0 <= i < j < |s| ==> s[i].key != s[j].key
  }

  function Lookup<K(==), V>(s: seq<Pair<K, V>>, k: K): Option<V> {
    if s == [] then None else if s[0].key == k then Some(s[0].value) else Lookup(s[1..], k)
  }

  function Without<K(==), V>(s: seq<Pair<K, V>>, k: K): seq<Pair<K, V>> {
    if s == [] then [] else (if s[0].key == k then [] else [s[0]]) + Without(s[1..], k)
  }

  datatype Op<K, V> = Get(key: K) | Put(key: K, value: V) | Contains(key: K) | Len

  datatype Answer<V> = Got(value: Option<V>) | Stored | Is(b: bool) | Count(n: nat)

  /** The linked cache: a new pair goes to the front, and then a pair too many leaves at the back. */
  function After<K(==), V>(capacity: nat, s: seq<Pair<K, V>>, op: Op<K, V>): seq<Pair<K, V>> {
    match op
    case Get(k) => (
      match Lookup(s, k)
      case None => s
      case Some(v) => [Pair(k, v)] + Without(s, k)
    )
    case Put(k, v) =>
      if Lookup(s, k).Some? then [Pair(k, v)] + Without(s, k)
      else if |s| + 1 > capacity then [Pair(k, v)] + (if s == [] then [] else s[..|s| - 1])
      else [Pair(k, v)] + s
    case Contains(_) => s
    case Len => s
  }

  function Reply<K(==), V>(s: seq<Pair<K, V>>, op: Op<K, V>): Answer<V> {
    match op
    case Get(k) => Got(Lookup(s, k))
    case Put(_, _) => Stored
    case Contains(k) => Is(Lookup(s, k).Some?)
    case Len => Count(|s|)
  }

  /** The Map cache, its oldest entry first: at capacity the first key leaves, and then the pair is appended. */
  function MapAfter<K(==), V>(capacity: nat, m: seq<Pair<K, V>>, op: Op<K, V>): seq<Pair<K, V>> {
    match op
    case Get(k) => (
      match Lookup(m, k)
      case None => m
      case Some(v) => Without(m, k) + [Pair(k, v)]
    )
    case Put(k, v) =>
      if Lookup(m, k).Some? then Without(m, k) + [Pair(k, v)]
      else if |m| >= capacity then (if m == [] then [] else Without(m, m[0].key)) + [Pair(k, v)]
      else m + [Pair(k, v)]
    case Contains(_) => m
    case Len => m
  }

  // ----- facts about the value -----

  lemma {:induction false} LookupFinds<K, V>(s: seq<Pair<K, V>>, k: K)
    ensures Lookup(s, k).Some? <==> Has(s, k)
    ensures Lookup(s, k).Some? ==> exists i :: 0 <= i < |s| && s[i] == Pair(k, Lookup(s, k).value)
  {
    if s != [] {
      LookupFinds(s[1..], k);
      assert s == [s[0]] + s[1..];
      if s[0].key != k && Has(s, k) {
        var i :| 0 <= i < |s| && s[i].key == k;
        assert s[1..][i - 1].key == k;
      }
    }
  }

  lemma {:induction false} LookupAt<K, V>(s: seq<Pair<K, V>>, i: nat)
    requires DistinctKeys(s) && i < |s|
    ensures Lookup(s, s[i].key) == Some(s[i].value)
  {
    if i > 0 {
      assert s[0].key != s[i].key;
      LookupAt(s[1..], i - 1);
    }
  }

  lemma {:induction false} WithoutAbsent<K, V>(s: seq<Pair<K, V>>, k: K)
    requires forall i :: 0 <= i < |s| ==> s[i].key != k
    ensures Without(s, k) == s
  {
    if s != [] { WithoutAbsent(s[1..], k); }
  }

  lemma {:induction false} WithoutJoins<K, V>(a: seq<Pair<K, V>>, b: seq<Pair<K, V>>, k: K)
    ensures Without(a + b, k) == Without(a, k) + Without(b, k)
  {
    if a == [] {
      assert a + b == b;
    } else {
      assert (a + b)[1..] == a[1..] + b;
      WithoutJoins(a[1..], b, k);
    }
  }

  /** s without the pair in place i; s itself when there is no such place. */
  function Drop<T>(s: seq<T>, i: nat): seq<T> {
    if i < |s| then s[..i] + s[i + 1..] else s
  }

  /** With distinct keys, one pair is taken out and the others stay in place. */
  lemma {:induction false} WithoutAt<K, V>(s: seq<Pair<K, V>>, i: nat)
    requires DistinctKeys(s) && i < |s|
    ensures Without(s, s[i].key) == Drop(s, i)
  {
    if i == 0 {
      WithoutAbsent(s[1..], s[0].key);
    } else {
      assert s[0].key != s[i].key;
      WithoutAt(s[1..], i - 1);
      DropTail(s, i);
    }
  }

  lemma {:induction false} DropTail<T>(s: seq<T>, i: nat)
    requires 0 < i < |s|
    ensures Drop(s, i) == [s[0]] + Drop(s[1..], i - 1)
  {
    assert s[..i] == [s[0]] + s[1..][..i - 1];
    assert s[i + 1..] == s[1..][i..];
  }

  /** Place i is where the pair of the key used was, or of the pair that had to leave for it, if any. */
  ghost predicate Moved<K, V>(capacity: nat, s: seq<Pair<K, V>>, p: Pair<K, V>, i: nat) {
    if i < |s| then s[i].key == p.key || (!Has(s, p.key) && i == |s| - 1 && |s| >= capacity)
    else i == |s| && !Has(s, p.key) && |s| < capacity
  }

  /** An operation either uses no key and changes nothing, or puts the pair of the key used in front. */
  lemma {:induction false} AfterShape<K, V>(capacity: nat, s: seq<Pair<K, V>>, op: Op<K, V>)
      returns (p: Pair<K, V>, i: nat)
    requires DistinctKeys(s) && capacity > 0 && (op.Put? || (op.Get? && Lookup(s, op.key).Some?))
    ensures p.key == op.key && (if op.Put? then p.value == op.value else i < |s| && s[i] == p)
    ensures Moved(capacity, s, p, i)
    ensures After(capacity, s, op) == [p] + Drop(s, i)
  {
    LookupFinds(s, op.key);
    if Has(s, op.key) {
      i :| 0 <= i < |s| && s[i].key == op.key;
      LookupAt(s, i);
      WithoutAt(s, i);
      p := Pair(op.key, if op.Put? then op.value else s[i].value);
    } else {
      p := Pair(op.key, op.value);
      i := if |s| + 1 > capacity then |s| - 1 else |s|;
      if i < |s| {
        assert s[i + 1..] == [];
      }
    }
  }

  lemma {:induction false} MovedDistinct<K, V>(capacity: nat, s: seq<Pair<K, V>>, p: Pair<K, V>, i: nat)
    requires DistinctKeys(s) && |s| <= capacity && capacity > 0 && Moved(capacity, s, p, i)
    ensures var s' := [p] + Drop(s, i); DistinctKeys(s') && |s'| <= capacity
  {
    var s' := [p] + Drop(s, i);
    forall j, k | 0 <= j < k < |s'| ensures s'[j].key != s'[k].key {
      var jj, kk := if j <= i then j - 1 else j, if k <= i then k - 1 else k;
      assert s'[k] == s[kk];
      if j > 0 {
        assert s'[j] == s[jj];
      }
    }
  }

  lemma {:induction false} AfterDistinct<K, V>(capacity: nat, s: seq<Pair<K, V>>, op: Op<K, V>)
    requires DistinctKeys(s) && |s| <= capacity && capacity > 0
    ensures DistinctKeys(After(capacity, s, op)) && |After(capacity, s, op)| <= capacity
  {
    if op.Put? || (op.Get? && Lookup(s, op.key).Some?) {
      var p, i := AfterShape(capacity, s, op);
      MovedDistinct(capacity, s, p, i);
    }
  }

  // ----- both caches answer alike -----

  lemma {:induction false} ReversedFront<T>(x: T, s: seq<T>)
    ensures Reversed([x] + s) == Reversed(s) + [x]
  {
    var r := Reversed([x] + s);
    forall i | 0 <= i < |r| ensures r[i] == (Reversed(s) + [x])[i] {
      assert r[i] == ([x] + s)[|s| - i];
    }
  }

  lemma {:induction false} ReversedWithout<K, V>(s: seq<Pair<K, V>>, k: K)
    ensures Reversed(Without(s, k)) == Without(Reversed(s), k)
  {
    if s != [] {
      var x, rest := s[0], s[1..];
      assert s == [x] + rest;
      ReversedFront(x, rest);
      ReversedFront(x, Without(rest, k));
      ReversedWithout(rest, k);
      WithoutJoins(Reversed(rest), [x], k);
      assert Without([x], k) == if x.key == k then [] else [x];
    }
  }

  lemma {:induction false} ReversedLookup<K, V>(s: seq<Pair<K, V>>, k: K)
    requires DistinctKeys(s)
    ensures Lookup(Reversed(s), k) == Lookup(s, k)
    ensures DistinctKeys(Reversed(s))
  {
    var r := Reversed(s);
    LookupFinds(s, k);
    LookupFinds(r, k);
    if Has(s, k) {
      var i :| 0 <= i < |s| && s[i].key == k;
      LookupAt(s, i);
      assert r[|s| - 1 - i] == s[i];
      LookupAt(r, |s| - 1 - i);
    } else {
      forall i | 0 <= i < |r| ensures r[i].key != k {
        assert s[|s| - 1 - i].key != k;
      }
    }
  }

  ghost predicate Agree<K, V>(capacity: nat, s: seq<Pair<K, V>>, m: seq<Pair<K, V>>) {
    capacity > 0 && DistinctKeys(s) && |s| <= capacity && m == Reversed(s)
  }

  lemma {:induction false} AgreeReply<K, V>(s: seq<Pair<K, V>>, op: Op<K, V>)
    requires DistinctKeys(s)
    ensures Reply(s, op) == Reply(Reversed(s), op)
  {
    if !op.Len? { ReversedLookup(s, op.key); }
  }

  /** A pair found is moved to the front, and in the Map to the end. */
  lemma {:induction false} AgreeFound<K, V>(s: seq<Pair<K, V>>, k: K, v: V)
    ensures Without(Reversed(s), k) + [Pair(k, v)] == Reversed([Pair(k, v)] + Without(s, k))
  {
    ReversedWithout(s, k);
    ReversedFront(Pair(k, v), Without(s, k));
  }

  /** At capacity the last pair leaves, which is the Map's first. */
  lemma {:induction false} AgreeFull<K, V>(s: seq<Pair<K, V>>, p: Pair<K, V>)
    requires DistinctKeys(s) && s != []
    ensures Reversed(s) != [] && Without(Reversed(s), Reversed(s)[0].key) + [p] == Reversed([p] + s[..|s| - 1])
  {
    ReversedLookup(s, p.key);
    WithoutAt(Reversed(s), 0);
    ReversedFront(p, s[..|s| - 1]);
    assert Reversed(s) == [s[|s| - 1]] + Reversed(s[..|s| - 1]);
  }

  lemma {:induction false} AgreeAfter<K, V>(capacity: nat, s: seq<Pair<K, V>>, m: seq<Pair<K, V>>, op: Op<K, V>)
    requires Agree(capacity, s, m)
    ensures Agree(capacity, After(capacity, s, op), MapAfter(capacity, m, op))
    ensures Reply(s, op) == Reply(m, op)
  {
    AfterDistinct(capacity, s, op);
    AgreeReply(s, op);
    if op.Put? || op.Get? {
      ReversedLookup(s, op.key);
      if Lookup(s, op.key).Some? {
        AgreeFound(s, op.key, if op.Put? then op.value else Lookup(s, op.key).value);
      } else if op.Put? && |s| == capacity {
        AgreeFull(s, Pair(op.key, op.value));
      } else if op.Put? {
        ReversedFront(Pair(op.key, op.value), s);
      }
    }
  }

  function Answers<K(==), V>(capacity: nat, s: seq<Pair<K, V>>, ops: seq<Op<K, V>>): seq<Answer<V>>
    decreases |ops|
  {
    if ops == [] then [] else [Reply(s, ops[0])] + Answers(capacity, After(capacity, s, ops[0]), ops[1..])
  }

  function MapAnswers<K(==), V>(capacity: nat, m: seq<Pair<K, V>>, ops: seq<Op<K, V>>): seq<Answer<V>>
    decreases |ops|
  {
    if ops == [] then [] else [Reply(m, ops[0])] + MapAnswers(capacity, MapAfter(capacity, m, ops[0]), ops[1..])
  }

  lemma {:induction false} SameAnswersFrom<K, V>(capacity: nat, s: seq<Pair<K, V>>, m: seq<Pair<K, V>>,
                                                 ops: seq<Op<K, V>>)
    requires Agree(capacity, s, m)
    ensures Answers(capacity, s, ops) == MapAnswers(capacity, m, ops)
    decreases |ops|
  {
    if ops != [] {
      AgreeAfter(capacity, s, m, ops[0]);
      SameAnswersFrom(capacity, After(capacity, s, ops[0]), MapAfter(capacity, m, ops[0]), ops[1..]);
    }
  }

  /** Whatever the operations, the two caches give the same answers. */
  lemma {:induction false} SameAnswers<K, V>(capacity: nat, ops: seq<Op<K, V>>)
    requires capacity > 0
    ensures Answers(capacity, [], ops) == MapAnswers(capacity, [], ops)
  {
    SameAnswersFrom(capacity, [], [], ops);
  }

  // ----- what the cache holds -----

  ghost function Contents<K, V>(capacity: nat, ops: seq<Op<K, V>>): seq<Pair<K, V>> {
    if ops == [] then [] else After(capacity, Contents(capacity, ops[..|ops| - 1]), ops[|ops| - 1])
  }

  /** Whether the last operation of ops uses k: it puts it, or gets it while it is there. */
  ghost predicate Uses<K, V>(capacity: nat, ops: seq<Op<K, V>>, k: K)
    requires ops != []
  {
    var op, before := ops[|ops| - 1], Contents(capacity, ops[..|ops| - 1]);
    (op.Put? && op.key == k) || (op.Get? && op.key == k && Lookup(before, k).Some?)
  }

  /** The time of the last use of k, 0 when there was none. */
  ghost function LastUse<K, V>(capacity: nat, ops: seq<Op<K, V>>, k: K): nat {
    if ops == [] then 0 else if Uses(capacity, ops, k) then |ops| else LastUse(capacity, ops[..|ops| - 1], k)
  }

  /** The value last put under k. */
  ghost function LastPut<K, V>(ops: seq<Op<K, V>>, k: K): Option<V> {
    if ops == [] then None
    else if ops[|ops| - 1].Put? && ops[|ops| - 1].key == k then Some(ops[|ops| - 1].value)
    else LastPut(ops[..|ops| - 1], k)
  }

  lemma {:induction false} LastUseBound<K, V>(capacity: nat, ops: seq<Op<K, V>>, k: K)
    ensures LastUse(capacity, ops, k) <= |ops|
  {
    if ops != [] { LastUseBound(capacity, ops[..|ops| - 1], k); }
  }

  /** s lists keys by their last use, latest first, each with the value last put under it. */
  ghost predicate Ranked<K, V>(s: seq<Pair<K, V>>, last: K -> nat, put: K -> Option<V>) {
    && (forall i, j :: 0 <= i < j < |s| ==> last(s[i].key) > last(s[j].key))
    && (forall i :: 0 <= i < |s| ==> last(s[i].key) > 0 && put(s[i].key) == Some(s[i].value))
  }

  /** The cache is full, of keys used after k. */
  ghost predicate Outranked<K, V>(capacity: nat, s: seq<Pair<K, V>>, last: K -> nat, k: K) {
    |s| == capacity && forall i :: 0 <= i < |s| ==> last(s[i].key) > last(k)
  }

  ghost predicate MostRecent<K(!new), V>(capacity: nat, s: seq<Pair<K, V>>, last: K -> nat, put: K -> Option<V>) {
    && DistinctKeys(s) && |s| <= capacity && Ranked(s, last, put)
    && (forall k {:trigger Has(s, k)} :: last(k) > 0 && !Has(s, k) ==> Outranked(capacity, s, last, k))
  }

  /** After any operations the cache lists, latest use first, the keys used last, each with the value last
      put under it; a key once used is missing only from a full cache whose every key was used later. */
  lemma {:induction false} HoldsMostRecent<K(!new), V(!new)>(capacity: nat, ops: seq<Op<K, V>>)
    requires capacity > 0
    ensures MostRecent(capacity, Contents(capacity, ops), k => LastUse(capacity, ops, k), k => LastPut(ops, k))
  {
    if ops != [] {
      var before, op := ops[..|ops| - 1], ops[|ops| - 1];
      HoldsMostRecent(capacity, before);
      var s := Contents(capacity, before);
      if op.Put? || (op.Get? && Lookup(s, op.key).Some?) {
        var p, i := AfterShape(capacity, s, op);
        forall k ensures LastUse(capacity, before, k) < |ops| {
          LastUseBound(capacity, before, k);
        }
        MostRecentMoved(capacity, s, p, i, |ops|, k => LastUse(capacity, before, k), k => LastUse(capacity, ops, k),
                        k => LastPut(before, k), k => LastPut(ops, k));
      } else {
        MostRecentKept(capacity, s, k => LastUse(capacity, before, k), k => LastUse(capacity, ops, k),
                       k => LastPut(before, k), k => LastPut(ops, k));
      }
    }
  }

  /** So a get answers with the value last put under the key, if the cache still has it, and with nothing otherwise. */
  lemma {:induction false} GetsLastPut<K(!new), V(!new)>(capacity: nat, ops: seq<Op<K, V>>, k: K)
    requires capacity > 0
    ensures var s := Contents(capacity, ops);
      Reply(s, Op.Get(k)) == Got(if Has(s, k) then LastPut(ops, k) else None)
  {
    var s := Contents(capacity, ops);
    HoldsMostRecent(capacity, ops);
    LookupFinds(s, k);
  }

  lemma {:induction false} MostRecentKept<K(!new), V>(capacity: nat, s: seq<Pair<K, V>>, last: K -> nat,
                                                      last': K -> nat, put: K -> Option<V>, put': K -> Option<V>)
    requires MostRecent(capacity, s, last, put) && forall k :: last'(k) == last(k) && put'(k) == put(k)
    ensures MostRecent(capacity, s, last', put')
  {
    forall k | last'(k) > 0 && !Has(s, k) ensures Outranked(capacity, s, last', k) {
      assert Outranked(capacity, s, last, k);
    }
  }

  lemma {:induction false} MostRecentMoved<K(!new), V>(capacity: nat, s: seq<Pair<K, V>>, p: Pair<K, V>, i: nat,
                                                       now: nat, last: K -> nat, last': K -> nat,
                                                       put: K -> Option<V>, put': K -> Option<V>)
    requires capacity > 0 && MostRecent(capacity, s, last, put) && Moved(capacity, s, p, i)
    requires forall k :: last(k) < now && last'(k) == if k == p.key then now else last(k)
    requires forall k :: put'(k) == if k == p.key then Some(p.value) else put(k)
    ensures MostRecent(capacity, [p] + Drop(s, i), last', put')
  {
    MovedDistinct(capacity, s, p, i);
    RankedMoved(capacity, s, p, i, now, last, last', put, put');
    forall k | last'(k) > 0 && !Has([p] + Drop(s, i), k) ensures Outranked(capacity, [p] + Drop(s, i), last', k) {
      MissingOutranked(capacity, s, p, i, now, last, last', k);
    }
  }

  lemma {:induction false} RankedMoved<K(!new), V>(capacity: nat, s: seq<Pair<K, V>>, p: Pair<K, V>, i: nat, now: nat,
                                                   last: K -> nat, last': K -> nat,
                                                   put: K -> Option<V>, put': K -> Option<V>)
    requires Ranked(s, last, put) && DistinctKeys([p] + Drop(s, i)) && i <= |s|
    requires forall k :: last(k) < now && last'(k) == if k == p.key then now else last(k)
    requires forall k :: put'(k) == if k == p.key then Some(p.value) else put(k)
    ensures Ranked([p] + Drop(s, i), last', put')
  {
    var s' := [p] + Drop(s, i);
    forall j | 0 < j < |s'| ensures s'[j].key != p.key && s'[j] == s[if j <= i then j - 1 else j] {
      assert s'[0].key != s'[j].key;
    }
    forall j, k | 0 <= j < k < |s'| ensures last'(s'[j].key) > last'(s'[k].key) {
      if j > 0 {
        assert last(s[if j <= i then j - 1 else j].key) > last(s[if k <= i then k - 1 else k].key);
      }
    }
  }

  /** A key missing afterwards was used before all pairs that stay, and the cache was full. */
  lemma {:induction false} StayersOutrank<K, V>(capacity: nat, s: seq<Pair<K, V>>, p: Pair<K, V>, i: nat,
                                                last: K -> nat, k: K)
    requires |s| <= capacity && Moved(capacity, s, p, i) && k != p.key && !Has(Drop(s, i), k)
    requires forall j, m :: 0 <= j < m < |s| ==> last(s[j].key) > last(s[m].key)
    requires !Has(s, k) ==> Outranked(capacity, s, last, k)
    ensures |s| == capacity && i < |s| && forall j :: 0 <= j < |s| && j != i ==> last(s[j].key) > last(k)
  {
    forall m | 0 <= m < |s| && m != i ensures s[m].key != k {
      assert Drop(s, i)[if m < i then m else m - 1] == s[m];
    }
  }

  lemma {:induction false} MissingOutranked<K, V>(capacity: nat, s: seq<Pair<K, V>>, p: Pair<K, V>, i: nat, now: nat,
                                                  last: K -> nat, last': K -> nat, k: K)
    requires |s| <= capacity && Moved(capacity, s, p, i) && DistinctKeys([p] + Drop(s, i))
    requires forall j, m :: 0 <= j < m < |s| ==> last(s[j].key) > last(s[m].key)
    requires last(k) > 0 && !Has(s, k) ==> Outranked(capacity, s, last, k)
    requires forall k :: last(k) < now && last'(k) == if k == p.key then now else last(k)
    requires last'(k) > 0 && !Has([p] + Drop(s, i), k)
    ensures Outranked(capacity, [p] + Drop(s, i), last', k)
  {
    var s' := [p] + Drop(s, i);
    assert s'[0].key != k;
    forall j | 0 <= j < |Drop(s, i)| ensures Drop(s, i)[j].key != k {
      assert s'[j + 1].key != k;
    }
    StayersOutrank(capacity, s, p, i, last, k);
    forall j | 0 < j < |s'| ensures last'(s'[j].key) > last(k) {
      assert s'[0].key != s'[j].key;
      assert s'[j] == s[if j <= i then j - 1 else j];
    }
  }

  // ----- the doubly linked cache -----

  class Node<K(0), V(0)> {
    const key: K
    var value: V
    var prev: Node?<K, V>
    var next: Node?<K, V>

    constructor (key: K, value: V)
      ensures this.key == key && this.value == value
    {
      this.key, this.value, prev, next := key, value, null, null;
    }

    constructor Sentinel()
    {
      key, value, prev, next := *, *, null, null;
    }
  }

  ghost predicate Link<K(0), V(0)>(spine: seq<Node<K, V>>, i: nat)
    requires i + 1 < |spine|
    reads spine`next, spine`prev
  {
    spine[i].next == spine[i + 1] && spine[i + 1].prev == spine[i]
  }

  /** The nodes from one sentinel to the other, all different, each link going both ways. */
  ghost predicate Chain<K(0), V(0)>(spine: seq<Node<K, V>>)
    reads spine`next, spine`prev
  {
    && |spine| >= 2 && Distinct(spine)
    && (forall i {:trigger Link(spine, i)} :: 0 <= i && i + 1 < |spine| ==> Link(spine, i))
  }

  ghost function Inner<T>(spine: seq<T>): seq<T>
    requires |spine| >= 2
  {
    spine[1..|spine| - 1]
  }

  ghost predicate Shows<K(0), V(0)>(nodes: seq<Node<K, V>>, s: seq<Pair<K, V>>, i: nat)
    requires i < |nodes| && i < |s|
    reads nodes`value
  {
    s[i] == Pair(nodes[i].key, nodes[i].value)
  }

  ghost predicate Mirrors<K(0), V(0)>(nodes: seq<Node<K, V>>, s: seq<Pair<K, V>>)
    reads nodes`value
  {
    |s| == |nodes| && forall i {:trigger Shows(nodes, s, i)} :: 0 <= i < |s| ==> Shows(nodes, s, i)
  }

  ghost predicate IndexedAt<K(0), V(0)>(cache: map<K, Node<K, V>>, nodes: seq<Node<K, V>>, i: nat)
    requires i < |nodes|
  {
    nodes[i].key in cache && cache[nodes[i].key] == nodes[i]
  }

  ghost predicate KeyListed<K(0), V(0)>(cache: map<K, Node<K, V>>, nodes: seq<Node<K, V>>, k: K)
    requires k in cache
  {
    cache[k].key == k && exists i :: 0 <= i < |nodes| && nodes[i] == cache[k]
  }

  /** The dictionary maps exactly the keys of the nodes to the nodes. */
  ghost predicate Indexes<K(0), V(0)>(cache: map<K, Node<K, V>>, nodes: seq<Node<K, V>>) {
    && |cache| == |nodes| && Distinct(nodes)
    && (forall i {:trigger IndexedAt(cache, nodes, i)} :: 0 <= i < |nodes| ==> IndexedAt(cache, nodes, i))
    && (forall k {:trigger KeyListed(cache, nodes, k)} :: k in cache ==> KeyListed(cache, nodes, k))
  }

  class LRUCache<K(0, ==), V(0)> {
    const capacity: nat
    var cache: map<K, Node<K, V>>
    const head: Node<K, V>
    const tail: Node<K, V>
    /** head, the nodes in the list, tail */
    ghost var spine: seq<Node<K, V>>
    /** the pairs of the nodes in the list */
    ghost var contents: seq<Pair<K, V>>

    ghost predicate Listed()
      reads this, spine`next, spine`prev
    {
      Chain(spine) && spine[0] == head && spine[|spine| - 1] == tail
    }

    ghost predicate Valid()
      reads this, spine
    {
      && Listed() && Indexes(cache, Inner(spine)) && Mirrors(Inner(spine), contents)
      && |cache| <= capacity && capacity > 0
    }

    constructor (capacity: nat)
      requires capacity > 0
      ensures Valid() && fresh(spine) && this.capacity == capacity && contents == []
    {
      this.capacity, cache := capacity, map[];
      var h := new Node.Sentinel();
      var t := new Node.Sentinel();
      h.next, t.prev := t, h;
      head, tail, spine, contents := h, t, [h, t], [];
    }

    method AddToHead(node: Node<K, V>)
      requires Listed() && node !in spine
      modifies this`spine, node`prev, node`next, head`next, {spine[1]}`prev
      ensures Listed() && spine == [head, node] + old(spine)[1..]
    {
      assert Link(spine, 0);
      node.prev, node.next := head, head.next;
      head.next.prev := node;
      head.next := node;
      ghost var was := spine;
      spine := [head, node] + was[1..];
      forall i | 0 <= i && i + 1 < |spine| ensures Link(spine, i) {
        if i >= 2 { assert old(Link(was, i - 1)); }
      }
    }

    method Remove(node: Node<K, V>, ghost i: nat)
      requires Listed() && 0 < i < |spine| - 1 && spine[i] == node
      modifies this`spine, {spine[i - 1]}`next, {spine[i + 1]}`prev
      ensures Listed() && spine == Drop(old(spine), i)
    {
      assert Link(spine, i - 1) && Link(spine, i);
      node.prev.next := node.next;
      node.next.prev := node.prev;
      ghost var was := spine;
      spine := Drop(was, i);
      forall j | 0 <= j && j + 1 < |spine| ensures Link(spine, j) {
        if j < i - 1 {
          assert old(Link(was, j));
        } else if j >= i {
          assert old(Link(was, j + 1));
        }
      }
    }

    method MoveToHead(node: Node<K, V>, ghost i: nat)
      requires Listed() && 0 < i < |spine| - 1 && spine[i] == node
      modifies this`spine, spine`next, spine`prev
      ensures Listed() && Inner(spine) == [node] + Drop(Inner(old(spine)), i - 1)
      ensures forall n :: n in spine ==> n in old(spine)
    {
      ghost var was := spine;
      DropInner(was, i);
      Remove(node, i);
      assert node !in spine;
      FrontInner(spine, head, node);
      AddToHead(node);
      forall n | n in spine ensures n in was {
        assert n == was[0] || n == was[i] || n in Drop(was, i);
      }
    }

    /** The node taken is the last before the tail. */
    method RemoveTail() returns (node: Node<K, V>)
      requires Listed() && |spine| > 2
      modifies this`spine, spine`next, spine`prev
      ensures Listed() && Inner(old(spine)) == Inner(spine) + [node]
      ensures forall n :: n in spine ==> n in old(spine)
    {
      ghost var was, i := spine, |spine| - 2;
      assert Link(was, i);
      node := tail.prev;
      DropInner(was, i);
      Remove(node, i);
    }

    method Get(key: K) returns (r: Result<V, K>)
      requires Valid()
      modifies this`spine, this`contents, spine`next, spine`prev
      ensures Valid() && forall n :: n in spine ==> n in old(spine)
      ensures contents == After(capacity, old(contents), Op.Get(key))
      ensures r == match Lookup(old(contents), key) case None => Err(key) case Some(v) => Ok(v)
    {
      ghost var nodes := Inner(spine);
      if key !in cache {
        Miss(cache, nodes, contents, key);
        return Err(key);
      }
      ghost var i := Hit(capacity, cache, nodes, contents, Op.Get(key));
      var node := cache[key];
      assert spine[i + 1] == node;
      MirrorsMoved(nodes, contents, Pair(key, node.value), i);
      contents := [Pair(key, node.value)] + Drop(contents, i);
      ghost var nodes' := [node] + Drop(nodes, i);
      assert Mirrors(nodes', contents);
      MoveToHead(node, i + 1);
      assert Inner(spine) == nodes' && Mirrors(nodes', contents);
      return Ok(node.value);
    }

    method Put(key: K, value: V)
      requires Valid()
      modifies this`spine, this`cache, this`contents, spine
      ensures Valid() && forall n :: n in spine ==> n in old(spine) || fresh(n)
      ensures contents == After(capacity, old(contents), Op.Put(key, value))
    {
      if key in cache {
        PutOld(key, value);
      } else {
        PutNew(key, value);
      }
    }

    method PutOld(key: K, value: V)
      requires Valid() && key in cache
      modifies this`spine, this`contents, spine
      ensures Valid() && forall n :: n in spine ==> n in old(spine)
      ensures contents == After(capacity, old(contents), Op.Put(key, value))
    {
      ghost var nodes := Inner(spine);
      ghost var i := Hit(capacity, cache, nodes, contents, Op.Put(key, value));
      var node := cache[key];
      assert spine[i + 1] == node;
      StoreValue(node, value, nodes, contents, i);
      contents := [Pair(key, value)] + Drop(contents, i);
      ghost var nodes' := [node] + Drop(nodes, i);
      assert Mirrors(nodes', contents);
      MoveToHead(node, i + 1);
      assert Inner(spine) == nodes' && Mirrors(nodes', contents);
    }

    method StoreValue(node: Node<K, V>, value: V, ghost nodes: seq<Node<K, V>>, ghost s: seq<Pair<K, V>>, ghost i: nat)
      requires Mirrors(nodes, s) && Distinct(nodes) && i < |nodes| && nodes[i] == node
      modifies node`value
      ensures node.value == value
      ensures Mirrors([node] + Drop(nodes, i), [Pair(node.key, value)] + Drop(s, i))
    {
      node.value := value;
      forall j | 0 <= j < |s| && j != i ensures Shows(nodes, s, j) {
        assert old(Shows(nodes, s, j)) && nodes[j] != node;
      }
      MirrorsMoved(nodes, s, Pair(node.key, value), i);
    }

    method PutNew(key: K, value: V)
      requires Valid() && key !in cache
      modifies this`spine, this`cache, this`contents, spine`next, spine`prev
      ensures Valid() && forall n :: n in spine ==> n in old(spine) || fresh(n)
      ensures contents == After(capacity, old(contents), Op.Put(key, value))
    {
      Miss(cache, Inner(spine), contents, key);
      PutMissed(capacity, contents, Pair(key, value));
      InsertNew(key, value);
      if |cache| > capacity {
        Evict();
      }
    }

    /** A new node, in the dictionary and at the front. */
    method InsertNew(key: K, value: V)
      requires Valid() && key !in cache
      modifies this`spine, this`cache, this`contents, spine`next, spine`prev
      ensures Listed() && Indexes(cache, Inner(spine)) && Mirrors(Inner(spine), contents)
      ensures |cache| == old(|cache|) + 1 && contents == [Pair(key, value)] + old(contents)
      ensures |spine| >= 2 && fresh(spine[1]) && spine == [head, spine[1]] + old(spine)[1..]
    {
      var node := new Node(key, value);
      ghost var nodes' := [node] + Inner(spine);
      FrontInner(spine, head, node);
      IndexesFront(cache, Inner(spine), node);
      MirrorsFront(Inner(spine), contents, node);
      cache := cache[key := node];
      contents := [Pair(key, value)] + contents;
      AddToHead(node);
      assert Inner(spine) == nodes' && Mirrors(nodes', contents) && Indexes(cache, nodes');
    }

    method Contains(key: K) returns (r: bool)
      requires Valid()
      ensures r <==> Has(contents, key)
    {
      r := key in cache;
      MirrorsDistinct(cache, Inner(spine), contents);
      LookupFinds(contents, key);
    }

    method Length() returns (n: nat)
      requires Valid()
      ensures n == |contents|
    {
      n := |cache|;
    }

    /** What iteration yields: the keys, the most recently used first. */
    method Keys() returns (keys: seq<K>)
      requires Valid()
      ensures |keys| == |contents| && forall i :: 0 <= i < |keys| ==> keys[i] == contents[i].key
    {
      keys := [];
      assert Link(spine, 0);
      var node := head.next;
      while node != null && node != tail
        invariant |keys| <= |contents| && node == spine[|keys| + 1]
        invariant forall i :: 0 <= i < |keys| ==> keys[i] == contents[i].key
        decreases |contents| - |keys|
      {
        assert Link(spine, |keys| + 1) && Inner(spine)[|keys|] == node;
        assert Shows(Inner(spine), contents, |keys|);
        keys := keys + [node.key];
        node := node.next;
      }
    }

    method Evict()
      requires Listed() && Indexes(cache, Inner(spine)) && Mirrors(Inner(spine), contents) && |cache| == capacity + 1
      requires capacity > 0
      modifies this`spine, this`cache, this`contents, spine`next, spine`prev
      ensures Valid() && forall n :: n in spine ==> n in old(spine)
      ensures contents == old(contents[..|contents| - 1])
    {
      IndexesBack(cache, Inner(spine));
      MirrorsBack(Inner(spine), contents);
      var removed := RemoveTail();
      cache := cache - {removed.key};
      contents := contents[..|contents| - 1];
    }
  }

  lemma {:induction false} PutMissed<K, V>(capacity: nat, s: seq<Pair<K, V>>, p: Pair<K, V>)
    requires capacity > 0 && Lookup(s, p.key) == None
    ensures After(capacity, s, Op.Put(p.key, p.value)) == if |s| + 1 > capacity then ([p] + s)[..|s|] else [p] + s
  {
    if |s| + 1 > capacity {
      assert ([p] + s)[..|s|] == [p] + s[..|s| - 1];
    }
  }

  lemma {:induction false} IndexesFront<K(0), V(0)>(cache: map<K, Node<K, V>>, nodes: seq<Node<K, V>>, node: Node<K, V>)
    requires Indexes(cache, nodes) && node.key !in cache
    ensures Indexes(cache[node.key := node], [node] + nodes)
  {
    var cache', nodes' := cache[node.key := node], [node] + nodes;
    forall i | 0 <= i < |nodes'| ensures IndexedAt(cache', nodes', i) {
      if i > 0 { assert IndexedAt(cache, nodes, i - 1); }
    }
    forall k | k in cache' ensures KeyListed(cache', nodes', k) {
      if k == node.key {
        assert nodes'[0] == cache'[k];
      } else {
        assert KeyListed(cache, nodes, k);
        var i :| 0 <= i < |nodes| && nodes[i] == cache[k];
        assert nodes'[i + 1] == cache'[k];
      }
    }
    forall i | 0 <= i < |nodes| ensures nodes[i] != node {
      assert IndexedAt(cache, nodes, i);
    }
  }

  lemma {:induction false} MirrorsFront<K(0), V(0)>(nodes: seq<Node<K, V>>, s: seq<Pair<K, V>>, node: Node<K, V>)
    requires Mirrors(nodes, s)
    ensures Mirrors([node] + nodes, [Pair(node.key, node.value)] + s)
  {
    var nodes', s' := [node] + nodes, [Pair(node.key, node.value)] + s;
    forall i | 0 <= i < |s'| ensures Shows(nodes', s', i) {
      if i > 0 { assert Shows(nodes, s, i - 1); }
    }
  }

  lemma {:induction false} IndexesBack<K(0), V(0)>(cache: map<K, Node<K, V>>, nodes: seq<Node<K, V>>)
    requires Indexes(cache, nodes) && nodes != []
    ensures Indexes(cache - {nodes[|nodes| - 1].key}, nodes[..|nodes| - 1])
  {
    var last := nodes[|nodes| - 1];
    var cache', nodes' := cache - {last.key}, nodes[..|nodes| - 1];
    assert IndexedAt(cache, nodes, |nodes| - 1);
    assert cache'.Keys == cache.Keys - {last.key};
    forall i | 0 <= i < |nodes'| ensures IndexedAt(cache', nodes', i) {
      assert IndexedAt(cache, nodes, i);
    }
    forall k | k in cache' ensures KeyListed(cache', nodes', k) {
      assert KeyListed(cache, nodes, k);
      var i :| 0 <= i < |nodes| && nodes[i] == cache[k];
      assert nodes'[i] == cache'[k];
    }
  }

  lemma {:induction false} MirrorsBack<K(0), V(0)>(nodes: seq<Node<K, V>>, s: seq<Pair<K, V>>)
    requires Mirrors(nodes, s) && nodes != []
    ensures Mirrors(nodes[..|nodes| - 1], s[..|s| - 1])
  {
    var nodes', s' := nodes[..|nodes| - 1], s[..|s| - 1];
    forall i | 0 <= i < |s'| ensures Shows(nodes', s', i) {
      assert Shows(nodes, s, i);
    }
  }

  /** LRUCache(capacity), which refuses a capacity that is not positive. */
  method NewCache<K(0, ==), V(0)>(capacity: int) returns (r: Result<LRUCache<K, V>, string>)
    ensures r.Ok? <==> capacity > 0
    ensures r.Ok? ==> r.value.Valid() && r.value.capacity == capacity && r.value.contents == []
    ensures r.Ok? ==> fresh(r.value) && fresh(r.value.spine)
  {
    if capacity <= 0 {
      return Err("capacity must be positive");
    }
    var cache := new LRUCache<K, V>(capacity);
    return Ok(cache);
  }

  lemma DropInner<T>(spine: seq<T>, i: nat)
    requires 0 < i < |spine| - 1
    ensures |Drop(spine, i)| >= 2 && Inner(Drop(spine, i)) == Drop(Inner(spine), i - 1)
    ensures Drop(spine, i)[0] == spine[0] && Drop(spine, i)[|spine| - 2] == spine[|spine| - 1]
  {
  }

  lemma FrontInner<T>(spine: seq<T>, head: T, x: T)
    requires |spine| >= 2
    ensures Inner([head, x] + spine[1..]) == [x] + Inner(spine)
  {
  }

  lemma {:induction false} MirrorsDistinct<K(0), V(0)>(cache: map<K, Node<K, V>>, nodes: seq<Node<K, V>>,
                                                       s: seq<Pair<K, V>>)
    requires Indexes(cache, nodes) && Mirrors(nodes, s)
    ensures DistinctKeys(s)
    ensures forall k :: k in cache <==> Has(s, k)
  {
    forall i | 0 <= i < |s| ensures s[i].key in cache && cache[s[i].key] == nodes[i] {
      assert Shows(nodes, s, i) && IndexedAt(cache, nodes, i);
    }
    forall k | k in cache ensures Has(s, k) {
      assert KeyListed(cache, nodes, k);
      var i :| 0 <= i < |nodes| && nodes[i] == cache[k];
      assert Shows(nodes, s, i);
      assert s[i].key == k;
    }
  }

  lemma {:induction false} Miss<K(0), V(0)>(cache: map<K, Node<K, V>>, nodes: seq<Node<K, V>>, s: seq<Pair<K, V>>,
                                            key: K)
    requires Indexes(cache, nodes) && Mirrors(nodes, s)
    requires key !in cache
    ensures !Has(s, key) && Lookup(s, key) == None
  {
    MirrorsDistinct(cache, nodes, s);
    LookupFinds(s, key);
  }

  lemma {:induction false} Hit<K(0), V(0)>(capacity: nat, cache: map<K, Node<K, V>>, nodes: seq<Node<K, V>>,
                                           s: seq<Pair<K, V>>, op: Op<K, V>) returns (i: nat)
    requires Indexes(cache, nodes) && Mirrors(nodes, s)
    requires (op.Get? || op.Put?) && op.key in cache
    ensures i < |nodes| && nodes[i] == cache[op.key] && nodes[i].key == op.key
    ensures Indexes(cache, [nodes[i]] + Drop(nodes, i))
    ensures Lookup(s, op.key) == Some(nodes[i].value)
    ensures After(capacity, s, op) == [Pair(op.key, if op.Put? then op.value else nodes[i].value)] + Drop(s, i)
  {
    assert KeyListed(cache, nodes, op.key);
    i :| 0 <= i < |nodes| && nodes[i] == cache[op.key];
    MirrorsDistinct(cache, nodes, s);
    assert Shows(nodes, s, i);
    LookupAt(s, i);
    WithoutAt(s, i);
    IndexesMoved(cache, nodes, i);
  }

  /** Where the node in place j of the list was before the node in place i moved to the front. */
  function Origin(i: nat, j: nat): nat {
    if j == 0 then i else if j <= i then j - 1 else j
  }

  lemma MovedFrom<T>(nodes: seq<T>, i: nat)
    requires i < |nodes|
    ensures var moved := [nodes[i]] + Drop(nodes, i);
      |moved| == |nodes| && forall j {:trigger moved[j]} :: 0 <= j < |moved| ==> moved[j] == nodes[Origin(i, j)]
  {
  }

  lemma {:induction false} MovedDiffer<T>(nodes: seq<T>, i: nat)
    requires Distinct(nodes) && i < |nodes|
    ensures Distinct([nodes[i]] + Drop(nodes, i))
  {
    var moved := [nodes[i]] + Drop(nodes, i);
    MovedFrom(nodes, i);
    forall j, k | 0 <= j < k < |moved| ensures moved[j] != moved[k] {
      assert Origin(i, j) != Origin(i, k);
    }
  }

  lemma {:induction false} IndexesMoved<K(0), V(0)>(cache: map<K, Node<K, V>>, nodes: seq<Node<K, V>>, i: nat)
    requires Indexes(cache, nodes) && i < |nodes|
    ensures Indexes(cache, [nodes[i]] + Drop(nodes, i))
  {
    var moved := [nodes[i]] + Drop(nodes, i);
    MovedFrom(nodes, i);
    MovedDiffer(nodes, i);
    forall j | 0 <= j < |moved| ensures IndexedAt(cache, moved, j) {
      assert IndexedAt(cache, nodes, Origin(i, j));
    }
    forall k | k in cache ensures KeyListed(cache, moved, k) {
      assert KeyListed(cache, nodes, k);
      var j :| 0 <= j < |nodes| && nodes[j] == cache[k];
      assert moved[if j == i then 0 else if j < i then j + 1 else j] == nodes[j];
    }
  }

  lemma {:induction false} MirrorsMoved<K(0), V(0)>(nodes: seq<Node<K, V>>, s: seq<Pair<K, V>>, p: Pair<K, V>, i: nat)
    requires i < |nodes| == |s| && p == Pair(nodes[i].key, nodes[i].value)
    requires forall j {:trigger Shows(nodes, s, j)} :: 0 <= j < |s| && j != i ==> Shows(nodes, s, j)
    ensures Mirrors([nodes[i]] + Drop(nodes, i), [p] + Drop(s, i))
  {
    var nodes', s' := [nodes[i]] + Drop(nodes, i), [p] + Drop(s, i);
    forall j | 0 <= j < |s'| ensures Shows(nodes', s', j) {
      if j > 0 {
        var k := if j <= i then j - 1 else j;
        assert Shows(nodes, s, k) && nodes'[j] == nodes[k] && s'[j] == s[k];
      }
    }
  }

  // ----- the Map cache -----

  /** Sets an entry of a Map: a key already there keeps its place. */
  function MapSet<K(==), V>(m: seq<Pair<K, V>>, k: K, v: V): seq<Pair<K, V>> {
    if m == [] then [Pair(k, v)] else if m[0].key == k then [Pair(k, v)] + m[1..] else [m[0]] + MapSet(m[1..], k, v)
  }

  lemma {:induction false} MapSetNew<K, V>(m: seq<Pair<K, V>>, k: K, v: V)
    requires Lookup(m, k) == None
    ensures MapSet(m, k, v) == m + [Pair(k, v)]
  {
    if m != [] { MapSetNew(m[1..], k, v); }
  }

  lemma {:induction false} LookupWithout<K, V>(m: seq<Pair<K, V>>, k: K, x: K)
    ensures Lookup(Without(m, k), x) == if x == k then None else Lookup(m, x)
  {
    if m != [] {
      LookupWithout(m[1..], k, x);
      if m[0].key != k {
        assert ([m[0]] + Without(m[1..], k))[1..] == Without(m[1..], k);
      } else {
        assert Without(m, k) == Without(m[1..], k);
      }
    }
  }

  class MapCache<K(==), V> {
    const capacity: nat
    /** the Map's entries in the order they were inserted */
    var cache: seq<Pair<K, V>>

    constructor (capacity: nat)
      requires capacity > 0
      ensures this.capacity == capacity && cache == []
    {
      this.capacity, cache := capacity, [];
    }

    method Get(key: K) returns (r: Option<V>)
      modifies this`cache
      ensures r == Lookup(old(cache), key)
      ensures cache == MapAfter(capacity, old(cache), Op.Get(key))
    {
      r := Lookup(cache, key);
      if r == None {
        return;
      }
      LookupWithout(cache, key, key);
      cache := Without(cache, key);
      MapSetNew(cache, key, r.value);
      cache := MapSet(cache, key, r.value);
    }

    method Put(key: K, value: V)
      requires capacity > 0
      modifies this`cache
      ensures cache == MapAfter(capacity, old(cache), Op.Put(key, value))
    {
      if Lookup(cache, key).Some? {
        LookupWithout(cache, key, key);
        cache := Without(cache, key);
      } else if |cache| >= capacity {
        var firstKey := cache[0].key;
        LookupWithout(cache, firstKey, key);
        cache := Without(cache, firstKey);
      }
      MapSetNew(cache, key, value);
      cache := MapSet(cache, key, value);
    }

    method Has(key: K) returns (r: bool)
      ensures r <==> exists i :: 0 <= i < |cache| && cache[i].key == key
    {
      LookupFinds(cache, key);
      r := Lookup(cache, key).Some?;
    }

    method Size() returns (n: nat)
      ensures n == |cache|
    {
      n := |cache|;
    }
  }

  /** The constructor refuses a capacity that is not positive. */
  method NewMapCache<K(==), V>(capacity: int) returns (r: Result<MapCache<K, V>, string>)
    ensures r.Ok? <==> capacity > 0
    ensures r.Ok? ==> r.value.capacity == capacity && r.value.cache == [] && fresh(r.value)
  {
    if capacity <= 0 {
      return Err("capacity must be positive");
    }
    var cache := new MapCache<K, V>(capacity);
    return Ok(cache);
  }

  // ----- the two caches side by side -----

  method ApplyList<K(0, ==), V(0)>(list: LRUCache<K, V>, op: Op<K, V>) returns (a: Answer<V>)
    requires list.Valid()
    modifies list, list.spine
    ensures list.Valid() && forall n :: n in list.spine ==> n in old(list.spine) || fresh(n)
    ensures list.contents == After(list.capacity, old(list.contents), op) && a == Reply(old(list.contents), op)
  {
    match op
    case Get(k) =>
      var r := list.Get(k);
      a := Got(if r.Ok? then Some(r.value) else None);
    case Put(k, v) =>
      list.Put(k, v);
      a := Stored;
    case Contains(k) =>
      LookupFinds(list.contents, k);
      var b := list.Contains(k);
      a := Is(b);
    case Len =>
      var n := list.Length();
      a := Count(n);
  }

  method ApplyMap<K(==), V>(m: MapCache<K, V>, op: Op<K, V>) returns (a: Answer<V>)
    requires m.capacity > 0
    modifies m
    ensures m.cache == MapAfter(m.capacity, old(m.cache), op) && a == Reply(old(m.cache), op)
  {
    match op
    case Get(k) =>
      var r := m.Get(k);
      a := Got(r);
    case Put(k, v) =>
      m.Put(k, v);
      a := Stored;
    case Contains(k) =>
      LookupFinds(m.cache, k);
      var b := m.Has(k);
      a := Is(b);
    case Len =>
      var n := m.Size();
      a := Count(n);
  }

  /** The linked cache through a sequence of operations. */
  method RunList<K(0, ==), V(0)>(list: LRUCache<K, V>, ops: seq<Op<K, V>>) returns (answers: seq<Answer<V>>)
    requires list.Valid()
    modifies list, list.spine
    ensures list.Valid() && forall n :: n in list.spine ==> n in old(list.spine) || fresh(n)
    ensures answers == Answers(list.capacity, old(list.contents), ops)
    decreases |ops|
  {
    if ops == [] {
      return [];
    }
    var a := ApplyList(list, ops[0]);
    assert forall i :: 0 <= i < |list.spine| ==> list.spine[i] in old(list.spine) || fresh(list.spine[i]);
    var rest := RunList(list, ops[1..]);
    answers := [a] + rest;
  }

  /** And the Map cache. */
  method RunMap<K(==), V>(m: MapCache<K, V>, ops: seq<Op<K, V>>) returns (answers: seq<Answer<V>>)
    requires m.capacity > 0
    modifies m
    ensures answers == MapAnswers(m.capacity, old(m.cache), ops)
    decreases |ops|
  {
    if ops == [] {
      return [];
    }
    var a := ApplyMap(m, ops[0]);
    var rest := RunMap(m, ops[1..]);
    answers := [a] + rest;
  }

  /** Both caches, run on the same operations, give the same answers. */
  method RunBoth<K(0, ==), V(0)>(capacity: nat, ops: seq<Op<K, V>>)
      returns (listAnswers: seq<Answer<V>>, mapAnswers: seq<Answer<V>>)
    requires capacity > 0
    ensures listAnswers == mapAnswers == Answers(capacity, [], ops)
  {
    var list := new LRUCache<K, V>(capacity);
    listAnswers := RunList(list, ops);
    var m := new MapCache<K, V>(capacity);
    mapAnswers := RunMap(m, ops);
    SameAnswers(capacity, ops);
  }
}
