/**
 The level-order codec of algorithm/leetcode/problems/tree/226_InvertBinaryTree.js.

 An array element is an optional value, None being null.  A node's value may be null too: only a tree
 read from an array that starts with null has one.
*/
module TreeCodec {
  import opened Sequences
  import opened Wrappers

  datatype Tree<A> = Leaf | Node(left: Tree<A>, val: A, right: Tree<A>)

  type Values<V> = Tree<Option<V>>

  // ----- encoding -----

  function Size<A>(t: Tree<A>): nat {
    match t
    case Leaf => 1
    case Node(l, _, r) => 1 + Size(l) + Size(r)
  }

  function Weight<A>(q: seq<Tree<A>>): nat {
    if q == [] then 0 else Size(q[0]) + Weight(q[1..])
  }

  lemma {:induction false} WeightJoins<A>(a: seq<Tree<A>>, b: seq<Tree<A>>)
    ensures Weight(a + b) == Weight(a) + Weight(b)
  {
    if a == [] {
      assert a + b == b;
    } else {
      assert (a + b)[1..] == a[1..] + b;
      WeightJoins(a[1..], b);
    }
  }

  function Children<A>(t: Tree<A>): seq<Tree<A>> {
    if t.Leaf? then [] else [t.left, t.right]
  }

  function RootValue<V>(t: Values<V>): Option<V> {
    if t.Leaf? then None else t.val
  }

  lemma {:induction false} QueueShrinks<A>(q: seq<Tree<A>>)
    requires q != []
    ensures Weight(q[1..] + Children(q[0])) < Weight(q)
  {
    WeightJoins(q[1..], Children(q[0]));
    ChildrenWeigh(q[0]);
  }

  lemma {:induction false} WeightFront<A>(t: Tree<A>, q: seq<Tree<A>>)
    ensures Weight([t] + q) == Size(t) + Weight(q)
  {
    assert ([t] + q)[1..] == q;
  }

  lemma {:induction false} ChildrenWeigh<A>(t: Tree<A>)
    ensures Weight(Children(t)) == Size(t) - 1
  {
    if t.Node? {
      WeightFront(t.left, [t.right] + []);
      WeightFront(t.right, []);
      assert Children(t) == [t.left] + ([t.right] + []);
    }
  }

  /** What the loop writes for the trees in its queue. */
  function EncodeQueue<V>(q: seq<Values<V>>): seq<Option<V>>
    decreases Weight(q)
  {
    if q == [] then []
    else
      QueueShrinks(q);
      [RootValue(q[0])] + EncodeQueue(q[1..] + Children(q[0]))
  }

  function Strip<V>(s: seq<Option<V>>): seq<Option<V>> {
    if s != [] && s[|s| - 1] == None then Strip(s[..|s| - 1]) else s
  }

  function Encode<V>(t: Values<V>): seq<Option<V>> {
    if t.Leaf? then [] else Strip(EncodeQueue([t]))
  }

  // ----- decoding -----

  function Created<V>(left: Option<V>, right: Option<V>): seq<Option<V>> {
    (if left.Some? then [left] else []) + (if right.Some? then [right] else [])
  }

  /** The trees that nodes with the values vs, waiting in the queue, grow from the rest of the array. */
  function DecodeQueue<V>(vs: seq<Option<V>>, rest: seq<Option<V>>): (ts: seq<Values<V>>)
    ensures |ts| == |vs| && forall i :: 0 <= i < |ts| ==> ts[i].Node? && ts[i].val == vs[i]
    decreases |rest|
  {
    if vs == [] || rest == [] then seq(|vs|, i requires 0 <= i < |vs| => Node(Leaf, vs[i], Leaf))
    else
      var l, r := rest[0], if |rest| > 1 then rest[1] else None;
      Grow(l, vs[0], r, DecodeQueue(vs[1..] + Created(l, r), if |rest| > 1 then rest[2..] else []), |vs| - 1)
  }

  /** The first n trees grown belong to the nodes that were waiting, the others to the children created. */
  function Grow<V>(l: Option<V>, v: Option<V>, r: Option<V>, grown: seq<Values<V>>, n: nat): seq<Values<V>>
    requires |grown| == n + |Created(l, r)|
  {
    [Node(if l.Some? then grown[n] else Leaf, v, if r.Some? then grown[|grown| - 1] else Leaf)] + grown[..n]
  }

  function Decode<V>(arr: seq<Option<V>>): Values<V> {
    if arr == [] then Leaf else DecodeQueue([arr[0]], arr[1..])[0]
  }

  // ----- round trip -----

  predicate NoNull<V>(t: Values<V>) {
    t.Leaf? || (t.val.Some? && NoNull(t.left) && NoNull(t.right))
  }

  /** Null is at most the value of a root that has a child. */
  predicate Encodable<V>(t: Values<V>) {
    t.Leaf? || (NoNull(t.left) && NoNull(t.right) && (t.val.Some? || t.left.Node? || t.right.Node?))
  }

  ghost predicate AllNodes<V>(ts: seq<Values<V>>) {
    forall i :: 0 <= i < |ts| ==> ts[i].Node? && NoNull(ts[i].left) && NoNull(ts[i].right)
  }

  ghost function Vals<V>(ts: seq<Values<V>>): (vs: seq<Option<V>>)
    ensures |vs| == |ts| && forall i :: 0 <= i < |vs| ==> vs[i] == RootValue(ts[i])
  {
    seq(|ts|, i requires 0 <= i < |ts| => RootValue(ts[i]))
  }

  ghost function Kids<A>(ts: seq<Tree<A>>): seq<Tree<A>> {
    if ts == [] then [] else Children(ts[0]) + Kids(ts[1..])
  }

  lemma {:induction false} KidsJoin<A>(a: seq<Tree<A>>, b: seq<Tree<A>>)
    ensures Kids(a + b) == Kids(a) + Kids(b)
  {
    if a == [] {
      assert a + b == b;
    } else {
      assert (a + b)[1..] == a[1..] + b;
      KidsJoin(a[1..], b);
    }
  }

  ghost function Present<A>(t: Tree<A>): seq<Tree<A>> {
    if t.Leaf? then [] else [t]
  }

  lemma {:induction false} EncodeFront<V>(t: Values<V>, q: seq<Values<V>>)
    ensures EncodeQueue([t] + q) == [RootValue(t)] + EncodeQueue(q + Children(t))
  {
    assert ([t] + q)[1..] == q;
  }

  lemma {:induction false} EncodePair<V>(l: Values<V>, r: Values<V>, q: seq<Values<V>>)
    ensures EncodeQueue([l, r] + q) == [RootValue(l), RootValue(r)] + EncodeQueue(q + Children(l) + Children(r))
  {
    var q1, q2 := q + Children(l), q + Children(l) + Children(r);
    Fronts(l, r, q, Children(l));
    Fronts(RootValue(l), RootValue(r), EncodeQueue(q2), []);
    EncodeFront(l, [r] + q);
    EncodeFront(r, q1);
  }

  lemma Fronts<T>(a: T, b: T, s: seq<T>, u: seq<T>)
    ensures [a, b] + s == [a] + ([b] + s)
    ensures [b] + s + u == [b] + (s + u)
  {
  }

  /** Two steps of the encoder write what one step of the decoder reads. */
  lemma {:induction false} EncodeTwo<V>(ts: seq<Values<V>>)
    requires AllNodes(ts) && ts != []
    ensures var l, r := ts[0].left, ts[0].right;
      EncodeQueue(Kids(ts)) == [RootValue(l), RootValue(r)] + EncodeQueue(Kids(ts[1..] + Present(l) + Present(r)))
  {
    EncodePair(ts[0].left, ts[0].right, Kids(ts[1..]));
    KidsNext(ts);
  }

  lemma {:induction false} KidsNext<A>(ts: seq<Tree<A>>)
    requires ts != [] && ts[0].Node?
    ensures var l, r := ts[0].left, ts[0].right;
      Kids(ts[1..] + Present(l) + Present(r)) == Kids(ts[1..]) + Children(l) + Children(r)
  {
    var l, r := ts[0].left, ts[0].right;
    KidsJoin(ts[1..] + Present(l), Present(r));
    KidsJoin(ts[1..], Present(l));
    KidsOfPresent(l);
    KidsOfPresent(r);
  }

  lemma {:induction false} KidsShrink<A>(ts: seq<Tree<A>>)
    requires ts != [] && ts[0].Node?
    ensures var l, r := ts[0].left, ts[0].right; Weight(Kids(ts[1..] + Present(l) + Present(r))) < Weight(Kids(ts))
  {
    var l, r, rest := ts[0].left, ts[0].right, Kids(ts[1..]);
    KidsNext(ts);
    WeightJoins(rest + Children(l), Children(r));
    WeightJoins(rest, Children(l));
    WeightJoins(Children(ts[0]), rest);
    ChildrenWeigh(ts[0]);
    ChildrenWeigh(l);
    ChildrenWeigh(r);
  }

  lemma {:induction false} KidsOfPresent<A>(t: Tree<A>)
    ensures Kids(Present(t)) == Children(t)
  {
    if t.Node? {
      assert Kids([t]) == Children(t) + Kids([]);
    }
  }

  /** Nodes whose descendants have values grow back from what the encoder writes below them. */
  lemma {:induction false} DecodeEncoded<V>(ts: seq<Values<V>>)
    requires AllNodes(ts)
    ensures DecodeQueue(Vals(ts), EncodeQueue(Kids(ts))) == ts
    decreases Weight(Kids(ts))
  {
    if ts != [] {
      var l, r, rest := ts[0].left, ts[0].right, ts[1..];
      var ts' := rest + Present(l) + Present(r);
      EncodeTwo(ts);
      KidsShrink(ts);
      NextNodes(ts);
      DecodeEncoded(ts');
      DecodeTwo(Vals(ts), RootValue(l), RootValue(r), EncodeQueue(Kids(ts')));
      Regrown(ts);
    }
  }

  lemma NextNodes<V>(ts: seq<Values<V>>)
    requires AllNodes(ts) && ts != []
    ensures var l, r := ts[0].left, ts[0].right; var ts' := ts[1..] + Present(l) + Present(r);
      AllNodes(ts') && Vals(ts)[1..] + Created(RootValue(l), RootValue(r)) == Vals(ts')
  {
  }

  lemma {:induction false} Regrown<V>(ts: seq<Values<V>>)
    requires AllNodes(ts) && ts != []
    ensures var l, r := ts[0].left, ts[0].right;
      Grow(RootValue(l), ts[0].val, RootValue(r), ts[1..] + Present(l) + Present(r), |ts| - 1) == ts
  {
    var l, r := ts[0].left, ts[0].right;
    assert (ts[1..] + Present(l) + Present(r))[..|ts| - 1] == ts[1..];
  }

  lemma {:induction false} DecodeTwo<V>(vs: seq<Option<V>>, l: Option<V>, r: Option<V>, more: seq<Option<V>>)
    requires vs != []
    ensures DecodeQueue(vs, [l, r] + more) == Grow(l, vs[0], r, DecodeQueue(vs[1..] + Created(l, r), more), |vs| - 1)
  {
    assert ([l, r] + more)[2..] == more;
  }

  /** A null at the end of the array says what its absence says. */
  lemma {:induction false} DecodeLastNull<V>(vs: seq<Option<V>>, rest: seq<Option<V>>)
    ensures DecodeQueue(vs, rest + [None]) == DecodeQueue(vs, rest)
    decreases |rest|
  {
    if vs != [] && rest != [] {
      var l, r := rest[0], if |rest| > 1 then rest[1] else None;
      if |rest| > 1 {
        assert (rest + [None])[2..] == rest[2..] + [None];
        DecodeLastNull(vs[1..] + Created(l, r), rest[2..]);
      } else {
        assert (rest + [None])[2..] == [];
      }
    }
  }

  lemma {:induction false} DecodeStripped<V>(vs: seq<Option<V>>, rest: seq<Option<V>>)
    ensures DecodeQueue(vs, Strip(rest)) == DecodeQueue(vs, rest)
    decreases |rest|
  {
    if rest != [] && rest[|rest| - 1] == None {
      DecodeStripped(vs, rest[..|rest| - 1]);
      DecodeLastNull(vs, rest[..|rest| - 1]);
      assert rest == rest[..|rest| - 1] + [None];
    }
  }

  lemma {:induction false} StripAfter<V>(v: Option<V>, s: seq<Option<V>>)
    ensures Strip([v] + s) == if Strip(s) == [] then Strip([v]) else [v] + Strip(s)
    decreases |s|
  {
    if s == [] {
      assert [v] + s == [v];
    } else if s[|s| - 1] == None {
      assert ([v] + s)[..|s|] == [v] + s[..|s| - 1];
      StripAfter(v, s[..|s| - 1]);
    }
  }

  lemma {:induction false} EncodeNode<V>(t: Values<V>)
    requires t.Node?
    ensures EncodeQueue([t]) == [t.val] + EncodeQueue(Children(t))
  {
    assert [t][1..] + Children(t) == Children(t);
  }

  lemma {:induction false} StripNothingLeft<V>(s: seq<Option<V>>, i: nat)
    requires i < |s| && s[i].Some?
    ensures Strip(s) != []
    decreases |s|
  {
    if s[|s| - 1] == None { StripNothingLeft(s[..|s| - 1], i); }
  }

  /** Something is written below a null value at the root. */
  lemma {:induction false} NullRootWritten<V>(t: Values<V>)
    requires t.Node? && Encodable(t) && t.val == None
    ensures Strip(EncodeQueue(Children(t))) != []
  {
    EncodeTwo([t]);
    KidsOfPresent(t);
    StripNothingLeft(EncodeQueue(Children(t)), if t.left.Node? then 0 else 1);
  }

  lemma {:induction false} EncodeRoot<V>(t: Values<V>)
    requires t.Node? && Encodable(t)
    ensures Encode(t) == [t.val] + Strip(EncodeQueue(Children(t)))
  {
    EncodeNode(t);
    StripAfter(t.val, EncodeQueue(Children(t)));
    if t.val == None {
      NullRootWritten(t);
    } else {
      assert Strip([t.val]) == [t.val];
    }
  }

  /** Reading back what was written gives the tree again. */
  lemma {:induction false} RoundTrip<V>(t: Values<V>)
    requires Encodable(t)
    ensures Decode(Encode(t)) == t
  {
    if t.Node? {
      EncodeRoot(t);
      DecodeStripped([t.val], EncodeQueue(Children(t)));
      KidsOfPresent(t);
      DecodeEncoded([t]);
      assert Vals([t]) == [t.val];
    }
  }

  lemma {:induction false} DecodedHasNoNull<V>(vs: seq<Option<V>>, rest: seq<Option<V>>)
    ensures AllNodes(DecodeQueue(vs, rest))
    decreases |rest|
  {
    if vs != [] && rest != [] {
      var l, r := rest[0], if |rest| > 1 then rest[1] else None;
      DecodedHasNoNull(vs[1..] + Created(l, r), if |rest| > 1 then rest[2..] else []);
    }
  }

  /** And for no other tree. */
  lemma {:induction false} RoundTripExactly<V>(t: Values<V>)
    ensures Decode(Encode(t)) == t <==> Encodable(t)
  {
    if Encodable(t) {
      RoundTrip(t);
    } else if Encode(t) != [] {
      DecodedHasNoNull([Encode(t)[0]], Encode(t)[1..]);
      NullAlone<V>();
    }
  }

  lemma {:induction false} NullAlone<V>()
    ensures var t: Values<V> := Node(Leaf, None, Leaf); Encode(t) == []
  {
    var leaf: Values<V> := Leaf;
    var none: Option<V> := None;
    EncodeNode(Node(leaf, none, leaf));
    EncodeFront(leaf, [leaf]);
    EncodeFront(leaf, []);
    assert [leaf] + [leaf] == [leaf, leaf] && [leaf] + [] == [leaf];
    assert EncodeQueue([leaf]) == [none] && EncodeQueue([leaf, leaf]) == [none, none];
    assert [none] + [none, none] == [none, none, none];
    assert [none, none, none][..2] == [none, none] && [none, none][..1] == [none];
    assert Strip([none]) == [] && Strip([none, none]) == [];
  }

  // ----- what is written is the tree, level by level -----

  /** The subtrees at depth d from left to right, a missing child of a node included. */
  function Level<A>(t: Tree<A>, d: nat): seq<Tree<A>>
    decreases d
  {
    if d == 0 then [t] else if t.Leaf? then [] else Level(t.left, d - 1) + Level(t.right, d - 1)
  }

  /** Their values, for n levels from depth d on. */
  ghost function FromLevel<V>(t: Values<V>, d: nat, n: nat): seq<Option<V>>
    decreases n
  {
    if n == 0 then [] else Vals(Level(t, d)) + FromLevel(t, d + 1, n - 1)
  }

  /** The kids of the kids .. of ts, d times. */
  ghost function KidsAt<A>(ts: seq<Tree<A>>, d: nat): seq<Tree<A>>
    decreases d
  {
    if d == 0 then ts else KidsAt(Kids(ts), d - 1)
  }

  /** The queue is worked off before what is put behind it. */
  lemma {:induction false} EncodeAll<V>(ts: seq<Values<V>>, rest: seq<Values<V>>)
    ensures EncodeQueue(ts + rest) == Vals(ts) + EncodeQueue(rest + Kids(ts))
  {
    if ts == [] {
      assert ts + rest == rest && rest + Kids(ts) == rest;
    } else {
      var t, later := ts[0], ts[1..];
      assert EncodeQueue(ts + rest) == [RootValue(t)] + EncodeQueue(later + rest + Children(t)) by {
        assert ts + rest == [t] + (later + rest);
        EncodeFront(t, later + rest);
      }
      assert EncodeQueue(later + rest + Children(t)) == Vals(later) + EncodeQueue(rest + Kids(ts)) by {
        Assoc(later, rest, Children(t));
        EncodeAll(later, rest + Children(t));
        Assoc(rest, Children(t), Kids(later));
      }
      Assoc([RootValue(t)], Vals(later), EncodeQueue(rest + Kids(ts)));
      assert Vals(ts) == [RootValue(t)] + Vals(later);
    }
  }

  lemma {:induction false} KidsAtJoin<A>(a: seq<Tree<A>>, b: seq<Tree<A>>, d: nat)
    ensures KidsAt(a + b, d) == KidsAt(a, d) + KidsAt(b, d)
    decreases d
  {
    if d > 0 {
      KidsJoin(a, b);
      KidsAtJoin(Kids(a), Kids(b), d - 1);
    }
  }

  lemma {:induction false} NoKids<A>(d: nat)
    ensures KidsAt<A>([], d) == []
    decreases d
  {
    if d > 0 { NoKids<A>(d - 1); }
  }

  lemma {:induction false} LevelIsKids<A>(t: Tree<A>, d: nat)
    ensures Level(t, d) == KidsAt([t], d)
    decreases d
  {
    if d > 0 {
      assert Kids([t]) == Children(t) + Kids([]) == Children(t);
      if t.Leaf? {
        NoKids<A>(d - 1);
      } else {
        assert [t.left] + [t.right] == Children(t);
        KidsAtJoin([t.left], [t.right], d - 1);
        LevelIsKids(t.left, d - 1);
        LevelIsKids(t.right, d - 1);
      }
    }
  }

  lemma {:induction false} KidsWeigh<A>(ts: seq<Tree<A>>)
    ensures Weight(Kids(ts)) == Weight(ts) - |ts|
  {
    if ts != [] {
      KidsWeigh(ts[1..]);
      ChildrenWeigh(ts[0]);
      WeightJoins(Children(ts[0]), Kids(ts[1..]));
    }
  }

  lemma {:induction false} KidsAtNext<A>(ts: seq<Tree<A>>, d: nat)
    ensures KidsAt(ts, d + 1) == Kids(KidsAt(ts, d))
    decreases d
  {
    if d > 0 { KidsAtNext(Kids(ts), d - 1); }
  }

  lemma {:induction false} LevelsWritten<V>(t: Values<V>, d: nat, n: nat)
    requires n >= Weight(Level(t, d))
    ensures EncodeQueue(Level(t, d)) == FromLevel(t, d, n)
    decreases n
  {
    var ts := Level(t, d);
    if n > 0 {
      EncodeAll(ts, []);
      assert ts + [] == ts && [] + Kids(ts) == Kids(ts);
      LevelIsKids(t, d);
      LevelIsKids(t, d + 1);
      KidsAtNext([t], d);
      KidsWeigh(ts);
      if ts == [] {
        NothingBelow(t, d, n);
      } else {
        LevelsWritten(t, d + 1, n - 1);
      }
    } else {
      Weighty(ts);
    }
  }

  lemma {:induction false} Weighty<A>(ts: seq<Tree<A>>)
    ensures Weight(ts) >= |ts|
  {
    if ts != [] { Weighty(ts[1..]); }
  }

  lemma {:induction false} NothingBelow<V>(t: Values<V>, d: nat, n: nat)
    requires Level(t, d) == []
    ensures FromLevel(t, d, n) == []
    decreases n
  {
    if n > 0 {
      LevelIsKids(t, d);
      LevelIsKids(t, d + 1);
      KidsAtNext([t], d);
      NothingBelow(t, d + 1, n - 1);
    }
  }

  /** Strip drops the nulls at the end and nothing else. */
  lemma {:induction false} StripExactly<V>(s: seq<Option<V>>)
    ensures Strip(s) <= s && forall i :: |Strip(s)| <= i < |s| ==> s[i] == None
    ensures Strip(s) != [] ==> Strip(s)[|Strip(s)| - 1].Some?
  {
    if s != [] && s[|s| - 1] == None { StripExactly(s[..|s| - 1]); }
  }

  /** The array lists the values of the tree level by level, each from left to right, with a null for each child
      that a node does not have, up to the last value that is not null. */
  lemma {:induction false} WritesLevels<V>(t: Values<V>)
    requires t.Node?
    ensures var levels := FromLevel(t, 0, Size(t));
      && Encode(t) <= levels && (forall i :: |Encode(t)| <= i < |levels| ==> levels[i] == None)
      && (Encode(t) != [] ==> Encode(t)[|Encode(t)| - 1].Some?)
  {
    WeightFront(t, []);
    assert [t] + [] == [t];
    LevelsWritten(t, 0, Size(t));
    StripExactly(EncodeQueue([t]));
  }

  // ----- the tree of objects -----

  class TreeNode<V> {
    const val: Option<V>
    var left: TreeNode?<V>
    var right: TreeNode?<V>

    constructor (val: Option<V>)
      ensures this.val == val && left == null && right == null
    {
      this.val, left, right := val, null, null;
    }
  }

  /** The nodes of a tree of objects, in its shape. */
  type Shape<V> = Tree<TreeNode<V>>

  ghost function Elements<A>(s: Tree<A>): set<A> {
    match s
    case Leaf => {}
    case Node(l, x, r) => Elements(l) + {x} + Elements(r)
  }

  ghost function ValuesOf<V>(s: Shape<V>): Values<V> {
    match s
    case Leaf => Leaf
    case Node(l, x, r) => Node(ValuesOf(l), x.val, ValuesOf(r))
  }

  ghost predicate Linked<V>(n: TreeNode?<V>, s: Shape<V>, repr: set<TreeNode<V>>)
    requires Elements(s) <= repr
    reads repr
  {
    match s
    case Leaf => n == null
    case Node(l, x, r) => n == x && Linked(x.left, l, repr) && Linked(x.right, r, repr)
  }

  lemma {:induction false} LinkedIn<V>(n: TreeNode?<V>, s: Shape<V>, repr: set<TreeNode<V>>, repr': set<TreeNode<V>>)
    requires Elements(s) <= repr && Elements(s) <= repr' && Linked(n, s, repr)
    ensures Linked(n, s, repr')
  {
    if s.Node? {
      LinkedIn(s.val.left, s.left, repr, repr');
      LinkedIn(s.val.right, s.right, repr, repr');
    }
  }

  /** No node occurs twice. */
  ghost predicate Separate<A>(s: Tree<A>) {
    match s
    case Leaf => true
    case Node(l, x, r) =>
      Separate(l) && Separate(r) && x !in Elements(l) && x !in Elements(r) && Elements(l) !! Elements(r)
  }

  // ----- arrayToTree -----

  /** What a node created is to become: its tree, and its way down from the root. */
  datatype Place<V> = Place(tree: Values<V>, path: seq<bool>)

  type Plan<!V> = map<TreeNode<V>, Place<V>>

  ghost predicate ChildOk<V>(plan: Plan<V>, c: TreeNode?<V>, t: Values<V>, path: seq<bool>) {
    (c == null <==> t.Leaf?) && (c != null ==> c in plan && plan[c] == Place(t, path))
  }

  ghost predicate Settled<V>(plan: Plan<V>, n: TreeNode<V>)
    requires n in plan
    reads n
  {
    var t, path := plan[n].tree, plan[n].path;
    t.Node? && t.val == n.val && ChildOk(plan, n.left, t.left, path + [false]) &&
      ChildOk(plan, n.right, t.right, path + [true])
  }

  ghost predicate Waiting<V>(plan: Plan<V>, queue: seq<TreeNode<V>>, ts: seq<Values<V>>, i: nat)
    requires i < |queue| == |ts|
    reads queue
  {
    queue[i].left == null && queue[i].right == null && queue[i] in plan && plan[queue[i]].tree == ts[i]
  }

  ghost predicate AllWaiting<V>(plan: Plan<V>, queue: seq<TreeNode<V>>, ts: seq<Values<V>>, from: nat)
    reads queue
  {
    |queue| == |ts| && forall i {:trigger Waiting(plan, queue, ts, i)} :: from <= i < |queue| ==>
      Waiting(plan, queue, ts, i)
  }

  ghost predicate OthersSettled<V>(plan: Plan<V>, queue: seq<TreeNode<V>>)
    reads plan.Keys
  {
    forall n {:trigger Settled(plan, n)} :: n in plan && n !in queue ==> Settled(plan, n)
  }

  ghost predicate Growing<V>(plan: Plan<V>, queue: seq<TreeNode<V>>, ts: seq<Values<V>>)
    reads plan.Keys, queue
  {
    Distinct(queue) && AllWaiting(plan, queue, ts, 0) && OthersSettled(plan, queue)
  }

  ghost function NodeValues<V>(queue: seq<TreeNode<V>>): (vs: seq<Option<V>>)
    ensures |vs| == |queue| && forall i :: 0 <= i < |vs| ==> vs[i] == queue[i].val
  {
    seq(|queue|, i requires 0 <= i < |queue| => queue[i].val)
  }

  /** The body of the loop: children for the values read. */
  method CreateChildren<V>(node: TreeNode<V>, l: Option<V>, r: Option<V>) returns (kids: seq<TreeNode<V>>)
    requires node.left == null && node.right == null
    modifies node
    ensures NodeValues(kids) == Created(l, r)
    ensures forall i :: 0 <= i < |kids| ==> fresh(kids[i]) && kids[i].left == null && kids[i].right == null
    ensures |kids| == 2 ==> kids[0] != kids[1]
    ensures if l.Some? then node.left == kids[0] else node.left == null
    ensures if r.Some? then node.right == kids[|kids| - 1] else node.right == null
  {
    kids := [];
    if l.Some? {
      var c := new TreeNode(l);
      node.left := c;
      kids := [c];
    }
    if r.Some? {
      var c := new TreeNode(r);
      node.right := c;
      kids := kids + [c];
    }
  }

  ghost function Extended<V>(plan: Plan<V>, path: seq<bool>, l: Option<V>, r: Option<V>, kids: seq<TreeNode<V>>,
                             grown: seq<Values<V>>, n: nat): Plan<V>
    requires |kids| == |Created(l, r)| && |grown| == n + |kids|
  {
    var plan1 := if l.Some? then plan[kids[0] := Place(grown[n], path + [false])] else plan;
    if r.Some? then plan1[kids[|kids| - 1] := Place(grown[|grown| - 1], path + [true])] else plan1
  }

  /** Extending the plan by new nodes leaves a settled node settled. */
  lemma StaysSettled<V>(plan: Plan<V>, plan': Plan<V>, n: TreeNode<V>)
    requires n in plan && n in plan' && plan'[n] == plan[n] && Settled(plan, n)
    requires forall m :: m in plan ==> m in plan' && plan'[m] == plan[m]
    ensures Settled(plan', n)
  {
  }

  lemma ExtendedKeeps<V>(plan: Plan<V>, path: seq<bool>, l: Option<V>, r: Option<V>, kids: seq<TreeNode<V>>,
                         grown: seq<Values<V>>, n: nat)
    requires |kids| == |Created(l, r)| && |grown| == n + |kids| && (|kids| == 2 ==> kids[0] != kids[1])
    requires forall i :: 0 <= i < |kids| ==> kids[i] !in plan
    ensures var plan' := Extended(plan, path, l, r, kids, grown, n);
      && (forall m :: m in plan ==> m in plan' && plan'[m] == plan[m])
      && (forall m :: m in plan' ==> m in plan || m in kids)
      && (forall i :: 0 <= i < |kids| ==> kids[i] in plan' && plan'[kids[i]].tree == grown[n + i])
      && (l.Some? ==> plan'[kids[0]].path == path + [false])
      && (r.Some? ==> plan'[kids[|kids| - 1]].path == path + [true])
  {
  }

  /** What the body of the loop leaves: kids are the children of node, and the last in the queue. */
  ghost predicate Adopted<V>(node: TreeNode<V>, l: Option<V>, r: Option<V>, kids: seq<TreeNode<V>>)
    requires |kids| == |Created(l, r)|
    reads node
  {
    && (if l.Some? then node.left == kids[0] else node.left == null)
    && (if r.Some? then node.right == kids[|kids| - 1] else node.right == null)
  }

  /** The node at the head of the queue is settled once its children are planned. */
  lemma {:induction false} HeadSettled<V>(plan: Plan<V>, plan': Plan<V>, node: TreeNode<V>, l: Option<V>, r: Option<V>,
                                          kids: seq<TreeNode<V>>, grown: seq<Values<V>>, n: nat)
    requires |kids| == |Created(l, r)| && |grown| == n + |kids| && Adopted(node, l, r, kids)
    requires node in plan && plan[node].tree == Grow(l, node.val, r, grown, n)[0]
    requires forall t :: t in grown ==> t.Node?
    requires plan' == Extended(plan, plan[node].path, l, r, kids, grown, n)
    requires (|kids| == 2 ==> kids[0] != kids[1]) && forall i :: 0 <= i < |kids| ==> kids[i] !in plan
    ensures Settled(plan', node)
  {
    ExtendedKeeps(plan, plan[node].path, l, r, kids, grown, n);
    assert l.Some? ==> grown[n] in grown;
    assert r.Some? ==> grown[|grown| - 1] in grown;
  }

  /** How the array read so far accounts for the nodes waiting. */
  ghost predicate Reading<V>(plan: Plan<V>, queue: seq<TreeNode<V>>, rest: seq<Option<V>>)
    reads plan.Keys, queue
  {
    Growing(plan, queue, DecodeQueue(NodeValues(queue), rest))
  }

  lemma {:induction false} WaitingNext<V>(plan: Plan<V>, plan': Plan<V>, queue: seq<TreeNode<V>>, ts: seq<Values<V>>,
                                          kids: seq<TreeNode<V>>, grown: seq<Values<V>>)
    requires queue != [] && AllWaiting(plan, queue, ts, 1) && |grown| == |queue| - 1 + |kids|
    requires ts[1..] == grown[..|queue| - 1]
    requires forall m :: m in plan ==> m in plan' && plan'[m] == plan[m]
    requires forall i :: 0 <= i < |kids| ==> kids[i] in plan' && plan'[kids[i]].tree == grown[|queue| - 1 + i]
    requires forall i :: 0 <= i < |kids| ==> kids[i].left == null && kids[i].right == null
    ensures AllWaiting(plan', queue[1..] + kids, grown, 0)
  {
    var queue' := queue[1..] + kids;
    forall i | 0 <= i < |queue'| ensures Waiting(plan', queue', grown, i) {
      if i < |queue| - 1 {
        assert Waiting(plan, queue, ts, i + 1);
        assert ts[i + 1] == ts[1..][i];
      }
    }
  }

  lemma {:induction false} SettledNext<V>(plan: Plan<V>, plan': Plan<V>, queue: seq<TreeNode<V>>,
                                          kids: seq<TreeNode<V>>)
    requires queue != [] && OthersSettled(plan, queue)
    requires queue[0] in plan' && Settled(plan', queue[0])
    requires forall m :: m in plan ==> m in plan' && plan'[m] == plan[m]
    requires forall m :: m in plan' ==> m in plan || m in kids
    ensures OthersSettled(plan', queue[1..] + kids)
  {
    forall m | m in plan' && m !in queue[1..] + kids ensures Settled(plan', m) {
      if m != queue[0] {
        assert m !in queue;
        StaysSettled(plan, plan', m);
      }
    }
  }

  ghost function AfterTwo<V>(rest: seq<Option<V>>): seq<Option<V>> {
    if |rest| > 1 then rest[2..] else []
  }

  ghost predicate NextTwo<V>(rest: seq<Option<V>>, l: Option<V>, r: Option<V>) {
    rest != [] && l == rest[0] && r == if |rest| > 1 then rest[1] else None
  }

  lemma {:induction false} DecodeTurn<V>(queue: seq<TreeNode<V>>, kids: seq<TreeNode<V>>, l: Option<V>, r: Option<V>,
                                         rest: seq<Option<V>>)
    requires queue != [] && NextTwo(rest, l, r) && NodeValues(kids) == Created(l, r)
    ensures |NodeValues(queue)| == |queue| && |NodeValues(queue[1..] + kids)| == |queue| - 1 + |kids|
    ensures |kids| == |Created(l, r)|
    ensures DecodeQueue(NodeValues(queue), rest)
         == Grow(l, queue[0].val, r, DecodeQueue(NodeValues(queue[1..] + kids), AfterTwo(rest)), |queue| - 1)
  {
    assert NodeValues(queue[1..] + kids) == NodeValues(queue)[1..] + Created(l, r);
  }

  ghost predicate NewNodes<V>(plan: Plan<V>, queue: seq<TreeNode<V>>, kids: seq<TreeNode<V>>)
    reads kids
  {
    Distinct(queue + kids) && forall i :: 0 <= i < |kids| ==>
      kids[i] !in plan && kids[i].left == null && kids[i].right == null
  }

  lemma {:induction false} TurnGrows<V>(plan: Plan<V>, queue: seq<TreeNode<V>>, kids: seq<TreeNode<V>>, l: Option<V>,
                                        r: Option<V>, ts: seq<Values<V>>, grown: seq<Values<V>>)
      returns (plan': Plan<V>)
    requires queue != [] && |kids| == |Created(l, r)| && |grown| == |queue| - 1 + |kids|
    requires ts == Grow(l, queue[0].val, r, grown, |queue| - 1) && forall t :: t in grown ==> t.Node?
    requires AllWaiting(plan, queue, ts, 1) && OthersSettled(plan, queue)
    requires queue[0] in plan && plan[queue[0]].tree == ts[0]
    requires NewNodes(plan, queue, kids) && Adopted(queue[0], l, r, kids)
    ensures Growing(plan', queue[1..] + kids, grown)
    ensures forall n :: n in plan ==> n in plan' && plan'[n] == plan[n]
    ensures forall n :: n in plan' ==> n in plan || n in kids
  {
    var node, n := queue[0], |queue| - 1;
    assert |kids| == 2 ==> (queue + kids)[|queue|] != (queue + kids)[|queue| + 1];
    plan' := Extended(plan, plan[node].path, l, r, kids, grown, n);
    ExtendedKeeps(plan, plan[node].path, l, r, kids, grown, n);
    HeadSettled(plan, plan', node, l, r, kids, grown, n);
    WaitingNext(plan, plan', queue, ts, kids, grown);
    SettledNext(plan, plan', queue, kids);
    DifferTail(queue + kids);
    assert (queue + kids)[1..] == queue[1..] + kids;
  }

  lemma {:induction false} TurnDone<V>(plan: Plan<V>, queue: seq<TreeNode<V>>, kids: seq<TreeNode<V>>, l: Option<V>,
                                       r: Option<V>, rest: seq<Option<V>>) returns (plan': Plan<V>)
    requires queue != [] && NextTwo(rest, l, r)
    requires AllWaiting(plan, queue, DecodeQueue(NodeValues(queue), rest), 1) && OthersSettled(plan, queue)
    requires queue[0] in plan && plan[queue[0]].tree == DecodeQueue(NodeValues(queue), rest)[0]
    requires NodeValues(kids) == Created(l, r) && NewNodes(plan, queue, kids)
    requires |kids| == |Created(l, r)| && Adopted(queue[0], l, r, kids)
    ensures Reading(plan', queue[1..] + kids, AfterTwo(rest))
    ensures forall n :: n in plan ==> n in plan' && plan'[n] == plan[n]
    ensures forall n :: n in plan' ==> n in plan || n in kids
  {
    DecodeTurn(queue, kids, l, r, rest);
    plan' := TurnGrows(plan, queue, kids, l, r, DecodeQueue(NodeValues(queue), rest),
                       DecodeQueue(NodeValues(queue[1..] + kids), AfterTwo(rest)));
  }

  lemma DifferTail<T>(s: seq<T>)
    requires Distinct(s) && s != []
    ensures Distinct(s[1..])
  {
  }

  /** One turn of the loop: the first in the queue takes the next two elements. */
  method ReadTwo<V>(queue: seq<TreeNode<V>>, l: Option<V>, r: Option<V>, ghost plan: Plan<V>,
                    ghost rest: seq<Option<V>>)
      returns (queue': seq<TreeNode<V>>, ghost plan': Plan<V>)
    requires queue != [] && NextTwo(rest, l, r) && Reading(plan, queue, rest)
    modifies queue[0]
    ensures Reading(plan', queue', AfterTwo(rest))
    ensures forall n :: n in plan ==> n in plan' && plan'[n] == plan[n]
    ensures forall n :: n in plan' ==> n in plan || fresh(n)
  {
    var node := queue[0];
    ghost var ts := DecodeQueue(NodeValues(queue), rest);
    assert Waiting(plan, queue, ts, 0);
    var kids := CreateChildren(node, l, r);
    forall i | 1 <= i < |queue| ensures Waiting(plan, queue, ts, i) {
      assert old(Waiting(plan, queue, ts, i)) && queue[i] != node;
    }
    forall n | n in plan && n !in queue ensures Settled(plan, n) {
      assert old(Settled(plan, n)) && n != node;
    }
    plan' := TurnDone(plan, queue, kids, l, r, rest);
    queue' := queue[1..] + kids;
  }

  // ----- the tree that the nodes settled form -----

  /** All settled: from a node down, the nodes form its tree, each reached by its own way. */
  lemma {:induction false} Assemble<V>(plan: Plan<V>, n: TreeNode?<V>, t: Values<V>, path: seq<bool>)
      returns (s: Shape<V>)
    requires forall m {:trigger Settled(plan, m)} :: m in plan ==> Settled(plan, m)
    requires ChildOk(plan, n, t, path)
    ensures Elements(s) <= plan.Keys && forall m :: m in Elements(s) ==> path <= plan[m].path
    ensures Linked(n, s, plan.Keys) && ValuesOf(s) == t && Separate(s)
    decreases t
  {
    if n == null {
      s := Leaf;
    } else {
      assert Settled(plan, n);
      var l := Assemble(plan, n.left, t.left, path + [false]);
      var r := Assemble(plan, n.right, t.right, path + [true]);
      var node: TreeNode<V> := n;
      s := Node(l, node, r);
      Prefixes(path);
    }
  }

  lemma {:induction false} Prefixes(path: seq<bool>)
    ensures forall p: seq<bool> :: path + [false] <= p ==> path <= p && |p| > |path| && p[|path|] == false
    ensures forall p: seq<bool> :: path + [true] <= p ==> path <= p && |p| > |path| && p[|path|] == true
  {
    forall b, p: seq<bool> | path + [b] <= p ensures path <= p && |p| > |path| && p[|path|] == b {
      assert p[..|path| + 1] == path + [b];
      assert p[|path|] == (path + [b])[|path|];
    }
  }

  lemma {:induction false} AllSettled<V>(plan: Plan<V>, queue: seq<TreeNode<V>>, rest: seq<Option<V>>)
    requires Reading(plan, queue, rest) && (queue == [] || rest == [])
    ensures forall m {:trigger Settled(plan, m)} :: m in plan ==> Settled(plan, m)
  {
    forall m | m in plan && m in queue ensures Settled(plan, m) {
      var i :| 0 <= i < |queue| && queue[i] == m;
      assert Waiting(plan, queue, DecodeQueue(NodeValues(queue), rest), i);
    }
  }

  method ArrayToTree<V>(arr: seq<Option<V>>) returns (root: TreeNode?<V>, ghost s: Shape<V>)
    ensures fresh(Elements(s)) && Separate(s)
    ensures Linked(root, s, Elements(s)) && ValuesOf(s) == Decode(arr)
  {
    if arr == [] {
      return null, Leaf;
    }
    var top := new TreeNode(arr[0]);
    var queue := [top];
    var i := 1;
    ghost var plan: Plan<V> := map[top := Place(Decode(arr), [])];
    ghost var rest := arr[1..];
    StartReading(plan, top, arr);
    while queue != [] && i < |arr|
      invariant rest == if i <= |arr| then arr[i..] else []
      invariant Reading(plan, queue, rest) && fresh(plan.Keys)
      invariant top in plan && plan[top] == Place(Decode(arr), [])
      decreases |arr| - i
    {
      var l, r := arr[i], if i + 1 < |arr| then arr[i + 1] else None;
      assert Waiting(plan, queue, DecodeQueue(NodeValues(queue), rest), 0);
      queue, plan := ReadTwo(queue, l, r, plan, rest);
      rest := AfterTwo(rest);
      i := i + 2;
    }
    AllSettled(plan, queue, rest);
    s := Assemble(plan, top, Decode(arr), []);
    LinkedIn(top, s, plan.Keys, Elements(s));
    root := top;
  }

  lemma {:induction false} StartReading<V>(plan: Plan<V>, top: TreeNode<V>, arr: seq<Option<V>>)
    requires arr != [] && top.val == arr[0] && top.left == null && top.right == null
    requires plan == map[top := Place(Decode(arr), [])]
    ensures Reading(plan, [top], arr[1..])
  {
    assert NodeValues([top]) == [arr[0]];
  }

  // ----- treeToArray -----

  ghost predicate AllLinked<V>(queue: seq<TreeNode?<V>>, ss: seq<Shape<V>>, repr: set<TreeNode<V>>)
    reads repr
  {
    |queue| == |ss| && forall i {:trigger ss[i]} :: 0 <= i < |ss| ==>
      Elements(ss[i]) <= repr && Linked(queue[i], ss[i], repr)
  }

  ghost function AllValues<V>(ss: seq<Shape<V>>): seq<Values<V>> {
    if ss == [] then [] else [ValuesOf(ss[0])] + AllValues(ss[1..])
  }

  lemma {:induction false} AllValuesJoin<V>(a: seq<Shape<V>>, b: seq<Shape<V>>)
    ensures AllValues(a + b) == AllValues(a) + AllValues(b)
  {
    if a == [] {
      assert a + b == b;
    } else {
      assert (a + b)[1..] == a[1..] + b;
      AllValuesJoin(a[1..], b);
    }
  }

  lemma {:induction false} EncodeNext<V>(ss: seq<Shape<V>>)
    requires ss != []
    ensures EncodeQueue(AllValues(ss)) ==
      [RootValue(ValuesOf(ss[0]))] + EncodeQueue(AllValues(ss[1..] + Children(ss[0])))
    ensures Weight(ss[1..] + Children(ss[0])) < Weight(ss)
  {
    QueueShrinks(ss);
    AllValuesJoin(ss[1..], Children(ss[0]));
    EncodeFront(ValuesOf(ss[0]), AllValues(ss[1..]));
    ValuesOfChildren(ss[0]);
  }

  lemma {:induction false} ValuesOfChildren<V>(s: Shape<V>)
    ensures AllValues(Children(s)) == Children(ValuesOf(s))
  {
    if s.Node? {
      assert AllValues([s.left]) == [ValuesOf(s.left)] && AllValues([s.right]) == [ValuesOf(s.right)];
      AllValuesJoin([s.left], [s.right]);
      assert Children(s) == [s.left] + [s.right];
    }
  }

  lemma LinkedChildren<V>(node: TreeNode<V>, s: Shape<V>, repr: set<TreeNode<V>>)
    requires Elements(s) <= repr && Linked(node, s, repr)
    ensures s.Node? && node == s.val && AllLinked([node.left, node.right], Children(s), repr)
  {
  }

  lemma AllLinkedJoin<V>(q: seq<TreeNode?<V>>, ss: seq<Shape<V>>, q': seq<TreeNode?<V>>, ss': seq<Shape<V>>,
                         repr: set<TreeNode<V>>)
    requires AllLinked(q, ss, repr) && AllLinked(q', ss', repr)
    ensures AllLinked(q + q', ss + ss', repr)
  {
  }

  lemma AllLinkedTail<V>(q: seq<TreeNode?<V>>, ss: seq<Shape<V>>, repr: set<TreeNode<V>>)
    requires AllLinked(q, ss, repr) && q != []
    ensures Elements(ss[0]) <= repr && Linked(q[0], ss[0], repr) && AllLinked(q[1..], ss[1..], repr)
  {
  }

  /** One turn of the loop. */
  method WriteNode<V>(queue: seq<TreeNode?<V>>, ghost ss: seq<Shape<V>>, ghost repr: set<TreeNode<V>>)
      returns (written: Option<V>, queue': seq<TreeNode?<V>>)
    requires AllLinked(queue, ss, repr) && queue != []
    ensures written == RootValue(ValuesOf(ss[0])) && AllLinked(queue', ss[1..] + Children(ss[0]), repr)
  {
    var node := queue[0];
    AllLinkedTail(queue, ss, repr);
    if node != null {
      LinkedChildren(node, ss[0], repr);
      AllLinkedJoin(queue[1..], ss[1..], [node.left, node.right], Children(ss[0]), repr);
      return node.val, queue[1..] + [node.left, node.right];
    }
    assert ss[1..] + Children(ss[0]) == ss[1..];
    return None, queue[1..];
  }

  method TreeToArray<V(==)>(root: TreeNode?<V>, ghost s: Shape<V>) returns (res: seq<Option<V>>)
    requires Linked(root, s, Elements(s))
    ensures res == Encode(ValuesOf(s))
  {
    if root == null {
      return [];
    }
    res := [];
    var queue: seq<TreeNode?<V>> := [root];
    ghost var ss, todo := [s], EncodeQueue([ValuesOf(s)]);
    assert AllValues(ss) == [ValuesOf(s)];
    while queue != []
      invariant AllLinked(queue, ss, Elements(s))
      invariant todo == EncodeQueue(AllValues(ss)) && res + todo == EncodeQueue([ValuesOf(s)])
      decreases Weight(ss)
    {
      EncodeNext(ss);
      var written;
      written, queue := WriteNode(queue, ss, Elements(s));
      ss := ss[1..] + Children(ss[0]);
      res, todo := res + [written], todo[1..];
    }
    assert ss == [] && todo == [] && res + [] == res;
    assert ValuesOf(s).Node?;
    res := PopNulls(res);
  }

  /** Drops the nulls at the end. */
  method PopNulls<V(==)>(res0: seq<Option<V>>) returns (res: seq<Option<V>>)
    ensures res == Strip(res0)
  {
    res := res0;
    while res != [] && res[|res| - 1] == None
      invariant Strip(res) == Strip(res0)
    {
      res := res[..|res| - 1];
    }
  }

  /** A tree of nodes written out and read back: a separate tree, with the same values exactly when they can be
      encoded. */
  method WriteAndRead<V(==)>(root: TreeNode?<V>, ghost s: Shape<V>) returns (copy: TreeNode?<V>, ghost t: Shape<V>)
    requires Linked(root, s, Elements(s))
    ensures fresh(Elements(t)) && Separate(t) && Linked(copy, t, Elements(t))
    ensures ValuesOf(t) == ValuesOf(s) <==> Encodable(ValuesOf(s))
  {
    var arr := TreeToArray(root, s);
    copy, t := ArrayToTree(arr);
    RoundTripExactly(ValuesOf(s));
  }

  // ----- invertTree -----

  function Mirror<A>(t: Tree<A>): (m: Tree<A>) {
    match t
    case Leaf => Leaf
    case Node(l, x, r) => Node(Mirror(r), x, Mirror(l))
  }

  lemma {:induction false} MirrorElements<A>(t: Tree<A>)
    ensures Elements(Mirror(t)) == Elements(t)
    ensures Separate(t) ==> Separate(Mirror(t))
  {
    if t.Node? {
      MirrorElements(t.left);
      MirrorElements(t.right);
    }
  }

  lemma {:induction false} MirrorValues<V>(s: Shape<V>)
    ensures ValuesOf(Mirror(s)) == Mirror(ValuesOf(s))
  {
    if s.Node? {
      MirrorValues(s.left);
      MirrorValues(s.right);
    }
  }

  /** The subtree that a path leads to; true is left. */
  function At<A>(t: Tree<A>, path: seq<bool>): Tree<A> {
    if path == [] then t
    else if t.Leaf? then Leaf
    else At(if path[0] then t.left else t.right, path[1..])
  }

  function Flipped(path: seq<bool>): seq<bool> {
    seq(|path|, i requires 0 <= i < |path| => !path[i])
  }

  /** Every path leads to what the path with left and right exchanged led to: the same value, or nothing. */
  lemma {:induction false} MirrorAt<A>(t: Tree<A>, path: seq<bool>)
    ensures At(Mirror(t), path) == Mirror(At(t, Flipped(path)))
    ensures At(Mirror(t), path).Node? <==> At(t, Flipped(path)).Node?
    ensures At(t, Flipped(path)).Node? ==> At(Mirror(t), path).val == At(t, Flipped(path)).val
    decreases |path|
  {
    if path != [] && t.Node? {
      assert Flipped(path)[1..] == Flipped(path[1..]);
      MirrorAt(if path[0] then t.right else t.left, path[1..]);
    }
  }

  method InvertTree<V>(root: TreeNode?<V>, ghost s: Shape<V>) returns (r: TreeNode?<V>)
    requires Linked(root, s, Elements(s)) && Separate(s)
    modifies Elements(s)
    ensures Elements(Mirror(s)) == Elements(s) && Separate(Mirror(s))
    ensures r == root && Linked(r, Mirror(s), Elements(s))
    decreases s
  {
    MirrorElements(s);
    if root == null {
      return null;
    }
    ghost var all, ls, rs := Elements(s), Elements(s.left), Elements(s.right);
    ghost var l', r' := Mirror(s.left), Mirror(s.right);
    assert ls !! rs && root !in ls && root !in rs && all == ls + {root} + rs;
    LinkedIn(root.left, s.left, all, ls);
    LinkedIn(root.right, s.right, all, rs);
    ghost var was := root.right;
    assert Linked(was, s.right, rs);
    var left := InvertTree(root.left, s.left);
    assert root.right == was && Linked(was, s.right, rs);
    assert Linked(left, l', ls);
    var right := InvertTree(root.right, s.right);
    assert Linked(left, l', ls);
    assert Linked(right, r', rs);
    root.left := right;
    root.right := left;
    assert Linked(left, l', ls);
    assert Linked(right, r', rs);
    LinkedIn(left, l', ls, all);
    LinkedIn(right, r', rs, all);
    return root;
  }
}
