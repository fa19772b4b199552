/**
 Binary heaps over the first n of a sequence of keys: the facts that the sift loops of both heaps of
 the repository need.  A hole is the one slot where the order may be broken while an item is moved.
*/
module HeapOrder {
  import opened Sequences

  function Parent(i: nat): nat
    requires i > 0
  {
    (i - 1) / 2
  }

  predicate Below(ks: seq<int>, i: nat)
    requires 0 < i < |ks|
  {
    ks[Parent(i)] <= ks[i]
  }

  predicate Bridges(ks: seq<int>, hole: nat, c: nat)
    requires 0 < hole < |ks| && c < |ks|
  {
    ks[Parent(hole)] <= ks[c]
  }

  ghost predicate IsHeap(ks: seq<int>, n: nat)
    requires n <= |ks|
  {
    forall i {:trigger Below(ks, i)} :: 0 < i < n ==> Below(ks, i)
  }

  /** All pairs away from hole are in order, and its children are not smaller than its parent. */
  ghost predicate HoleAt(ks: seq<int>, n: nat, hole: nat)
    requires n <= |ks|
  {
    && (forall i {:trigger Below(ks, i)} :: 0 < i < n && i != hole && Parent(i) != hole ==> Below(ks, i))
    && (0 < hole ==> forall c {:trigger Bridges(ks, hole, c)} :: hole < c < n && Parent(c) == hole ==>
      Bridges(ks, hole, c))
  }

  ghost predicate AboveChildren(ks: seq<int>, n: nat, i: nat)
    requires n <= |ks|
  {
    forall c {:trigger Below(ks, c)} :: 0 < c < n && Parent(c) == i ==> Below(ks, c)
  }

  predicate BelowParent(ks: seq<int>, n: nat, i: nat)
    requires n <= |ks|
  {
    0 < i < n ==> Below(ks, i)
  }

  lemma {:induction false} RootIsLeast(ks: seq<int>, n: nat, i: nat)
    requires n <= |ks| && IsHeap(ks, n) && i < n
    ensures ks[0] <= ks[i]
  {
    if i > 0 {
      assert Below(ks, i);
      RootIsLeast(ks, n, Parent(i));
    }
  }

  lemma HoleFilled(ks: seq<int>, n: nat, i: nat)
    requires n <= |ks| && HoleAt(ks, n, i) && AboveChildren(ks, n, i) && BelowParent(ks, n, i)
    ensures IsHeap(ks, n)
  {
  }

  /** Replacing one key of a heap, and looking only at a prefix, leaves a heap with a hole. */
  lemma {:induction false} ReplaceMakesHole(ks: seq<int>, ks': seq<int>, n: nat, i: nat)
    requires IsHeap(ks, |ks|) && n <= |ks| == |ks'| && i < |ks|
    requires forall k :: 0 <= k < n && k != i ==> ks'[k] == ks[k]
    ensures HoleAt(ks', n, i)
  {
    forall c | 0 < c < n && c != i && Parent(c) != i ensures Below(ks', c) {
      assert Below(ks, c);
    }
    if 0 < i {
      forall c | i < c < n && Parent(c) == i ensures Bridges(ks', i, c) {
        assert Below(ks, c) && Below(ks, i);
      }
    }
  }

  lemma {:induction false} AppendMakesHole(ks: seq<int>, x: int)
    requires IsHeap(ks, |ks|)
    ensures HoleAt(ks + [x], |ks| + 1, |ks|) && AboveChildren(ks + [x], |ks| + 1, |ks|)
  {
    forall c | 0 < c < |ks| ensures Below(ks + [x], c) {
      assert Below(ks, c);
    }
  }

  lemma {:induction false} PrefixIsHeap(ks: seq<int>, n: nat)
    requires n <= |ks| && IsHeap(ks, n)
    ensures IsHeap(ks[..n], n)
  {
    forall c | 0 < c < n ensures Below(ks[..n], c) {
      assert Below(ks, c);
    }
  }

  /** One step of sifting up. */
  lemma {:induction false} SwapUp(ks: seq<int>, n: nat, i: nat)
    requires 0 < i < n <= |ks| && HoleAt(ks, n, i) && AboveChildren(ks, n, i) && !Below(ks, i)
    ensures var p := Parent(i); HoleAt(Swapped(ks, i, p), n, p) && AboveChildren(Swapped(ks, i, p), n, p)
  {
    var p := Parent(i);
    var ks' := Swapped(ks, i, p);
    forall c | 0 < c < n && c != p ensures Below(ks', c) {
      if Parent(c) == i { assert Bridges(ks, i, c); }
      else if c != i { assert Below(ks, c); }
    }
    if p > 0 {
      assert Below(ks, p);
      forall c | p < c < n && Parent(c) == p ensures Bridges(ks', p, c) {
        if c != i { assert Below(ks, c); }
      }
    }
  }

  /** Slot j holds the smallest key below slot i. */
  predicate SmallestChild(ks: seq<int>, n: nat, i: nat, j: nat)
    requires n <= |ks|
  {
    && i < j < n && (j == 2 * i + 1 || j == 2 * i + 2)
    && ks[j] <= ks[2 * i + 1]
    && (2 * i + 2 < n ==> ks[j] <= ks[2 * i + 2])
  }

  lemma {:induction false} NoSmallerChild(ks: seq<int>, n: nat, i: nat)
    requires i < n <= |ks| && (2 * i + 1 < n ==> ks[i] <= ks[2 * i + 1]) && (2 * i + 2 < n ==> ks[i] <= ks[2 * i + 2])
    ensures AboveChildren(ks, n, i)
  {
    forall c | 0 < c < n && Parent(c) == i ensures Below(ks, c) {
      assert c == 2 * i + 1 || c == 2 * i + 2;
    }
  }

  lemma {:induction false} DoneSifting(ks: seq<int>, n: nat, i: nat)
    requires i < n <= |ks| && HoleAt(ks, n, i)
    requires (2 * i + 1 < n ==> ks[i] <= ks[2 * i + 1]) && (2 * i + 2 < n ==> ks[i] <= ks[2 * i + 2])
    ensures AboveChildren(ks, n, i)
    ensures BelowParent(ks, n, i) ==> IsHeap(ks, n)
  {
    NoSmallerChild(ks, n, i);
  }

  /** One step of sifting down, to the smaller child. */
  lemma {:induction false} SwapDown(ks: seq<int>, n: nat, i: nat, j: nat)
    requires n <= |ks| && SmallestChild(ks, n, i, j) && HoleAt(ks, n, i) && ks[j] < ks[i]
    ensures HoleAt(Swapped(ks, i, j), n, j) && BelowParent(Swapped(ks, i, j), n, j)
  {
    var ks' := Swapped(ks, i, j);
    forall c | 0 < c < n && c != j && Parent(c) != j ensures Below(ks', c) {
      if c == i {
        assert Bridges(ks, i, j);
      } else if Parent(c) == i {
        assert c == 2 * i + 1 || c == 2 * i + 2;
      } else {
        assert Below(ks, c);
      }
    }
    forall c | j < c < n && Parent(c) == j ensures Bridges(ks', j, c) {
      assert Below(ks, c);
    }
  }
}
