/**
 The multi-version store of systems-engineering/database-systems/impl/mvcc_lab/mvcc.py.

 Store is the value of the object's fields; each method of the class is tied to a function on it, and
 the theorems speak of every sequence of calls.
*/
module Mvcc {
  import opened Wrappers
  import opened Sets

  type Key = string

  /** A row's versions, newest first. */
  datatype Chain = NoVersion | Version(trxId: int, value: int, prev: Chain)

  datatype ReadView = ReadView(mIds: set<int>, minTrxId: int, maxTrxId: int, creatorTrxId: int) {
    predicate IsVisible(trxId: int) {
      if trxId < minTrxId then true
      else if trxId >= maxTrxId then false
      else if trxId in mIds then false
      else true
    }
  }

  datatype Store = Store(rows: map<Key, Chain>, trxCounter: nat, activeTrx: set<int>)

  lemma {:induction false} HasLeast(s: set<int>)
    requires s != {}
    ensures exists m :: m in s && forall x :: x in s ==> m <= x
  {
    var y := Pick(s);
    var rest := s - {y};
    assert s == rest + {y};
    if rest == {} {
      assert forall x :: x in s ==> y <= x;
    } else {
      HasLeast(rest);
      var m :| m in rest && forall x :: x in rest ==> m <= x;
      var least := if y < m then y else m;
      assert least in s && forall x :: x in s ==> least <= x;
    }
  }

  function Least(s: set<int>): (m: int)
    requires s != {}
    ensures m in s && forall x :: x in s ==> m <= x
  {
    HasLeast(s);
    var m :| m in s && forall x :: x in s ==> m <= x;
    m
  }

  function MakeReadView(s: Store, tid: int): ReadView {
    ReadView(s.activeTrx - {tid}, if s.activeTrx != {} then Least(s.activeTrx) else tid, s.trxCounter + 1, tid)
  }

  function Row(s: Store, key: Key): Chain {
    if key in s.rows then s.rows[key] else NoVersion
  }

  /** The value of the newest visible version. */
  function ReadChain(c: Chain, view: ReadView): Option<int> {
    match c
    case NoVersion => None
    case Version(t, v, prev) => if view.IsVisible(t) then Some(v) else ReadChain(prev, view)
  }

  datatype Op = Begin | Commit(tid: int) | Write(tid: int, key: Key, value: int)

  function Apply(s: Store, op: Op): Store {
    match op
    case Begin => s.(trxCounter := s.trxCounter + 1, activeTrx := s.activeTrx + {s.trxCounter + 1})
    case Commit(tid) => s.(activeTrx := s.activeTrx - {tid})
    case Write(tid, key, value) => s.(rows := s.rows[key := Version(tid, value, Row(s, key))])
  }

  function Run(ops: seq<Op>): Store {
    if ops == [] then Store(map[], 0, {}) else Apply(Run(ops[..|ops| - 1]), ops[|ops| - 1])
  }

  class MVCCStore {
    var rows: map<Key, Chain>
    var trxCounter: nat
    var activeTrx: set<int>

    function Value(): Store
      reads this
    {
      Store(rows, trxCounter, activeTrx)
    }

    constructor ()
      ensures Value() == Run([])
    {
      rows, trxCounter, activeTrx := map[], 0, {};
    }

    method BeginTrx() returns (tid: int)
      modifies this
      ensures Value() == Apply(old(Value()), Begin)
      ensures tid == trxCounter == old(trxCounter) + 1 && activeTrx == old(activeTrx) + {tid} && rows == old(rows)
    {
      trxCounter := trxCounter + 1;
      tid := trxCounter;
      activeTrx := activeTrx + {tid};
    }

    method CommitTrx(tid: int)
      modifies this
      ensures Value() == Apply(old(Value()), Commit(tid))
      ensures activeTrx == old(activeTrx) - {tid} && trxCounter == old(trxCounter) && rows == old(rows)
    {
      activeTrx := activeTrx - {tid};
    }

    method WriteRow(tid: int, key: Key, value: int)
      modifies this
      ensures Value() == Apply(old(Value()), Write(tid, key, value))
      ensures activeTrx == old(activeTrx) && trxCounter == old(trxCounter)
      ensures rows == old(rows)[key := Version(tid, value, if key in old(rows) then old(rows)[key] else NoVersion)]
    {
      var prev := if key in rows then rows[key] else NoVersion;
      rows := rows[key := Version(tid, value, prev)];
    }

    method ReadWithView(key: Key, view: ReadView) returns (r: Option<int>)
      ensures r == ReadChain(Row(Value(), key), view)
    {
      var ver := if key in rows then rows[key] else NoVersion;
      while ver.Version?
        invariant ReadChain(ver, view) == ReadChain(Row(Value(), key), view)
        decreases ver
      {
        if view.IsVisible(ver.trxId) {
          return Some(ver.value);
        }
        ver := ver.prev;
      }
      return None;
    }

    method ReadRc(tid: int, key: Key) returns (r: Option<int>)
      ensures r == ReadChain(Row(Value(), key), MakeReadView(Value(), tid))
    {
      var view := MakeReadView(Value(), tid);
      r := ReadWithView(key, view);
    }

    method ReadRr(tid: int, key: Key, view: ReadView) returns (r: Option<int>)
      ensures r == ReadChain(Row(Value(), key), view)
    {
      r := ReadWithView(key, view);
    }
  }

  // ----- what a read view sees -----

  /** At some point of the history the transaction was active and committed. */
  ghost predicate CommittedIn(ops: seq<Op>, t: int) {
    exists i :: 0 <= i < |ops| && ops[i] == Commit(t) && t in Run(ops[..i]).activeTrx
  }

  lemma {:induction false} CommittedGrows(ops: seq<Op>, op: Op, t: int)
    ensures CommittedIn(ops + [op], t) <==> CommittedIn(ops, t) || (op == Commit(t) && t in Run(ops).activeTrx)
  {
    var all := ops + [op];
    assert all[..|ops|] == ops;
    assert forall i :: 0 <= i < |ops| ==> all[..i] == ops[..i] && all[i] == ops[i];
    if op == Commit(t) && t in Run(ops).activeTrx {
      assert all[|ops|] == Commit(t);
    }
    if CommittedIn(ops, t) {
      var i :| 0 <= i < |ops| && ops[i] == Commit(t) && t in Run(ops[..i]).activeTrx;
      assert all[i] == Commit(t) && t in Run(all[..i]).activeTrx;
    }
  }

  /** An issued transaction is either active or committed, never both; the others are neither. */
  lemma {:induction false} ActiveOrCommitted(ops: seq<Op>, t: int)
    ensures t in Run(ops).activeTrx ==> 1 <= t <= Run(ops).trxCounter
    ensures CommittedIn(ops, t) <==> 1 <= t <= Run(ops).trxCounter && t !in Run(ops).activeTrx
  {
    if ops != [] {
      var before, op := ops[..|ops| - 1], ops[|ops| - 1];
      assert ops == before + [op];
      ActiveOrCommitted(before, t);
      CommittedGrows(before, op, t);
    }
  }

  /** Visibility is exactly "committed before the view, or the creator's own while it is active" - except
      that a view made for a number not yet issued, when nothing is active, also sees the unissued
      numbers below it. */
  lemma {:induction false} VisibleExactly(ops: seq<Op>, creator: int, t: int)
    requires 1 <= t
    ensures var s := Run(ops);
      MakeReadView(s, creator).IsVisible(t) <==>
        CommittedIn(ops, t) || (t == creator && creator in s.activeTrx) ||
          (s.activeTrx == {} && s.trxCounter < t < creator)
  {
    ActiveOrCommitted(ops, t);
    ActiveOrCommitted(ops, creator);
    var s := Run(ops);
    if s.activeTrx != {} {
      ActiveOrCommitted(ops, Least(s.activeTrx));
    }
  }

  // ----- only active transactions write -----

  /** Every write in the history was made by a transaction active at that moment. */
  ghost predicate Disciplined(ops: seq<Op>) {
    forall i :: 0 <= i < |ops| && ops[i].Write? ==> ops[i].tid in Run(ops[..i]).activeTrx
  }

  ghost predicate WritesOnly(c: Chain, p: int -> bool) {
    c.Version? ==> p(c.trxId) && WritesOnly(c.prev, p)
  }

  lemma {:induction false} DisciplinedPrefix(ops: seq<Op>, n: nat)
    requires Disciplined(ops) && n <= |ops|
    ensures Disciplined(ops[..n])
  {
    forall i | 0 <= i < n && ops[..n][i].Write? ensures ops[..n][i].tid in Run(ops[..n][..i]).activeTrx {
      assert ops[..n][..i] == ops[..i];
    }
  }

  lemma {:induction false} Widen(c: Chain, p: int -> bool, q: int -> bool)
    requires WritesOnly(c, p) && forall t :: p(t) ==> q(t)
    ensures WritesOnly(c, q)
  {
    if c.Version? { Widen(c.prev, p, q); }
  }

  /** All versions carry issued transaction numbers. */
  lemma {:induction false} WritersIssued(ops: seq<Op>, key: Key)
    requires Disciplined(ops)
    ensures var n := Run(ops).trxCounter; WritesOnly(Row(Run(ops), key), t => 1 <= t <= n)
  {
    if ops != [] {
      var before, op := ops[..|ops| - 1], ops[|ops| - 1];
      DisciplinedPrefix(ops, |ops| - 1);
      WritersIssued(before, key);
      var m, n := Run(before).trxCounter, Run(ops).trxCounter;
      Widen(Row(Run(before), key), t => 1 <= t <= m, t => 1 <= t <= n);
      if op.Write? {
        ActiveOrCommitted(before, op.tid);
      }
    }
  }

  /** Later, only the transactions active now and those begun since can be active. */
  lemma {:induction false} LaterActive(ops: seq<Op>, more: seq<Op>, t: int)
    requires t in Run(ops + more).activeTrx
    ensures t in Run(ops).activeTrx || t > Run(ops).trxCounter
    ensures Run(ops).trxCounter <= Run(ops + more).trxCounter
  {
    if more == [] {
      assert ops + more == ops;
    } else {
      var k := |more| - 1;
      assert (ops + more)[..|ops + more| - 1] == ops + more[..k];
      if t in Run(ops + more[..k]).activeTrx {
        LaterActive(ops, more[..k], t);
      } else {
        CounterGrows(ops, more[..k]);
      }
      CounterGrows(ops, more[..k]);
    }
  }

  lemma {:induction false} CounterGrows(ops: seq<Op>, more: seq<Op>)
    ensures Run(ops).trxCounter <= Run(ops + more).trxCounter
  {
    if more == [] {
      assert ops + more == ops;
    } else {
      assert (ops + more)[..|ops + more| - 1] == ops + more[..|more| - 1];
      CounterGrows(ops, more[..|more| - 1]);
    }
  }

  /** The version a view reads, with all older ones. */
  function Seen(c: Chain, view: ReadView): Chain {
    if c.NoVersion? || view.IsVisible(c.trxId) then c else Seen(c.prev, view)
  }

  function Length(c: Chain): nat {
    if c.NoVersion? then 0 else Length(c.prev) + 1
  }

  lemma {:induction false} SeenIsRead(c: Chain, view: ReadView)
    ensures ReadChain(c, view) == if Seen(c, view).NoVersion? then None else Some(Seen(c, view).value)
    ensures Length(Seen(c, view)) <= Length(c)
  {
    if c.Version? { SeenIsRead(c.prev, view); }
  }

  predicate SeenWrite(op: Op, key: Key, view: ReadView) {
    op.Write? && op.key == key && view.IsVisible(op.tid)
  }

  /** What one call does to a snapshot: it changes exactly when the call is a write of a visible writer. */
  lemma {:induction false} StepSeen(s: Store, op: Op, key: Key, view: ReadView)
    ensures SeenWrite(op, key, view) ==>
      && Seen(Row(Apply(s, op), key), view) == Row(Apply(s, op), key)
      && Length(Seen(Row(Apply(s, op), key), view)) > Length(Seen(Row(s, key), view))
    ensures !SeenWrite(op, key, view) ==> Seen(Row(Apply(s, op), key), view) == Seen(Row(s, key), view)
  {
    SeenIsRead(Row(s, key), view);
  }

  lemma {:induction false} RunMore(ops: seq<Op>, more: seq<Op>)
    requires more != []
    ensures Run(ops + more) == Apply(Run(ops + more[..|more| - 1]), more[|more| - 1])
  {
    assert (ops + more)[..|ops + more| - 1] == ops + more[..|more| - 1];
  }

  ghost predicate NoneSeen(more: seq<Op>, key: Key, view: ReadView) {
    forall i :: 0 <= i < |more| ==> !SeenWrite(more[i], key, view)
  }

  /** A view's snapshot of a key, whichever view it is and whoever wrote: it is kept over a later history
      exactly when none of the key's writers in it is visible. */
  lemma {:induction false} SnapshotKeptExactly(ops: seq<Op>, more: seq<Op>, key: Key, view: ReadView)
    ensures Length(Seen(Row(Run(ops + more), key), view)) >= Length(Seen(Row(Run(ops), key), view))
    ensures Seen(Row(Run(ops + more), key), view) == Seen(Row(Run(ops), key), view) <==> NoneSeen(more, key, view)
  {
    if more == [] {
      assert ops + more == ops;
    } else {
      var before, op := more[..|more| - 1], more[|more| - 1];
      SnapshotKeptExactly(ops, before, key, view);
      RunMore(ops, more);
      StepSeen(Run(ops + before), op, key, view);
      assert NoneSeen(more, key, view) <==> NoneSeen(before, key, view) && !SeenWrite(op, key, view);
    }
  }

  /** The value of the last write a view sees. */
  function LastSeen(more: seq<Op>, key: Key, view: ReadView): Option<int> {
    if more == [] then None
    else
      var op := more[|more| - 1];
      if SeenWrite(op, key, view) then Some(op.value) else LastSeen(more[..|more| - 1], key, view)
  }

  /** And what is read if it is not kept: the last of those writes. */
  lemma {:induction false} ReadsLastSeen(ops: seq<Op>, more: seq<Op>, key: Key, view: ReadView)
    ensures ReadChain(Row(Run(ops + more), key), view) ==
      if LastSeen(more, key, view) == None then ReadChain(Row(Run(ops), key), view) else LastSeen(more, key, view)
    ensures LastSeen(more, key, view) == None <==> NoneSeen(more, key, view)
  {
    if more == [] {
      assert ops + more == ops;
    } else {
      var before, op := more[..|more| - 1], more[|more| - 1];
      ReadsLastSeen(ops, before, key, view);
      RunMore(ops, more);
      assert NoneSeen(more, key, view) <==> NoneSeen(before, key, view) && !SeenWrite(op, key, view);
    }
  }

  /** What a writer can check before it writes: whether it was active beside the creator when the view was
      made, or had not begun then. */
  ghost predicate Beside(s: Store, creator: int, t: int) {
    (t in s.activeTrx && t != creator) || t >= MakeReadView(s, creator).maxTrxId
  }

  lemma {:induction false} InvisibleExactly(ops: seq<Op>, creator: int, t: int)
    requires creator in Run(ops).activeTrx
    ensures !MakeReadView(Run(ops), creator).IsVisible(t) <==> Beside(Run(ops), creator, t)
  {
    ActiveOrCommitted(ops, creator);
    ActiveOrCommitted(ops, t);
    ActiveOrCommitted(ops, Least(Run(ops).activeTrx));
  }

  /** Repeatable read holds for a key, over any later history and whoever wrote in it, exactly when each of the
      key's writers was another transaction active when the view was made, or had not begun then. */
  lemma {:induction false} RepeatableExactly(ops: seq<Op>, more: seq<Op>, creator: int, key: Key)
    requires creator in Run(ops).activeTrx
    ensures var view := MakeReadView(Run(ops), creator);
      Seen(Row(Run(ops + more), key), view) == Seen(Row(Run(ops), key), view) <==>
        forall i :: 0 <= i < |more| && more[i].Write? && more[i].key == key ==> Beside(Run(ops), creator, more[i].tid)
  {
    var view := MakeReadView(Run(ops), creator);
    SnapshotKeptExactly(ops, more, key, view);
    forall i | 0 <= i < |more| && more[i].Write? && more[i].key == key
      ensures SeenWrite(more[i], key, view) <==> !Beside(Run(ops), creator, more[i].tid)
    {
      InvisibleExactly(ops, creator, more[i].tid);
    }
  }

  /** So a view keeps reading the same value as long as only active transactions write and the creator does
      not write this key. */
  lemma {:induction false} RepeatableRead(ops: seq<Op>, more: seq<Op>, creator: int, key: Key)
    requires creator in Run(ops).activeTrx && Disciplined(ops + more)
    requires forall i :: 0 <= i < |more| && more[i].Write? && more[i].key == key ==> more[i].tid != creator
    ensures var view := MakeReadView(Run(ops), creator);
      && Seen(Row(Run(ops + more), key), view) == Seen(Row(Run(ops), key), view)
      && ReadChain(Row(Run(ops + more), key), view) == ReadChain(Row(Run(ops), key), view)
  {
    var view := MakeReadView(Run(ops), creator);
    forall i | 0 <= i < |more| && more[i].Write? && more[i].key == key ensures Beside(Run(ops), creator, more[i].tid) {
      assert (ops + more)[|ops| + i] == more[i] && (ops + more)[..|ops| + i] == ops + more[..i];
      LaterActive(ops, more[..i], more[i].tid);
    }
    RepeatableExactly(ops, more, creator, key);
    SeenIsRead(Row(Run(ops), key), view);
    SeenIsRead(Row(Run(ops + more), key), view);
  }

  /** A history in which it fails: a transaction that writes after committing changes what an older snapshot
      reads. */
  lemma {:induction false} LateWriterBreaksSnapshot(key: Key)
    ensures var ops := [Begin, Commit(1), Begin];
      var view := MakeReadView(Run(ops), 2);
      && 2 in Run(ops).activeTrx
      && ReadChain(Row(Run(ops), key), view) == None
      && ReadChain(Row(Run(ops + [Write(1, key, 7)]), key), view) == Some(7)
  {
    var ops := [Begin, Commit(1), Begin];
    assert ops[..2] == [Begin, Commit(1)] && [Begin, Commit(1)][..1] == [Begin] && [Begin][..0] == [];
    assert Run([Begin]) == Store(map[], 1, {1});
    assert Run([Begin, Commit(1)]) == Store(map[], 1, {});
    assert Run(ops) == Store(map[], 2, {2});
    assert (ops + [Write(1, key, 7)])[..3] == ops;
    CommittedGrows([Begin], Commit(1), 1);
    assert [Begin] + [Commit(1)] == [Begin, Commit(1)];
    CommittedGrows([Begin, Commit(1)], Begin, 1);
    assert [Begin, Commit(1)] + [Begin] == ops;
    VisibleExactly(ops, 2, 1);
    assert MakeReadView(Run(ops), 2).IsVisible(1);
  }

  // ----- read committed -----

  /** c's version number k, counting from the newest. */
  function Nth(c: Chain, k: nat): Chain {
    if k == 0 || c.NoVersion? then c else Nth(c.prev, k - 1)
  }

  /** The version a view reads: everything newer is invisible to it. */
  ghost predicate Picks(c: Chain, view: ReadView, k: nat) {
    && Nth(c, k).Version? && view.IsVisible(Nth(c, k).trxId)
    && forall j :: 0 <= j < k ==> Nth(c, j).Version? && !view.IsVisible(Nth(c, j).trxId)
  }

  lemma {:induction false} ReadPicks(c: Chain, view: ReadView) returns (k: nat)
    ensures ReadChain(c, view) != None ==> Picks(c, view, k) && ReadChain(c, view) == Some(Nth(c, k).value)
    ensures ReadChain(c, view) == None ==> forall j: nat :: Nth(c, j).Version? ==> !view.IsVisible(Nth(c, j).trxId)
  {
    k := 0;
    if c.Version? && !view.IsVisible(c.trxId) {
      var k' := ReadPicks(c.prev, view);
      k := k' + 1;
      forall j: nat | j > 0 ensures Nth(c, j) == Nth(c.prev, j - 1) {}
    }
  }

  lemma {:induction false} NthIssued(c: Chain, n: int, k: nat)
    requires WritesOnly(c, t => 1 <= t <= n) && Nth(c, k).Version?
    ensures 1 <= Nth(c, k).trxId <= n
  {
    if k > 0 { NthIssued(c.prev, n, k - 1); }
  }

  /** Read committed, by an active transaction: the value read is the newest version that is the
      reader's own or committed, and every newer version belongs to another transaction still active;
      nothing is read only when all versions do. */
  lemma {:induction false} ReadCommitted(ops: seq<Op>, reader: int, key: Key) returns (k: nat)
    requires Disciplined(ops) && reader in Run(ops).activeTrx
    ensures var s := Run(ops);
      var c, r := Row(s, key), ReadChain(Row(s, key), MakeReadView(s, reader));
      && (r != None ==>
            && Nth(c, k).Version? && r == Some(Nth(c, k).value)
            && (Nth(c, k).trxId == reader || CommittedIn(ops, Nth(c, k).trxId))
            && (forall j :: 0 <= j < k ==> Nth(c, j).Version? && Nth(c, j).trxId in s.activeTrx - {reader}))
      && (r == None ==> forall j: nat :: Nth(c, j).Version? ==> Nth(c, j).trxId in s.activeTrx - {reader})
  {
    var s := Run(ops);
    var c, view := Row(s, key), MakeReadView(s, reader);
    k := ReadPicks(c, view);
    WritersIssued(ops, key);
    forall j: nat | Nth(c, j).Version?
      ensures view.IsVisible(Nth(c, j).trxId) <==> CommittedIn(ops, Nth(c, j).trxId) || Nth(c, j).trxId == reader
      ensures CommittedIn(ops, Nth(c, j).trxId) <==> Nth(c, j).trxId !in s.activeTrx {
      var t := Nth(c, j).trxId;
      NthIssued(c, s.trxCounter, j);
      ActiveOrCommitted(ops, t);
      VisibleExactly(ops, reader, t);
    }
  }
}
