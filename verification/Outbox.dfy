/**
 The transactional outbox of engineering/backend/data-consistency/outbox-pattern/impl.ts: the worker that
 publishes what the outbox holds, the store and the queue in memory, and the consumer that drops
 duplicates.

 What the message queue does with a publish, when the worker crashes, and the clock are arguments.  Polls
 do not overlap, and no two records in the store have the same id.
*/
module Outbox {
  import opened Sequences
  import opened Wrappers

  datatype Record = Record(id: string, body: string, createdAt: int, publishedAt: Option<int>, retryCount: int)

  datatype Envelope = Envelope(id: string, body: string)

  /** The queue accepts the message; or it accepts it and the call fails; or it does not accept it. */
  datatype Publish = Acked | AckLost | Refused

  /** Where a poll dies: before it turns to a record, or with the record's publish made and not accounted for. */
  datatype Crash = NoCrash | BeforeRecord(k: nat) | AfterPublish(k: nat)

  /** The number built into the store's query. */
  const LIVE_RETRIES := 5

  predicate Live(r: Record) {
    r.publishedAt == None && r.retryCount < LIVE_RETRIES
  }

  ghost predicate DistinctIds(s: seq<Record>) {
    forall i, j :: 0 <= i < j < |s| ==> s[i].id != s[j].id
  }

  // ----- findUnpublished -----

  function Filter(s: seq<Record>): seq<Record> {
    if s == [] then [] else (if Live(s[0]) then [s[0]] else []) + Filter(s[1..])
  }

  /** Behind those created no later. */
  function Insert(x: Record, s: seq<Record>): seq<Record> {
    if s == [] || x.createdAt < s[0].createdAt then [x] + s else [s[0]] + Insert(x, s[1..])
  }

  /** The stable sort by time of creation. */
  function Sort(s: seq<Record>): seq<Record> {
    if s == [] then [] else Insert(s[|s| - 1], Sort(s[..|s| - 1]))
  }

  /** The first limit records; a negative limit counts from the end. */
  function Slice<T>(s: seq<T>, limit: int): seq<T> {
    var end := if limit < 0 then |s| + limit else limit;
    if end < 0 then [] else if end < |s| then s[..end] else s
  }

  function Batch(s: seq<Record>, limit: int): seq<Record> {
    Slice(Sort(Filter(s)), limit)
  }

  ghost predicate SortedByAge(s: seq<Record>) {
    forall i, j :: 0 <= i < j < |s| ==> s[i].createdAt <= s[j].createdAt
  }

  lemma {:induction false} FilterKeeps(s: seq<Record>)
    requires DistinctIds(s)
    ensures DistinctIds(Filter(s)) && forall r :: r in Filter(s) <==> r in s && Live(r)
  {
    if s != [] {
      FilterKeeps(s[1..]);
      assert s == [s[0]] + s[1..];
      forall r | r in Filter(s[1..]) ensures r.id != s[0].id {
        var i :| 0 <= i < |s[1..]| && s[1..][i] == r;
        assert s[i + 1] == r;
      }
    }
  }

  lemma {:induction false} InsertHas(x: Record, s: seq<Record>)
    ensures |Insert(x, s)| == |s| + 1 && forall r :: r in Insert(x, s) <==> r == x || r in s
  {
    if s != [] && x.createdAt >= s[0].createdAt {
      InsertHas(x, s[1..]);
      assert s == [s[0]] + s[1..];
    }
  }

  lemma {:induction false} InsertSorted(x: Record, s: seq<Record>)
    requires SortedByAge(s)
    ensures SortedByAge(Insert(x, s))
  {
    if s != [] && x.createdAt >= s[0].createdAt {
      InsertSorted(x, s[1..]);
      InsertHas(x, s[1..]);
      assert forall r :: r in s[1..] ==> s[0].createdAt <= r.createdAt;
      assert forall i :: 0 <= i < |s| ==> Insert(x, s[1..])[i] in Insert(x, s[1..]);
    }
  }

  lemma {:induction false} InsertDistinct(x: Record, s: seq<Record>)
    requires DistinctIds(s) && forall r :: r in s ==> r.id != x.id
    ensures DistinctIds(Insert(x, s))
  {
    if s != [] && x.createdAt >= s[0].createdAt {
      assert forall r :: r in s[1..] ==> r in s && s[0].id != r.id;
      InsertDistinct(x, s[1..]);
      InsertHas(x, s[1..]);
      assert forall i :: 0 <= i < |s| ==> Insert(x, s[1..])[i] in Insert(x, s[1..]);
    }
  }

  lemma {:induction false} SortSorts(s: seq<Record>)
    requires DistinctIds(s)
    ensures DistinctIds(Sort(s)) && SortedByAge(Sort(s)) && |Sort(s)| == |s|
    ensures forall r :: r in Sort(s) <==> r in s
  {
    if s != [] {
      var last := s[|s| - 1];
      SortSorts(s[..|s| - 1]);
      assert s == s[..|s| - 1] + [last];
      InsertHas(last, Sort(s[..|s| - 1]));
      InsertSorted(last, Sort(s[..|s| - 1]));
      InsertDistinct(last, Sort(s[..|s| - 1]));
    }
  }

  /** The batch is live records, oldest first, each once; with a limit that is not negative it is all of
      them, or as many of the oldest as the limit. */
  lemma {:induction false} BatchIsOldest(s: seq<Record>, limit: int)
    requires DistinctIds(s)
    ensures var b := Batch(s, limit); DistinctIds(b) && SortedByAge(b) && forall r :: r in b ==> r in s && Live(r)
    ensures limit >= 0 ==> forall r, x :: r in s && Live(r) && r !in Batch(s, limit) && x in Batch(s, limit) ==>
      x.createdAt <= r.createdAt
    ensures limit >= 0 ==> forall r :: r in s && Live(r) && r !in Batch(s, limit) ==> |Batch(s, limit)| == limit
  {
    FilterKeeps(s);
    SortSorts(Filter(s));
    var all, b := Sort(Filter(s)), Batch(s, limit);
    assert b <= all;
    if limit >= 0 {
      forall r, x | r in s && Live(r) && r !in b && x in b ensures x.createdAt <= r.createdAt {
        assert r in all;
        var i :| 0 <= i < |all| && all[i] == r;
        var j :| 0 <= j < |b| && b[j] == x;
        assert i >= |b| && all[j] == x;
      }
      forall r | r in s && Live(r) && r !in b ensures |b| == limit {
        assert r in all;
      }
    }
  }

  lemma {:induction false} BatchOk(s: seq<Record>, limit: int)
    requires DistinctIds(s)
    ensures DistinctIds(Batch(s, limit)) && forall r :: r in Batch(s, limit) ==> r in s
  {
    BatchIsOldest(s, limit);
  }

  // ----- the store and the queue -----

  ghost predicate HasId(s: seq<Record>, id: string) {
    exists i :: 0 <= i < |s| && s[i].id == id
  }

  /** What becomes of a record when its poll gave it the new count of retries, and when it was published. */
  function Counted(s: seq<Record>, id: string, retryCount: int): seq<Record> {
    seq(|s|, i requires 0 <= i < |s| => if s[i].id == id then s[i].(retryCount := retryCount) else s[i])
  }

  function Marked(s: seq<Record>, ids: seq<string>, at: int): seq<Record> {
    seq(|s|, i requires 0 <= i < |s| => if s[i].id in ids then s[i].(publishedAt := Some(at)) else s[i])
  }

  function Kept(s: seq<Record>, before: int): seq<Record> {
    if s == [] then []
    else (if s[0].publishedAt == None || s[0].publishedAt.value >= before then [s[0]] else []) + Kept(s[1..], before)
  }

  class InMemoryOutboxStore {
    var records: seq<Record>

    constructor ()
      ensures records == []
    {
      records := [];
    }

    method Insert(r: Record)
      modifies this
      ensures records == old(records) + [r]
    {
      records := records + [r];
    }

    method Find(id: string) returns (i: nat)
      ensures i <= |records| && (i < |records| ==> records[i].id == id)
      ensures forall j :: 0 <= j < i ==> records[j].id != id
    {
      i := 0;
      while i < |records| && records[i].id != id
        invariant i <= |records| && forall j :: 0 <= j < i ==> records[j].id != id
      {
        i := i + 1;
      }
    }

    method MarkFailed(id: string, retryCount: int)
      requires DistinctIds(records)
      modifies this
      ensures records == Counted(old(records), id, retryCount)
    {
      var i := Find(id);
      if i < |records| {
        records := records[i := records[i].(retryCount := retryCount)];
      }
    }

    method MarkPublished(ids: seq<string>, at: int)
      requires DistinctIds(records)
      modifies this
      ensures records == Marked(old(records), ids, at)
    {
      for n := 0 to |ids|
        invariant records == Marked(old(records), ids[..n], at)
      {
        MarkedDistinct(old(records), ids[..n], at);
        var i := Find(ids[n]);
        if i < |records| {
          records := records[i := records[i].(publishedAt := Some(at))];
        }
        assert ids[..n + 1] == ids[..n] + [ids[n]];
      }
      assert ids[..|ids|] == ids;
    }

    method DeletePublishedBefore(before: int) returns (deleted: nat)
      modifies this
      ensures records == Kept(old(records), before) && deleted == |old(records)| - |records|
    {
      var kept := [];
      for i := 0 to |records|
        invariant kept + Kept(records[i..], before) == Kept(records, before) && |kept| <= i
      {
        assert records[i..][1..] == records[i + 1..];
        if records[i].publishedAt == None || records[i].publishedAt.value >= before {
          kept := kept + [records[i]];
        }
      }
      deleted := |records| - |kept|;
      records := kept;
    }
  }

  lemma MarkedNone(s: seq<Record>, at: int)
    ensures Marked(s, [], at) == s
  {
  }

  lemma MarkedDistinct(s: seq<Record>, ids: seq<string>, at: int)
    requires DistinctIds(s)
    ensures DistinctIds(Marked(s, ids, at))
  {
  }

  class InMemoryMessageQueue {
    var published: seq<Envelope>

    constructor ()
      ensures published == []
    {
      published := [];
    }

    /** Whether the call returns; when it fails the message may have been accepted all the same. */
    method Publish(e: Envelope, outcome: Publish) returns (ok: bool)
      modifies this
      ensures ok <==> outcome == Acked
      ensures published == old(published) + (if outcome == Refused then [] else [e])
    {
      if outcome != Refused {
        published := published + [e];
      }
      ok := outcome == Acked;
    }
  }

  // ----- a poll -----

  function EnvelopeOf(r: Record): Envelope {
    Envelope(r.id, r.body)
  }

  function AcceptedNow(r: Record, outcome: Publish, maxRetries: int): seq<Envelope> {
    if r.retryCount < maxRetries && outcome != Refused then [EnvelopeOf(r)] else []
  }

  /** The messages accepted for the first n records of the batch. */
  function Accepted(batch: seq<Record>, n: nat, outs: nat -> Publish, maxRetries: int): seq<Envelope>
    requires n <= |batch|
  {
    if n == 0 then [] else Accepted(batch, n - 1, outs, maxRetries) + AcceptedNow(batch[n - 1], outs(n - 1), maxRetries)
  }

  /** The place of an id in the batch, |batch| when it is not there. */
  function Place(batch: seq<Record>, id: string): (i: nat)
    ensures i <= |batch| && (i < |batch| ==> batch[i].id == id) && forall j :: 0 <= j < i ==> batch[j].id != id
  {
    if batch == [] then 0 else if batch[0].id == id then 0 else 1 + Place(batch[1..], id)
  }

  /** What a record has become when the worker has been through the first n of the batch: a failed publish
      is counted, unless the record had used up its retries. */
  function Tried(r: Record, batch: seq<Record>, n: nat, outs: nat -> Publish, maxRetries: int): Record {
    var i := Place(batch, r.id);
    if i < n && i < |batch| && r.retryCount < maxRetries && outs(i) != Acked then r.(retryCount := r.retryCount + 1)
      else r
  }

  /** And when the publishes that returned have been marked. */
  function Settled(r: Record, batch: seq<Record>, outs: nat -> Publish, maxRetries: int, at: int): Record {
    var i := Place(batch, r.id);
    if i < |batch| && r.retryCount < maxRetries && outs(i) == Acked then r.(publishedAt := Some(at))
    else Tried(r, batch, |batch|, outs, maxRetries)
  }

  function AllTried(s: seq<Record>, batch: seq<Record>, n: nat, outs: nat -> Publish, maxRetries: int): seq<Record> {
    seq(|s|, i requires 0 <= i < |s| => Tried(s[i], batch, n, outs, maxRetries))
  }

  function AllSettled(s: seq<Record>, batch: seq<Record>, outs: nat -> Publish, maxRetries: int, at: int): seq<Record> {
    seq(|s|, i requires 0 <= i < |s| => Settled(s[i], batch, outs, maxRetries, at))
  }

  datatype World = World(records: seq<Record>, published: seq<Envelope>)

  /** How many records the worker gets through. */
  function Reach(batch: seq<Record>, crash: Crash): nat {
    if crash != NoCrash && crash.k < |batch| then crash.k else |batch|
  }

  /** The store and the queue after the worker has been through a batch, or has died in it. */
  function AfterBatch(w: World, batch: seq<Record>, maxRetries: int, outs: nat -> Publish, crash: Crash,
                      at: int): World {
    var n := Reach(batch, crash);
    if crash == NoCrash then
      World(AllSettled(w.records, batch, outs, maxRetries, at), w.published + Accepted(batch, n, outs, maxRetries))
    else
      World(AllTried(w.records, batch, n, outs, maxRetries),
            w.published + Accepted(batch, if crash.AfterPublish? && n < |batch| then n + 1 else n, outs, maxRetries))
  }

  /** The store and the queue after a poll. */
  function AfterPoll(w: World, limit: int, maxRetries: int, outs: nat -> Publish, crash: Crash, at: int): World {
    AfterBatch(w, Batch(w.records, limit), maxRetries, outs, crash, at)
  }

  function AckedIds(batch: seq<Record>, n: nat, outs: nat -> Publish, maxRetries: int): seq<string>
    requires n <= |batch|
  {
    if n == 0 then []
    else
      var r := batch[n - 1];
      AckedIds(batch, n - 1, outs, maxRetries) + (if r.retryCount < maxRetries && outs(n - 1) == Acked then [r.id]
        else [])
  }

  lemma {:induction false} AckedIdsHas(batch: seq<Record>, n: nat, outs: nat -> Publish, maxRetries: int, id: string)
    requires n <= |batch| && DistinctIds(batch)
    ensures var i := Place(batch, id);
      id in AckedIds(batch, n, outs, maxRetries) <==> i < n && batch[i].retryCount < maxRetries && outs(i) == Acked
  {
    if n > 0 { AckedIdsHas(batch, n - 1, outs, maxRetries, id); }
  }

  lemma PlaceOf(s: seq<Record>, batch: seq<Record>, r: Record, i: nat)
    requires DistinctIds(s) && DistinctIds(batch) && i < |batch| && r in s && batch[i] in s
    ensures Place(batch, r.id) == i <==> r.id == batch[i].id
    ensures r.id == batch[i].id ==> r == batch[i]
  {
  }

  /** The worker's turn at record i, a failed publish of which it counts. */
  lemma {:induction false} TriedNext(s: seq<Record>, batch: seq<Record>, i: nat, outs: nat -> Publish, maxRetries: int)
    requires DistinctIds(s) && DistinctIds(batch) && i < |batch| && batch[i] in s
    ensures DistinctIds(AllTried(s, batch, i, outs, maxRetries))
    ensures var before, after, b := AllTried(s, batch, i, outs, maxRetries),
      AllTried(s, batch, i + 1, outs, maxRetries), batch[i];
      if b.retryCount >= maxRetries then after == before && Counted(before, b.id, b.retryCount) == before
      else if outs(i) == Acked then after == before
      else after == Counted(before, b.id, b.retryCount + 1)
  {
    forall k | 0 <= k < |s| ensures Place(batch, s[k].id) == i ==> s[k] == batch[i] {
      PlaceOf(s, batch, s[k], i);
    }
    forall k | 0 <= k < |s| ensures s[k].id == batch[i].id ==> Place(batch, s[k].id) == i {
      PlaceOf(s, batch, s[k], i);
    }
  }

  lemma TriedNone(s: seq<Record>, batch: seq<Record>, outs: nat -> Publish, maxRetries: int)
    ensures AllTried(s, batch, 0, outs, maxRetries) == s
  {
  }

  lemma {:induction false} AllMarked(s: seq<Record>, batch: seq<Record>, outs: nat -> Publish, maxRetries: int, at: int)
    requires DistinctIds(s) && DistinctIds(batch) && forall i {:trigger batch[i]} :: 0 <= i < |batch| ==> batch[i] in s
    ensures Marked(AllTried(s, batch, |batch|, outs, maxRetries), AckedIds(batch, |batch|, outs, maxRetries), at)
         == AllSettled(s, batch, outs, maxRetries, at)
    ensures DistinctIds(AllTried(s, batch, |batch|, outs, maxRetries))
  {
    forall k | 0 <= k < |s|
      ensures s[k].id in AckedIds(batch, |batch|, outs, maxRetries) <==>
        (Place(batch, s[k].id) < |batch| && s[k].retryCount < maxRetries && outs(Place(batch, s[k].id)) == Acked)
    {
      AckedIdsHas(batch, |batch|, outs, maxRetries, s[k].id);
      var i := Place(batch, s[k].id);
      if i < |batch| {
        assert batch[i] in s;
        PlaceOf(s, batch, s[k], i);
      }
    }
  }

  class OutboxWorker {
    const store: InMemoryOutboxStore
    const queue: InMemoryMessageQueue
    const batchSize: int
    const maxRetries: int

    constructor (store: InMemoryOutboxStore, queue: InMemoryMessageQueue, batchSize: int, maxRetries: int)
      ensures this.store == store && this.queue == queue && this.batchSize == batchSize && this.maxRetries == maxRetries
    {
      this.store, this.queue, this.batchSize, this.maxRetries := store, queue, batchSize, maxRetries;
    }

    ghost function Value(): World
      reads store, queue
    {
      World(store.records, queue.published)
    }

    method Poll(outs: nat -> Publish, crash: Crash, at: int) returns (published: nat, failed: nat)
      requires DistinctIds(store.records)
      modifies store, queue
      ensures Value() == AfterPoll(old(Value()), batchSize, maxRetries, outs, crash, at)
      ensures crash == NoCrash ==> published + failed == |Batch(old(store.records), batchSize)|
      ensures crash == NoCrash ==>
        published == |AckedIds(Batch(old(store.records), batchSize), published + failed, outs, maxRetries)|
    {
      var batch := Batch(store.records, batchSize);
      BatchOk(store.records, batchSize);
      published, failed := PollBatch(batch, outs, crash, at);
    }

    method PollBatch(batch: seq<Record>, outs: nat -> Publish, crash: Crash, at: int)
        returns (published: nat, failed: nat)
      requires FromStore(Value(), batch)
      modifies store, queue
      ensures Value() == AfterBatch(old(Value()), batch, maxRetries, outs, crash, at)
      ensures crash == NoCrash ==>
        published + failed == |batch| && published == |AckedIds(batch, |batch|, outs, maxRetries)|
    {
      ghost var w := Value();
      var successfulIds, died;
      successfulIds, failed, died := PublishAll(batch, outs, crash, w);
      published := |successfulIds|;
      if crash != NoCrash {
        return;
      }
      assert forall i {:trigger batch[i]} :: 0 <= i < |batch| ==> batch[i] in Members(batch);
      AllMarked(w.records, batch, outs, maxRetries, at);
      if successfulIds != [] {
        store.MarkPublished(successfulIds, at);
      } else {
        MarkedNone(store.records, at);
      }
    }

    /** The worker has been through the first i of the batch; w is the world before. */
    ghost predicate Reached(w: World, batch: seq<Record>, i: nat, outs: nat -> Publish)
      requires i <= |batch|
      reads store, queue
    {
      && store.records == AllTried(w.records, batch, i, outs, maxRetries)
      && queue.published == w.published + Accepted(batch, i, outs, maxRetries)
    }

    /** The worker has died at record i, before or after it was published. */
    ghost predicate DiedAt(w: World, batch: seq<Record>, i: nat, published: bool, outs: nat -> Publish)
      requires i < |batch|
      reads store, queue
    {
      && store.records == AllTried(w.records, batch, i, outs, maxRetries)
      && queue.published == w.published + Accepted(batch, if published then i + 1 else i, outs, maxRetries)
    }

    ghost predicate Tallied(batch: seq<Record>, i: nat, outs: nat -> Publish, ids: seq<string>, failed: nat)
      requires i <= |batch|
    {
      ids == AckedIds(batch, i, outs, maxRetries) && |ids| + failed == i
    }

    lemma TalliedNext(batch: seq<Record>, i: nat, outs: nat -> Publish, ids: seq<string>, failed: nat)
      requires i < |batch| && Tallied(batch, i, outs, ids, failed)
      ensures if batch[i].retryCount < maxRetries && outs(i) == Acked
              then Tallied(batch, i + 1, outs, ids + [batch[i].id], failed)
              else Tallied(batch, i + 1, outs, ids, failed + 1)
    {
    }

    ghost predicate FromStore(w: World, batch: seq<Record>) {
      DistinctIds(w.records) && DistinctIds(batch) && Members(batch) <= Members(w.records)
    }

    /** The loop of poll. */
    method PublishAll(batch: seq<Record>, outs: nat -> Publish, crash: Crash, ghost w: World)
        returns (successfulIds: seq<string>, failed: nat, died: bool)
      requires w == Value() && FromStore(w, batch)
      modifies store, queue
      ensures died <==> crash != NoCrash && crash.k < |batch|
      ensures !died ==> Reached(w, batch, |batch|, outs) && Tallied(batch, |batch|, outs, successfulIds, failed)
      ensures died ==> DiedAt(w, batch, crash.k, crash.AfterPublish?, outs)
    {
      successfulIds, failed, died := [], 0, false;
      TriedNone(w.records, batch, outs, maxRetries);
      for i := 0 to |batch|
        invariant Reached(w, batch, i, outs) && Tallied(batch, i, outs, successfulIds, failed)
        invariant !died && (crash == NoCrash || i <= crash.k)
      {
        if crash == BeforeRecord(i) {
          return successfulIds, failed, true;
        }
        var dies := crash == AfterPublish(i);
        var ok := TurnAt(batch, i, outs, dies, w);
        if dies {
          return successfulIds, failed, true;
        }
        TalliedNext(batch, i, outs, successfulIds, failed);
        if ok {
          successfulIds := successfulIds + [batch[i].id];
        } else {
          failed := failed + 1;
        }
      }
    }

    method TurnAt(batch: seq<Record>, i: nat, outs: nat -> Publish, dies: bool, ghost w: World) returns (ok: bool)
      requires i < |batch| && FromStore(w, batch) && Reached(w, batch, i, outs)
      modifies store, queue
      ensures ok <==> batch[i].retryCount < maxRetries && outs(i) == Acked
      ensures !dies ==> Reached(w, batch, i + 1, outs)
      ensures dies ==> DiedAt(w, batch, i, true, outs)
    {
      assert batch[i] in Members(batch);
      TriedNext(w.records, batch, i, outs, maxRetries);
      ok := Turn(batch[i], outs(i), dies);
      Assoc(w.published, Accepted(batch, i, outs, maxRetries), AcceptedNow(batch[i], outs(i), maxRetries));
    }

    /** The body of the loop: a record that has used up its retries is left as it is, any other is
        published, and a failure is counted unless the worker dies first. */
    method Turn(record: Record, outcome: Publish, dies: bool) returns (ok: bool)
      requires DistinctIds(store.records)
      modifies store, queue
      ensures queue.published == old(queue.published) + AcceptedNow(record, outcome, maxRetries)
      ensures ok <==> record.retryCount < maxRetries && outcome == Acked
      ensures dies || ok ==> store.records == old(store.records)
      ensures !dies && !ok ==>
        store.records ==
          Counted(old(store.records), record.id, record.retryCount + (if record.retryCount < maxRetries then 1 else 0))
    {
      ok := false;
      if record.retryCount >= maxRetries {
        if !dies {
          store.MarkFailed(record.id, record.retryCount);
        }
      } else {
        ok := queue.Publish(EnvelopeOf(record), outcome);
        if !ok && !dies {
          store.MarkFailed(record.id, record.retryCount + 1);
        }
      }
    }

    method Cleanup(now: int, retentionMs: int) returns (deleted: nat)
      modifies store
      ensures store.records == Kept(old(store.records), now - retentionMs)
      ensures deleted == |old(store.records)| - |store.records|
    {
      deleted := store.DeletePublishedBefore(now - retentionMs);
    }
  }

  // ----- what a poll does, record by record and message by message -----

  /** What record number k of the store becomes: nothing happens to one that is not in the batch or has no retry
      left, or that the worker did not get to before it died; of the others one whose publish returned is marked,
      unless the worker died, and one whose publish failed has one more retry counted. */
  lemma {:induction false} PollRecord(w: World, limit: int, maxRetries: int, outs: nat -> Publish, crash: Crash,
                                      at: int, k: nat)
    requires DistinctIds(w.records) && k < |w.records|
    ensures var batch, w' := Batch(w.records, limit), AfterPoll(w, limit, maxRetries, outs, crash, at);
      && |w'.records| == |w.records|
      && (var r, r' := w.records[k], w'.records[k];
          && (r !in batch || r.retryCount >= maxRetries ==> r' == r)
          && forall i :: 0 <= i < |batch| && batch[i] == r && r.retryCount < maxRetries ==>
               if outs(i) == Acked then r' == if crash == NoCrash then r.(publishedAt := Some(at)) else r
               else r' == if crash == NoCrash || i < crash.k then r.(retryCount := r.retryCount + 1) else r)
  {
    var batch, r := Batch(w.records, limit), w.records[k];
    BatchOk(w.records, limit);
    var p := Place(batch, r.id);
    if p < |batch| {
      assert batch[p] in batch;
      PlaceOf(w.records, batch, r, p);
    }
    forall i | 0 <= i < |batch| && batch[i] == r ensures i == p {
      assert batch[i] in batch;
      PlaceOf(w.records, batch, r, i);
    }
  }

  lemma {:induction false} MessagesInOrder(batch: seq<Record>, n: nat, outs: nat -> Publish, maxRetries: int)
      returns (places: seq<nat>)
    requires n <= |batch|
    ensures forall i, j :: 0 <= i < j < |places| ==> places[i] < places[j]
    ensures forall i: nat :: i in places <==> i < n && batch[i].retryCount < maxRetries && outs(i) != Refused
    ensures var taken := Accepted(batch, n, outs, maxRetries);
      && |taken| == |places|
      && forall i :: 0 <= i < |places| ==>
           places[i] < n && taken[i] == Envelope(batch[places[i]].id, batch[places[i]].body)
  {
    places := [];
    if n > 0 {
      places := MessagesInOrder(batch, n - 1, outs, maxRetries);
      if batch[n - 1].retryCount < maxRetries && outs(n - 1) != Refused { places := places + [n - 1]; }
    }
  }

  /** The messages that a poll gives the queue, in order: one with the record's id and body for each record of the
      batch that had a retry left and was not refused, and that the worker published before it died. */
  lemma {:induction false} PollMessages(w: World, limit: int, maxRetries: int, outs: nat -> Publish, crash: Crash,
                                        at: int) returns (places: seq<nat>, taken: seq<Envelope>)
    ensures var batch, w' := Batch(w.records, limit), AfterPoll(w, limit, maxRetries, outs, crash, at);
      && (forall i, j :: 0 <= i < j < |places| ==> places[i] < places[j])
      && (forall i: nat :: i in places <==>
            && i < |batch| && batch[i].retryCount < maxRetries && outs(i) != Refused
            && (crash == NoCrash || i < crash.k || crash == AfterPublish(i)))
      && w'.published == w.published + taken && |taken| == |places|
      && (forall i :: 0 <= i < |places| ==> places[i] < |batch|)
      && (forall i :: 0 <= i < |places| ==> taken[i] == Envelope(batch[places[i]].id, batch[places[i]].body))
  {
    var batch := Batch(w.records, limit);
    var n := Reach(batch, crash);
    var reached := if crash.AfterPublish? && n < |batch| then n + 1 else n;
    places := MessagesInOrder(batch, reached, outs, maxRetries);
    taken := Accepted(batch, reached, outs, maxRetries);
  }

  // ----- runs: published means delivered -----

  datatype Action =
    | Write(record: Record)
    | Poll(outs: nat -> Publish, crash: Crash, at: int)
    | Clean(before: int)

  /** A write adds a record of a new id, not published. */
  ghost predicate Enabled(w: World, a: Action) {
    a.Write? ==> !HasId(w.records, a.record.id) && a.record.publishedAt == None
  }

  ghost function Step(w: World, limit: int, maxRetries: int, a: Action): World {
    match a
    case Write(r) => w.(records := w.records + [r])
    case Poll(outs, crash, at) => AfterPoll(w, limit, maxRetries, outs, crash, at)
    case Clean(before) => w.(records := Kept(w.records, before))
  }

  ghost function Run(w: World, limit: int, maxRetries: int, acts: seq<Action>): World {
    if acts == [] then w else Step(Run(w, limit, maxRetries, acts[..|acts| - 1]), limit, maxRetries, acts[|acts| - 1])
  }

  ghost predicate AllEnabled(w: World, limit: int, maxRetries: int, acts: seq<Action>) {
    acts == [] ||
    (AllEnabled(w, limit, maxRetries, acts[..|acts| - 1]) &&
      Enabled(Run(w, limit, maxRetries, acts[..|acts| - 1]), acts[|acts| - 1]))
  }

  ghost predicate Delivered(w: World, r: Record) {
    r.publishedAt.Some? ==> Envelope(r.id, r.body) in w.published
  }

  ghost predicate Inv(w: World) {
    DistinctIds(w.records) && forall r {:trigger Delivered(w, r)} :: r in w.records ==> Delivered(w, r)
  }

  lemma {:induction false} AcceptedHas(batch: seq<Record>, n: nat, outs: nat -> Publish, maxRetries: int, i: nat)
    requires i < n <= |batch| && batch[i].retryCount < maxRetries && outs(i) != Refused
    ensures Envelope(batch[i].id, batch[i].body) in Accepted(batch, n, outs, maxRetries)
  {
    if i < n - 1 { AcceptedHas(batch, n - 1, outs, maxRetries, i); }
  }

  lemma {:induction false} SettledDelivered(w: World, batch: seq<Record>, maxRetries: int, outs: nat -> Publish,
                                            at: int, r: Record)
    requires DistinctIds(w.records) && DistinctIds(batch) && r in w.records && Delivered(w, r)
    requires forall i {:trigger batch[i]} :: 0 <= i < |batch| ==> batch[i] in w.records
    ensures Delivered(AfterBatch(w, batch, maxRetries, outs, NoCrash, at), Settled(r, batch, outs, maxRetries, at))
  {
    var i := Place(batch, r.id);
    if i < |batch| && r.retryCount < maxRetries && outs(i) == Acked {
      PlaceOf(w.records, batch, r, i);
      AcceptedHas(batch, |batch|, outs, maxRetries, i);
    }
  }

  lemma {:induction false} PollInv(w: World, limit: int, maxRetries: int, outs: nat -> Publish, crash: Crash, at: int)
    requires Inv(w)
    ensures Inv(AfterPoll(w, limit, maxRetries, outs, crash, at))
  {
    BatchOk(w.records, limit);
    BatchInv(w, Batch(w.records, limit), maxRetries, outs, crash, at);
  }

  lemma {:induction false} BatchDelivered(w: World, batch: seq<Record>, maxRetries: int, outs: nat -> Publish,
                                          crash: Crash, at: int, k: nat)
    requires Inv(w) && DistinctIds(batch) && k < |w.records|
    requires forall i {:trigger batch[i]} :: 0 <= i < |batch| ==> batch[i] in w.records
    ensures var w' := AfterBatch(w, batch, maxRetries, outs, crash, at);
      |w'.records| == |w.records| && w'.records[k].id == w.records[k].id && Delivered(w', w'.records[k])
  {
    assert Delivered(w, w.records[k]);
    if crash == NoCrash {
      SettledDelivered(w, batch, maxRetries, outs, at, w.records[k]);
    }
  }

  lemma {:induction false} BatchInv(w: World, batch: seq<Record>, maxRetries: int, outs: nat -> Publish, crash: Crash,
                                    at: int)
    requires Inv(w) && DistinctIds(batch)
    requires forall i {:trigger batch[i]} :: 0 <= i < |batch| ==> batch[i] in w.records
    ensures Inv(AfterBatch(w, batch, maxRetries, outs, crash, at))
  {
    var w' := AfterBatch(w, batch, maxRetries, outs, crash, at);
    forall k | 0 <= k < |w'.records| ensures w'.records[k].id == w.records[k].id && Delivered(w', w'.records[k]) {
      BatchDelivered(w, batch, maxRetries, outs, crash, at, k);
    }
  }

  lemma {:induction false} KeptExactly(s: seq<Record>, before: int)
    requires DistinctIds(s)
    ensures DistinctIds(Kept(s, before))
    ensures forall r :: r in Kept(s, before) <==> r in s && (r.publishedAt == None || r.publishedAt.value >= before)
  {
    if s != [] {
      KeptExactly(s[1..], before);
      assert s == [s[0]] + s[1..];
      assert forall r :: r in s[1..] ==> r.id != s[0].id;
    }
  }

  /** In every run, crashes included, a record marked published has been accepted by the queue. */
  lemma {:induction false} PublishedIsDelivered(limit: int, maxRetries: int, acts: seq<Action>)
    requires AllEnabled(World([], []), limit, maxRetries, acts)
    ensures Inv(Run(World([], []), limit, maxRetries, acts))
  {
    if acts != [] {
      var before, a := acts[..|acts| - 1], acts[|acts| - 1];
      PublishedIsDelivered(limit, maxRetries, before);
      var w := Run(World([], []), limit, maxRetries, before);
      match a
      case Write(r) => {
        var w' := Step(w, limit, maxRetries, a);
        forall x | x in w'.records ensures Delivered(w', x) {
          if x in w.records { assert Delivered(w, x); }
        }
      }
      case Poll(outs, crash, at) => PollInv(w, limit, maxRetries, outs, crash, at);
      case Clean(before') => {
        KeptExactly(w.records, before');
        var w' := Step(w, limit, maxRetries, a);
        forall x | x in w'.records ensures Delivered(w', x) {
          assert Delivered(w, x);
        }
      }
    }
  }

  ghost predicate Written(acts: seq<Action>, e: Envelope) {
    exists r: Record :: Write(r) in acts && e == Envelope(r.id, r.body)
  }

  /** The fields of a record that no poll and no cleanup changes. */
  ghost predicate AllWritten(w: World, acts: seq<Action>) {
    && (forall r {:trigger r in w.records} :: r in w.records ==> Written(acts, Envelope(r.id, r.body)))
    && (forall e {:trigger e in w.published} :: e in w.published ==> Written(acts, e))
  }

  lemma {:induction false} WrittenBefore(acts: seq<Action>, a: Action, e: Envelope)
    requires Written(acts, e)
    ensures Written(acts + [a], e)
  {
    var r :| Write(r) in acts && e == Envelope(r.id, r.body);
    assert Write(r) in acts + [a];
  }

  lemma {:induction false} PollWritten(w: World, limit: int, maxRetries: int, outs: nat -> Publish, crash: Crash,
                                       at: int, acts: seq<Action>)
    requires DistinctIds(w.records) && AllWritten(w, acts)
    ensures AllWritten(AfterPoll(w, limit, maxRetries, outs, crash, at), acts)
  {
    RecordsStayWritten(w, limit, maxRetries, outs, crash, at, acts);
    var batch, w' := Batch(w.records, limit), AfterPoll(w, limit, maxRetries, outs, crash, at);
    var places, taken := PollMessages(w, limit, maxRetries, outs, crash, at);
    BatchOk(w.records, limit);
    forall e | e in w'.published ensures Written(acts, e) {
      if e !in w.published {
        var i :| 0 <= i < |taken| && taken[i] == e;
        assert batch[places[i]] in batch;
      }
    }
  }

  lemma {:induction false} RecordsStayWritten(w: World, limit: int, maxRetries: int, outs: nat -> Publish, crash: Crash,
                                              at: int, acts: seq<Action>)
    requires DistinctIds(w.records) && AllWritten(w, acts)
    ensures forall r :: r in AfterPoll(w, limit, maxRetries, outs, crash, at).records ==>
      Written(acts, Envelope(r.id, r.body))
  {
    var w' := AfterPoll(w, limit, maxRetries, outs, crash, at);
    forall r | r in w'.records ensures Written(acts, Envelope(r.id, r.body)) {
      var k :| 0 <= k < |w'.records| && w'.records[k] == r;
      assert w.records[k] in w.records && r.id == w.records[k].id && r.body == w.records[k].body;
    }
  }

  /** In every run, crashes included, the queue has only got messages of records that were written. */
  lemma {:induction false} DeliveredWasWritten(limit: int, maxRetries: int, acts: seq<Action>)
    requires AllEnabled(World([], []), limit, maxRetries, acts)
    ensures AllWritten(Run(World([], []), limit, maxRetries, acts), acts)
  {
    if acts != [] {
      var before, a := acts[..|acts| - 1], acts[|acts| - 1];
      var w := Run(World([], []), limit, maxRetries, before);
      var w' := Step(w, limit, maxRetries, a);
      DeliveredWasWritten(limit, maxRetries, before);
      PublishedIsDelivered(limit, maxRetries, before);
      assert acts == before + [a];
      match a
      case Write(r) => assert a in acts;
      case Poll(outs, crash, at) => PollWritten(w, limit, maxRetries, outs, crash, at, before);
      case Clean(b) => KeptExactly(w.records, b);
      forall e | Written(before, e) ensures Written(acts, e) { WrittenBefore(before, a, e); }
    }
  }

  // ----- the backlog -----

  function Due(r: Record): nat {
    if Live(r) then LIVE_RETRIES - r.retryCount else 0
  }

  /** How many attempts the live records have left before the store stops offering them. */
  function Backlog(s: seq<Record>): nat {
    if s == [] then 0 else Backlog(s[..|s| - 1]) + Due(s[|s| - 1])
  }

  ghost predicate NotMore(s: seq<Record>, s': seq<Record>) {
    |s'| == |s| && forall k :: 0 <= k < |s| ==> Due(s'[k]) <= Due(s[k])
  }

  lemma {:induction false} BacklogShrinks(s: seq<Record>, s': seq<Record>)
    requires NotMore(s, s')
    ensures Backlog(s') <= Backlog(s)
    ensures (exists k :: 0 <= k < |s| && Due(s'[k]) < Due(s[k])) ==> Backlog(s') < Backlog(s)
  {
    if s != [] {
      BacklogShrinks(s[..|s| - 1], s'[..|s| - 1]);
      if k :| 0 <= k < |s| && Due(s'[k]) < Due(s[k]) {
        if k < |s| - 1 {
          assert s'[..|s| - 1][k] == s'[k] && s[..|s| - 1][k] == s[k];
        }
      }
    }
  }

  /** What a poll that runs to its end does to one record. */
  lemma {:induction false} SettledDue(s: seq<Record>, limit: int, maxRetries: int, outs: nat -> Publish, at: int,
                                      r: Record)
    requires DistinctIds(s) && r in s
    ensures var batch := Batch(s, limit); var r' := Settled(r, batch, outs, maxRetries, at);
      if r in batch && r.retryCount < maxRetries then Due(r') < Due(r) else r' == r
  {
    var batch := Batch(s, limit);
    BatchIsOldest(s, limit);
    var i := Place(batch, r.id);
    if i < |batch| {
      assert batch[i] in s;
      PlaceOf(s, batch, r, i);
    }
  }

  ghost predicate CanProgress(s: seq<Record>, limit: int, maxRetries: int) {
    exists r :: r in Batch(s, limit) && r.retryCount < maxRetries
  }

  /** A poll that runs to its end lowers the backlog exactly when its batch has a record with a retry left;
      otherwise it changes nothing. */
  lemma {:induction false} PollProgress(w: World, limit: int, maxRetries: int, outs: nat -> Publish, at: int)
    requires DistinctIds(w.records)
    ensures var w' := AfterPoll(w, limit, maxRetries, outs, NoCrash, at);
      if CanProgress(w.records, limit, maxRetries) then Backlog(w'.records) < Backlog(w.records)
        else w'.records == w.records
  {
    var s, s' := w.records, AfterPoll(w, limit, maxRetries, outs, NoCrash, at).records;
    forall k | 0 <= k < |s|
      ensures if s[k] in Batch(s, limit) && s[k].retryCount < maxRetries then Due(s'[k]) < Due(s[k]) else s'[k] == s[k]
    {
      SettledDue(s, limit, maxRetries, outs, at, s[k]);
    }
    if CanProgress(s, limit, maxRetries) {
      var r :| r in Batch(s, limit) && r.retryCount < maxRetries;
      BatchOk(s, limit);
      var k :| 0 <= k < |s| && s[k] == r;
      assert Due(s'[k]) < Due(s[k]);
      BacklogShrinks(s, s');
    }
  }

  ghost predicate HasLive(s: seq<Record>) {
    exists r :: r in s && Live(r)
  }

  ghost predicate AlwaysProgresses(limit: int, maxRetries: int) {
    forall s: seq<Record> :: DistinctIds(s) && HasLive(s) ==> CanProgress(s, limit, maxRetries)
  }

  lemma {:induction false} BatchNotEmpty(s: seq<Record>, limit: int) returns (r: Record)
    requires DistinctIds(s) && HasLive(s) && limit >= 1
    ensures r in Batch(s, limit) && r in s && Live(r)
  {
    BatchIsOldest(s, limit);
    var live :| live in s && Live(live);
    if live in Batch(s, limit) {
      r := live;
    } else {
      assert |Batch(s, limit)| == limit;
      r := Batch(s, limit)[0];
    }
  }

  /** Polls that meet live records always make progress exactly when maxRetries is at least the number built
      into the query: below it, a record that has used up its retries is offered for ever. */
  lemma {:induction false} ProgressesExactly(limit: int, maxRetries: int)
    requires limit >= 1
    ensures AlwaysProgresses(limit, maxRetries) <==> maxRetries >= LIVE_RETRIES
  {
    if maxRetries >= LIVE_RETRIES {
      forall s: seq<Record> | DistinctIds(s) && HasLive(s) ensures CanProgress(s, limit, maxRetries) {
        var r := BatchNotEmpty(s, limit);
      }
    } else {
      var r := Record("stuck", "", 0, None, if maxRetries < 0 then 0 else maxRetries);
      var s := [r];
      assert r in s && HasLive(s);
      BatchOk(s, limit);
      assert !CanProgress(s, limit, maxRetries);
    }
  }

  // ----- a record that is offered for ever -----

  function Refuse(i: nat): Publish {
    Refused
  }

  function Tired(failures: nat): Record {
    Record("stuck", "", 0, None, failures)
  }

  /** A record is written, and then refused m times. */
  function Refusals(m: nat): seq<Action> {
    if m == 0 then [Write(Tired(0))] else Refusals(m - 1) + [Poll(Refuse, NoCrash, 0)]
  }

  lemma {:induction false} RefusedOnce(w: World, limit: int, maxRetries: int, m: nat)
    requires w.records == [Tired(m)] && limit >= 1 && m < maxRetries && m < LIVE_RETRIES
    ensures AfterPoll(w, limit, maxRetries, Refuse, NoCrash, 0).records == [Tired(m + 1)]
  {
    var s := [Tired(m)];
    BatchIsOldest(s, limit);
    assert s[0] in s && Live(s[0]);
    var r := BatchNotEmpty(s, limit);
    assert r == s[0];
    SettledDue(s, limit, maxRetries, Refuse, 0, s[0]);
  }

  lemma {:induction false} RunGrows(w: World, limit: int, maxRetries: int, acts: seq<Action>, a: Action)
    ensures Run(w, limit, maxRetries, acts + [a]) == Step(Run(w, limit, maxRetries, acts), limit, maxRetries, a)
    ensures AllEnabled(w, limit, maxRetries, acts + [a]) <==>
      AllEnabled(w, limit, maxRetries, acts) && Enabled(Run(w, limit, maxRetries, acts), a)
  {
    assert (acts + [a])[..|acts|] == acts;
  }

  ghost predicate Tires(limit: int, maxRetries: int, acts: seq<Action>, m: nat) {
    && AllEnabled(World([], []), limit, maxRetries, acts)
    && Run(World([], []), limit, maxRetries, acts).records == [Tired(m)]
  }

  lemma {:induction false} WrittenOnce(limit: int, maxRetries: int)
    ensures Tires(limit, maxRetries, [Write(Tired(0))], 0)
  {
    var start, a := World([], []), Write(Tired(0));
    RunGrows(start, limit, maxRetries, [], a);
    assert [] + [a] == [a] && [] + [Tired(0)] == [Tired(0)];
  }

  lemma {:induction false} RefusedAgain(limit: int, maxRetries: int, acts: seq<Action>, m: nat)
    requires limit >= 1 && m < maxRetries && m < LIVE_RETRIES && Tires(limit, maxRetries, acts, m)
    ensures Tires(limit, maxRetries, acts + [Poll(Refuse, NoCrash, 0)], m + 1)
  {
    var w, a := Run(World([], []), limit, maxRetries, acts), Poll(Refuse, NoCrash, 0);
    RunGrows(World([], []), limit, maxRetries, acts, a);
    RefusedOnce(w, limit, maxRetries, m);
    assert Step(w, limit, maxRetries, a) == AfterPoll(w, limit, maxRetries, Refuse, NoCrash, 0);
  }

  lemma {:induction false} RefusalsTire(limit: int, maxRetries: int, m: nat)
    requires limit >= 1 && m < LIVE_RETRIES && (m == 0 || m <= maxRetries)
    ensures Tires(limit, maxRetries, Refusals(m), m)
  {
    if m == 0 {
      WrittenOnce(limit, maxRetries);
    } else {
      RefusalsTire(limit, maxRetries, m - 1);
      RefusedAgain(limit, maxRetries, Refusals(m - 1), m - 1);
    }
  }

  /** A run that ends with such a record: written, refused as often as retries are allowed, and then offered by every
      poll without being tried. */
  lemma {:induction false} StuckReached(limit: int, maxRetries: int, outs: nat -> Publish, at: int)
    requires limit >= 1 && maxRetries < LIVE_RETRIES
    ensures var acts := Refusals(if maxRetries < 0 then 0 else maxRetries);
      var w := Run(World([], []), limit, maxRetries, acts);
      && AllEnabled(World([], []), limit, maxRetries, acts) && HasLive(w.records)
      && AfterPoll(w, limit, maxRetries, outs, NoCrash, at).records == w.records
  {
    var m := if maxRetries < 0 then 0 else maxRetries;
    RefusalsTire(limit, maxRetries, m);
    var w := Run(World([], []), limit, maxRetries, Refusals(m));
    assert w.records[0] in w.records && Live(w.records[0]);
    BatchOk(w.records, limit);
    assert !CanProgress(w.records, limit, maxRetries);
    PollProgress(w, limit, maxRetries, outs, at);
  }

  ghost function PollMany(w: World, limit: int, maxRetries: int, polls: seq<nat -> Publish>): World
    decreases |polls|
  {
    if polls == [] then w
    else PollMany(AfterPoll(w, limit, maxRetries, polls[0], NoCrash, 0), limit, maxRetries, polls[1..])
  }

  lemma {:induction false} NothingDue(s: seq<Record>)
    requires Backlog(s) == 0
    ensures !HasLive(s)
  {
    if s != [] {
      NothingDue(s[..|s| - 1]);
      assert s == s[..|s| - 1] + [s[|s| - 1]];
    }
  }

  lemma {:induction false} NothingLive(s: seq<Record>, limit: int, maxRetries: int)
    requires DistinctIds(s) && !HasLive(s)
    ensures !CanProgress(s, limit, maxRetries)
  {
    BatchIsOldest(s, limit);
  }

  /** A poll lowers the backlog, unless there is none. */
  lemma {:induction false} PollDrains(w: World, limit: int, maxRetries: int, outs: nat -> Publish)
    requires DistinctIds(w.records) && limit >= 1 && maxRetries >= LIVE_RETRIES
    ensures var w' := AfterPoll(w, limit, maxRetries, outs, NoCrash, 0);
      DistinctIds(w'.records) && (Backlog(w'.records) < Backlog(w.records) || Backlog(w'.records) == 0)
  {
    var w' := AfterPoll(w, limit, maxRetries, outs, NoCrash, 0);
    PollProgress(w, limit, maxRetries, outs, 0);
    assert |w'.records| == |w.records| && forall k :: 0 <= k < |w.records| ==> w'.records[k].id == w.records[k].id;
    if HasLive(w.records) {
      var r := BatchNotEmpty(w.records, limit);
      assert CanProgress(w.records, limit, maxRetries);
    } else {
      NothingLive(w.records, limit, maxRetries);
      NoLiveNoBacklog(w.records);
    }
  }

  /** However publishing turns out, as many polls as the backlog leave no live record: each is published or
      has failed five times. */
  lemma {:induction false} BacklogDrains(w: World, limit: int, maxRetries: int, polls: seq<nat -> Publish>)
    requires DistinctIds(w.records) && limit >= 1 && maxRetries >= LIVE_RETRIES && |polls| >= Backlog(w.records)
    ensures !HasLive(PollMany(w, limit, maxRetries, polls).records)
    decreases |polls|
  {
    if polls == [] {
      NothingDue(w.records);
    } else {
      PollDrains(w, limit, maxRetries, polls[0]);
      BacklogDrains(AfterPoll(w, limit, maxRetries, polls[0], NoCrash, 0), limit, maxRetries, polls[1..]);
    }
  }

  lemma {:induction false} NoLiveNoBacklog(s: seq<Record>)
    requires !HasLive(s)
    ensures Backlog(s) == 0
  {
    if s != [] {
      assert s == s[..|s| - 1] + [s[|s| - 1]];
      assert s[|s| - 1] in s;
      NoLiveNoBacklog(s[..|s| - 1]);
    }
  }

  // ----- the consumer -----

  /** The ids of the events handled, when deliveries arrive one after the other. */
  function Handled(arrivals: seq<Envelope>): seq<string> {
    if arrivals == [] then []
    else
      var before, e := Handled(arrivals[..|arrivals| - 1]), arrivals[|arrivals| - 1];
      if e.id in before then before else before + [e.id]
  }

  /** However often events are delivered, each is handled exactly once. */
  lemma {:induction false} HandledOnce(arrivals: seq<Envelope>)
    ensures Distinct(Handled(arrivals))
    ensures forall e :: e in arrivals ==> e.id in Handled(arrivals)
    ensures forall id :: id in Handled(arrivals) ==> exists e :: e in arrivals && e.id == id
  {
    if arrivals != [] {
      HandledOnce(arrivals[..|arrivals| - 1]);
      assert arrivals == arrivals[..|arrivals| - 1] + [arrivals[|arrivals| - 1]];
      var before, last := Handled(arrivals[..|arrivals| - 1]), arrivals[|arrivals| - 1];
      assert last in arrivals;
      forall id | id in before ensures exists e :: e in arrivals && e.id == id {
        var e :| e in arrivals[..|arrivals| - 1] && e.id == id;
        assert e in arrivals;
      }
    }
  }

  class EventConsumer {
    var processedIds: set<string>
    ghost var arrivals: seq<Envelope>

    ghost predicate Valid()
      reads this
    {
      processedIds == set id | id in Handled(arrivals)
    }

    constructor ()
      ensures Valid() && arrivals == []
    {
      processedIds, arrivals := {}, [];
    }

    /** Returns whether the event is handled: exactly when it is new. */
    method Consume(e: Envelope) returns (handled: bool)
      requires Valid()
      modifies this
      ensures Valid() && arrivals == old(arrivals) + [e]
      ensures Handled(arrivals) == Handled(old(arrivals)) + (if handled then [e.id] else [])
    {
      arrivals := arrivals + [e];
      assert arrivals[..|arrivals| - 1] == old(arrivals);
      if e.id in processedIds {
        return false;
      }
      processedIds := processedIds + {e.id};
      return true;
    }
  }
}
