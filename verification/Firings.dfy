/** Runs of a queue of timers: what leaves the queue has been taken out or started. */
module Firings {

  /** A timer that was started: when it was due, when that was, and the due times of all then queued. */
  datatype Firing<K, T> = Firing(item: T, due: int, at: int, dues: map<K, int>)

  /** The timers queued and their due times, by key; those taken out while queued, and those started. */
  datatype History<K, T> = History(queue: map<K, T>, dues: map<K, int>, removed: set<T>, fired: seq<Firing<K, T>>)

  // ----- the steps -----

  /** A timer is queued; one of the same key that is still queued is taken out. */
  function Entered<K, T>(h: History<K, T>, k: K, t: T, due: int): History<K, T> {
    Removed(h, k).(queue := h.queue[k := t], dues := h.dues[k := due])
  }

  /** What is queued under the key, if anything, is taken out. */
  function Removed<K, T>(h: History<K, T>, k: K): History<K, T> {
    History(h.queue - {k}, h.dues - {k}, h.removed + (if k in h.queue then {h.queue[k]} else {}), h.fired)
  }

  function Started<K, T>(h: History<K, T>, k: K, at: int): History<K, T>
    requires k in h.queue && k in h.dues
  {
    History(h.queue - {k}, h.dues - {k}, h.removed, h.fired + [Firing(h.queue[k], h.dues[k], at, h.dues)])
  }

  ghost predicate IsFirst<K, T>(h: History<K, T>, k: K) {
    k in h.queue && k in h.dues && forall j :: j in h.dues ==> h.dues[k] <= h.dues[j]
  }

  ghost predicate AnyDue<K, T>(h: History<K, T>, at: int) {
    exists k :: k in h.dues && h.dues[k] <= at
  }

  /** The earliest timer is started, and it is due. */
  ghost predicate Fires<K, T>(h: History<K, T>, h': History<K, T>, at: int) {
    exists k :: k in h.dues && IsFirst(h, k) && h.dues[k] <= at && h' == Started(h, k, at)
  }

  lemma FiresWhenDue<K, T>(h: History<K, T>, h': History<K, T>, at: int)
    requires Fires(h, h', at)
    ensures AnyDue(h, at) && h' != h
  {
  }

  // ----- runs -----

  /** A timer is started when due, and before all that are due later. */
  ghost predicate InTime<K, T>(f: Firing<K, T>) {
    f.due <= f.at && forall k :: k in f.dues ==> f.due <= f.dues[k]
  }

  /** One step never forgets a removal and starts at most one timer, which was queued; and what leaves the
      queue has been removed or started. */
  ghost predicate Follows<K, T>(h: History<K, T>, h': History<K, T>) {
    && h.removed <= h'.removed
    && (h'.fired == h.fired || Starts(h, h'))
    && forall k :: k in h.queue ==> Leaves(h.queue[k], k, h')
  }

  ghost predicate Starts<K, T>(h: History<K, T>, h': History<K, T>) {
    && |h'.fired| == |h.fired| + 1 && h'.fired[..|h.fired|] == h.fired
    && h'.fired[|h.fired|].item in h.queue.Values && h'.fired[|h.fired|].item !in h.removed
    && h'.fired[|h.fired|].dues == h.dues && InTime(h'.fired[|h.fired|])
  }

  ghost predicate Leaves<K, T>(t: T, k: K, h': History<K, T>) {
    || (k in h'.queue && h'.queue[k] == t)
    || t in h'.removed
    || (h'.fired != [] && h'.fired[|h'.fired| - 1].item == t)
  }

  lemma EnteredAfterRemoved<K, T>(h: History<K, T>, k: K, t: T, due: int)
    ensures Entered(Removed(h, k), k, t, due) == Entered(h, k, t, due)
  {
  }

  lemma EnteredFree<K, T>(h: History<K, T>, k: K, t: T, due: int)
    requires k !in h.queue && k !in h.dues
    ensures Entered(h, k, t, due) == h.(queue := h.queue[k := t], dues := h.dues[k := due])
  {
  }

  lemma EnteredFollows<K, T>(h: History<K, T>, k: K, t: T, due: int)
    ensures Follows(h, Entered(h, k, t, due))
  {
  }

  lemma RemovedFollows<K, T>(h: History<K, T>, k: K)
    ensures Follows(h, Removed(h, k))
  {
  }

  lemma StartFollows<K, T>(h: History<K, T>, k: K, at: int)
    requires IsFirst(h, k) && h.dues[k] <= at && h.queue[k] !in h.removed
    ensures Follows(h, Started(h, k, at))
  {
  }

  ghost predicate IsRun<K, T>(run: seq<History<K, T>>) {
    forall n, m :: 0 <= n < m < |run| && m == n + 1 ==> Follows(run[n], run[m])
  }

  /** In any run, a timer taken out while it was queued is not started afterwards, and every timer is started
      when due, earliest first. */
  lemma {:induction false} RemovedNeverFires<K, T>(run: seq<History<K, T>>, i: nat, j: nat, k: nat)
    requires i <= j < |run| && IsRun(run)
    requires |run[i].fired| <= k < |run[j].fired|
    ensures run[j].fired[k].item !in run[i].removed && InTime(run[j].fired[k])
    decreases j
  {
    assert j > i;
    assert Follows(run[j - 1], run[j]);
    if k < |run[j - 1].fired| {
      RemovedNeverFires(run, i, j - 1, k);
      assert run[j].fired[k] == run[j - 1].fired[k];
    } else {
      RemovalsLast(run, i, j - 1);
    }
  }

  lemma {:induction false} RemovalsLast<K, T>(run: seq<History<K, T>>, i: nat, j: nat)
    requires i <= j < |run| && IsRun(run)
    ensures run[i].removed <= run[j].removed
  {
    if i < j {
      assert Follows(run[j - 1], run[j]);
      RemovalsLast(run, i, j - 1);
    }
  }

  /** What a run shows at its end: every cancellation kept, every start in time. */
  ghost predicate Orderly<K, T>(run: seq<History<K, T>>) {
    forall i, j, k :: 0 <= i <= j < |run| && |run[i].fired| <= k < |run[j].fired| ==>
      run[j].fired[k].item !in run[i].removed && InTime(run[j].fired[k])
  }

  lemma {:induction false} RunsAreOrderly<K, T>(run: seq<History<K, T>>)
    requires IsRun(run)
    ensures Orderly(run)
  {
    forall i, j, k | 0 <= i <= j < |run| && |run[i].fired| <= k < |run[j].fired|
      ensures run[j].fired[k].item !in run[i].removed && InTime(run[j].fired[k])
    {
      RemovedNeverFires(run, i, j, k);
    }
  }
}
